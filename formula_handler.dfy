/** Formula extraction: a chain of layers tried in a fixed order (OMML in the
    shape, OMML in the slide, the shape's text through the LLM, the shape's
    image through the LLM), the confidence rules of the LLM layers, and the
    symbol rewriting of the text fallback. The LLM's replies and the OMML
    converters are inputs. */
module FormulaHandler {
  import opened Wrappers
  import opened Strings
  import opened PptxShapes

  // ----- simpleTextToLatex -----

  /** The characters that make a text worth rewriting. */
  const Strong: seq<char> := ['=', '\U{2264}', '\U{2265}', '\U{2248}', '\U{2260}', '^', '\U{221A}', '\U{2211}', '\U{222B}', '/']

  /** The replacement table, in its iteration order: minus sign, en dash,
      times, middle dot, division, less-or-equal, greater-or-equal, not
      equal, almost equal, right arrow, left arrow, infinity. */
  const Replacements: seq<(char, string)> := [
    ('\U{2212}', "-"), ('\U{2013}', "-"), ('\U{00D7}', "*"), ('\U{00B7}', "\\cdot "),
    ('\U{00F7}', "/"), ('\U{2264}', "\\leq "), ('\U{2265}', "\\geq "), ('\U{2260}', "\\neq "),
    ('\U{2248}', "\\approx "), ('\U{2192}', "\\to "), ('\U{2190}', "\\leftarrow "), ('\U{221E}', "\\infty ")]

  predicate HasStrong(s: string) {
    exists k :: 0 <= k < |Strong| && Strong[k] in s
  }

  /** The text after the first `|table|` replacements, applied in order. */
  function ApplyTable(s: string, table: seq<(char, string)>): string {
    if table == [] then s
    else
      var last := table[|table| - 1];
      ReplaceChar(ApplyTable(s, table[..|table| - 1]), last.0, last.1)
  }

  /** What `simpleTextToLatex(text)` returns. */
  function SimpleLatex(text: string): Option<string> {
    if text == "" || !HasStrong(text) then None
    else Some(Strip(ApplyTable(text, Replacements)))
  }

  /** No replacement text contains a character the table replaces. */
  predicate KeysNotInValues(table: seq<(char, string)>) {
    forall i, j :: 0 <= i < |table| && 0 <= j < |table| ==> table[i].0 !in table[j].1
  }

  /** After applying the table, none of its characters is left, and every
      character comes from the text or from a replacement. */
  lemma {:induction false} ApplyTableRemoves(s: string, table: seq<(char, string)>)
    requires KeysNotInValues(table)
    ensures forall i :: 0 <= i < |table| ==> table[i].0 !in ApplyTable(s, table)
    ensures forall c :: c in ApplyTable(s, table) ==> c in s || exists j :: 0 <= j < |table| && c in table[j].1
  {
    if table != [] {
      var front := table[..|table| - 1];
      var last := table[|table| - 1];
      assert KeysNotInValues(front) by {
        forall i, j | 0 <= i < |front| && 0 <= j < |front| ensures front[i].0 !in front[j].1 {
          assert front[i] == table[i] && front[j] == table[j];
        }
      }
      ApplyTableRemoves(s, front);
      var mid := ApplyTable(s, front);
      assert last.0 !in last.1;
      ReplaceCharRemoves(mid, last.0, last.1);
      var r := ApplyTable(s, table);
      forall c | c in r ensures c in s || exists j :: 0 <= j < |table| && c in table[j].1 {
        if c !in last.1 && c !in s {
          var j :| 0 <= j < |front| && c in front[j].1;
          assert front[j] == table[j];
        }
      }
      forall i | 0 <= i < |table| - 1 ensures table[i].0 !in r {
        assert front[i] == table[i];
        assert table[i].0 !in mid && table[i].0 !in last.1;
      }
    }
  }

  lemma ReplacementsKeysNotInValues()
    ensures KeysNotInValues(Replacements)
  {
    ReplacementKeysWide();
    ReplacementValuesAscii();
  }

  /** Every replaced symbol lies outside ASCII. */
  lemma ReplacementKeysWide()
    ensures forall i :: 0 <= i < |Replacements| ==> Replacements[i].0 >= '\U{80}'
  {
  }

  /** Every replacement text is plain ASCII. */
  lemma ReplacementValuesAscii()
    ensures forall j, c :: 0 <= j < |Replacements| && c in Replacements[j].1 ==> c < '\U{80}'
  {
  }

  /** `simpleTextToLatex`: nothing for an empty text or one without a strong
      symbol; otherwise the rewritten, stripped text, in which none of the
      replaced symbols is left. */
  method SimpleTextToLatex(text: string) returns (r: Option<string>)
    ensures r.None? <==> text == "" || !HasStrong(text)
    ensures r.Some? ==> (Trimmed(r.value)
      && forall i :: 0 <= i < |Replacements| ==> Replacements[i].0 !in r.value)
    ensures r == SimpleLatex(text)
  {
    if text == "" {
      return None;
    }
    var s := text;
    if !HasStrong(s) {
      return None;
    }
    var i := 0;
    while i < |Replacements|
      invariant 0 <= i <= |Replacements|
      invariant s == ApplyTable(text, Replacements[..i])
    {
      var (k, v) := Replacements[i];
      assert Replacements[..i + 1][..i] == Replacements[..i];
      s := ReplaceChar(s, k, v);
      i := i + 1;
    }
    assert Replacements[..i] == Replacements;
    ReplacementsKeysNotInValues();
    ApplyTableRemoves(text, Replacements);
    r := Some(Strip(s));
  }

  /** A rewritten text is never empty: the strong symbol it contains either
      stays or becomes a non-blank command. */
  lemma {:induction false} SimpleLatexNonEmpty(text: string)
    requires SimpleLatex(text).Some?
    ensures SimpleLatex(text).value != ""
  {
    assert HasStrong(text);
    var k :| 0 <= k < |Strong| && Strong[k] in text;
    StrongNotSpace(k);
    ReplacementsNotBlank();
    StrongSurvives(text, Replacements, Strong[k]);
    var a := ApplyTable(text, Replacements);
    var c :| c in a && !IsSpace(c);
    StripKeepsNonSpace(a, c);
  }

  lemma StrongNotSpace(k: int)
    requires 0 <= k < |Strong|
    ensures !IsSpace(Strong[k])
  {
  }

  lemma ReplacementsNotBlank()
    ensures forall j :: 0 <= j < |Replacements| ==> Replacements[j].1 != [] && !IsSpace(Replacements[j].1[0])
  {
  }

  /** A strong symbol survives the table, or leaves a non-space character
      where it stood. */
  lemma {:induction false} StrongSurvives(s: string, table: seq<(char, string)>, c: char)
    requires c in s && !IsSpace(c)
    requires forall j :: 0 <= j < |table| ==> table[j].1 != [] && !IsSpace(table[j].1[0])
    ensures exists d :: d in ApplyTable(s, table) && !IsSpace(d)
  {
    if table != [] {
      var front := table[..|table| - 1];
      var last := table[|table| - 1];
      forall j | 0 <= j < |front| ensures front[j].1 != [] && !IsSpace(front[j].1[0]) {
        assert front[j] == table[j];
      }
      StrongSurvives(s, front, c);
      var d :| d in ApplyTable(s, front) && !IsSpace(d);
      ReplaceCharKeeps(ApplyTable(s, front), last.0, last.1, d);
      assert ApplyTable(s, table) == ReplaceChar(ApplyTable(s, front), last.0, last.1);
    }
  }

  lemma {:induction false} ReplaceCharKeeps(s: string, k: char, v: string, d: char)
    requires d in s && !IsSpace(d)
    requires v != [] && !IsSpace(v[0])
    ensures exists e :: e in ReplaceChar(s, k, v) && !IsSpace(e)
  {
    if s[0] == d {
      if d == k {
        assert v[0] in ReplaceChar(s, k, v);
      } else {
        assert d in ReplaceChar(s, k, v);
      }
    } else {
      ReplaceCharKeeps(s[1..], k, v, d);
      var e :| e in ReplaceChar(s[1..], k, v) && !IsSpace(e);
      assert e in ReplaceChar(s, k, v);
    }
  }

  lemma StripKeepsNonSpace(s: string, c: char)
    requires c in s && !IsSpace(c)
    ensures Strip(s) != ""
  {
    StripNonBlank(s, c);
  }

  // ----- the LLM layers -----

  /** The LLM's reply to the image prompt: a JSON object with its `latex`
      field (`None` when missing or null), text that is not JSON, or an
      exception raised on the way. */
  datatype OcrReply = OcrJson(latex: Option<string>) | OcrUnparseable | OcrRaised

  /** The LLM's reply to the text prompt. */
  datatype TextReply = TextJson(latex: Option<string>) | TextUnparseable | TextRaised

  /** A formula record. `isFormula` is whether it carries `type: formula`. */
  datatype FormulaResult = FormulaResult(
    isFormula: bool,
    latex: Option<string>,
    mathml: Option<string>,
    omml: Option<string>,
    source: string,
    confidence: real,
    error: Option<string>)

  /** `(latex, confidence, error)` as `_extractFormula` returns them. */
  datatype Ocr = Ocr(latex: Option<string>, confidence: real, error: Option<string>)

  /** `_extractFormula`: the reply's formula, with confidence 0.95 when it
      is non-blank and 0.0 otherwise; a reply that is not JSON is a parse
      error, and a raised call gives no formula. */
  function ExtractFormula(reply: OcrReply): (r: Ocr)
    ensures r.confidence == (if r.latex.Some? && Strip(r.latex.value) != "" then 0.95 else 0.0)
    ensures r.error == Some("json_parse_error") <==> reply.OcrUnparseable?
    ensures reply.OcrJson? ==> r.latex == reply.latex && r.error.None?
    ensures !reply.OcrJson? ==> r.latex.None?
  {
    match reply
    case OcrJson(latex) =>
      Ocr(latex, if latex.Some? && latex.value != "" && Strip(latex.value) != "" then 0.95 else 0.0, None)
    case OcrUnparseable => Ocr(None, 0.0, Some("json_parse_error"))
    case OcrRaised => Ocr(None, 0.0, None)
  }

  /** `(latex, confidence)` as `_extractFormulaFromText` returns them. */
  datatype TextLatex = TextLatex(latex: Option<string>, confidence: real)

  /** `_extractFormulaFromText`: the LLM's formula at 0.9; otherwise the
      rewritten text at 0.6, or nothing at 0.0. */
  function ExtractFormulaFromText(text: string, reply: TextReply): TextLatex {
    if reply.TextJson? && Truthy(reply.latex) then TextLatex(reply.latex, 0.9)
    else
      var h := SimpleLatex(text);
      TextLatex(h, if Truthy(h) then 0.6 else 0.0)
  }

  /** The text layer's confidence tells where its formula came from. */
  lemma TextLayerConfidence(text: string, reply: TextReply)
    ensures var r := ExtractFormulaFromText(text, reply);
      (r.confidence == 0.9 <==> reply.TextJson? && Truthy(reply.latex))
      && (r.confidence == 0.6 <==> !(reply.TextJson? && Truthy(reply.latex)) && SimpleLatex(text).Some?)
      && (r.confidence == 0.0 <==> !Truthy(r.latex))
  {
    if SimpleLatex(text).Some? {
      SimpleLatexNonEmpty(text);
    }
  }

  // ----- the PPTX chain -----

  /** The two OMML converters: `_ommlToLatex` (to LaTeX and MathML) and
      `_extractOmmlFromSlide` (the slide's OMML by file and slide number). */
  datatype Converters = Converters(
    ommlToLatex: string -> (Option<string>, Option<string>),
    ommlFromSlide: (string, int) -> Option<string>)

  /** The converters as the handler defines them: both return nothing. */
  const Stubs: Converters := Converters(omml => (None, None), (path, slide) => None)

  /** `_extractOmml`: the shape's XML when it contains "m:oMath"; nothing
      when the shape has no element, reading its XML raises, or the XML does
      not mention it. */
  function ExtractOmml(shape: Shape): (r: Option<string>)
    ensures r.Some? <==> shape.element.Some? && shape.element.value.xml.Some?
                         && Contains(shape.element.value.xml.value, "m:oMath")
    ensures r.Some? ==> r == shape.element.value.xml && r.value != ""
  {
    if shape.element.Some? && shape.element.value.xml.Some?
       && Contains(shape.element.value.xml.value, "m:oMath")
    then
      ContainsLength(shape.element.value.xml.value, "m:oMath");
      shape.element.value.xml
    else None
  }

  function OmmlRecord(latex: Option<string>, mathml: Option<string>, omml: string, source: string): FormulaResult {
    FormulaResult(true, latex, mathml, Some(omml), source, if Truthy(latex) then 1.0 else 0.8, None)
  }

  function OcrRecord(res: Ocr): FormulaResult {
    FormulaResult(true, res.latex, None, None, "ocr", res.confidence,
                  if Truthy(res.latex) then None else Some("no_latex"))
  }

  const Failed: FormulaResult :=
    FormulaResult(false, None, None, None, "failed", 0.0, Some("No extraction method succeeded"))

  /** The text the text layer sends: the shape's text, stripped. */
  function LayerText(shape: Shape): string {
    Strip(Strip(shape.Text()))
  }

  /** Layer 1: the shape's own OMML, when a converter turns it into LaTeX
      or MathML. */
  function ShapeOmmlLayer(shape: Shape, conv: Converters): (r: Option<FormulaResult>)
    ensures r.Some? ==> ExtractOmml(shape).Some? && r.value.source == "omml"
  {
    var omml := ExtractOmml(shape);
    if Truthy(omml) then
      var (latex, mathml) := conv.ommlToLatex(omml.value);
      if Truthy(latex) || Truthy(mathml) then Some(OmmlRecord(latex, mathml, omml.value, "omml")) else None
    else None
  }

  /** Layer 2a: the slide's OMML, looked up only when the shape had none and
      both the file path and the slide number are truthy. */
  function SlideOmmlLayer(shape: Shape, slideNum: int, filePath: string, conv: Converters): (r: Option<FormulaResult>)
    ensures r.Some? ==> ExtractOmml(shape).None? && filePath != "" && slideNum != 0 && r.value.source == "omml_slide"
  {
    if !Truthy(ExtractOmml(shape)) && filePath != "" && slideNum != 0 then
      var slideOmml := conv.ommlFromSlide(filePath, slideNum);
      if Truthy(slideOmml) then
        var (latex, mathml) := conv.ommlToLatex(slideOmml.value);
        if Truthy(latex) || Truthy(mathml) then Some(OmmlRecord(latex, mathml, slideOmml.value, "omml_slide"))
        else None
      else None
    else None
  }

  /** Layer 2b: the shape's text through the LLM (or the rewriting fallback),
      when the shape has a text frame, the LLM is present and the text is
      not blank. */
  function TextLayer(shape: Shape, hasLlm: bool, reply: TextReply): (r: Option<FormulaResult>)
    ensures r.Some? ==> hasLlm && shape.textFrame.Some? && LayerText(shape) != "" && r.value.source == "text_llm"
  {
    var rawText := LayerText(shape);
    if shape.textFrame.Some? && hasLlm && rawText != "" then
      var textRes := ExtractFormulaFromText(rawText, reply);
      if Truthy(textRes.latex) then
        Some(FormulaResult(true, textRes.latex, None, None, "text_llm", textRes.confidence, None))
      else None
    else None
  }

  /** Layer 2c: the shape's image through the LLM, when the LLM is present
      and reading `shape.image` does not raise. */
  function OcrLayer(shape: Shape, hasLlm: bool, reply: OcrReply): (r: Option<FormulaResult>)
    ensures r.Some? <==> hasLlm && shape.hasImage
    ensures r.Some? ==> r.value.source == "ocr"
  {
    if hasLlm && shape.hasImage then Some(OcrRecord(ExtractFormula(reply))) else None
  }

  /** `handlePptx(shape, slideNum, filePath)`: the first layer that answers,
      else the failure record. */
  function HandlePptx(shape: Shape, slideNum: int, filePath: string, hasLlm: bool,
                      conv: Converters, textReply: TextReply, ocrReply: OcrReply): FormulaResult
  {
    var l1 := ShapeOmmlLayer(shape, conv);
    if l1.Some? then l1.value
    else
      var l2 := SlideOmmlLayer(shape, slideNum, filePath, conv);
      if l2.Some? then l2.value
      else
        var l3 := TextLayer(shape, hasLlm, textReply);
        if l3.Some? then l3.value
        else
          var l4 := OcrLayer(shape, hasLlm, ocrReply);
          if l4.Some? then l4.value else Failed
  }

  /** With the converters as defined, neither OMML layer ever answers: every
      shape goes to the text, image or failure outcome. */
  lemma StubsSkipOmml(shape: Shape, slideNum: int, filePath: string, hasLlm: bool,
                      textReply: TextReply, ocrReply: OcrReply)
    ensures ShapeOmmlLayer(shape, Stubs).None? && SlideOmmlLayer(shape, slideNum, filePath, Stubs).None?
    ensures HandlePptx(shape, slideNum, filePath, hasLlm, Stubs, textReply, ocrReply).source
      in {"text_llm", "ocr", "failed"}
  {
  }

  /** The layers in order: an outcome happens only when every earlier layer
      produced nothing, and the failure record only when even the image
      layer could not run. */
  lemma LayerOrder(shape: Shape, slideNum: int, filePath: string, hasLlm: bool,
                   conv: Converters, textReply: TextReply, ocrReply: OcrReply)
    ensures var r := HandlePptx(shape, slideNum, filePath, hasLlm, conv, textReply, ocrReply);
      r.source in {"omml", "omml_slide", "text_llm", "ocr", "failed"}
      && (r.source == "omml" <==> ShapeOmmlLayer(shape, conv).Some?)
      && (r.source == "omml_slide" <==>
            (ShapeOmmlLayer(shape, conv).None? && SlideOmmlLayer(shape, slideNum, filePath, conv).Some?))
      && (r.source == "text_llm" <==>
            (ShapeOmmlLayer(shape, conv).None? && SlideOmmlLayer(shape, slideNum, filePath, conv).None?
             && TextLayer(shape, hasLlm, textReply).Some?))
      && (r.source == "failed" <==> r == Failed)
      && (r.source == "failed" ==> !hasLlm || !shape.hasImage)
  {
  }

  /** The OMML layers give 1.0 with a LaTeX formula and 0.8 with MathML
      only. */
  lemma OmmlConfidence(shape: Shape, slideNum: int, filePath: string, conv: Converters)
    ensures var r := ShapeOmmlLayer(shape, conv);
      r.Some? ==> r.value.confidence == (if Truthy(r.value.latex) then 1.0 else 0.8)
                  && (Truthy(r.value.latex) || Truthy(r.value.mathml))
    ensures var r := SlideOmmlLayer(shape, slideNum, filePath, conv);
      r.Some? ==> r.value.confidence == (if Truthy(r.value.latex) then 1.0 else 0.8)
                  && (Truthy(r.value.latex) || Truthy(r.value.mathml))
  {
  }

  /** The text layer answers with a formula at 0.9 or 0.6; the image layer
      marks `no_latex` exactly when it has no formula. */
  lemma LlmLayerConfidence(shape: Shape, hasLlm: bool, textReply: TextReply, ocrReply: OcrReply)
    ensures var r := TextLayer(shape, hasLlm, textReply);
      r.Some? ==> r.value.confidence in {0.9, 0.6} && Truthy(r.value.latex)
    ensures var r := OcrLayer(shape, hasLlm, ocrReply);
      r.Some? ==> (r.value.error == Some("no_latex") <==> !Truthy(r.value.latex))
                  && r.value.confidence in {0.95, 0.0}
  {
    TextLayerConfidence(LayerText(shape), textReply);
  }

  // ----- handlePdf -----

  /** `handlePdf(page, bbox, scale)`: `renderError` is the message of an
      exception raised while rendering the region, if one was. */
  function HandlePdf(renderError: Option<string>, hasLlm: bool, ocrReply: OcrReply): FormulaResult {
    if renderError.Some? then
      FormulaResult(false, None, None, None, "pdf_error", 0.0, renderError)
    else if !hasLlm then
      FormulaResult(false, None, None, None, "ocr_no_llm", 0.0, None)
    else OcrRecord(ExtractFormula(ocrReply))
  }

  /** PDF formulas come from the image only: no OMML or text source, nothing
      without the LLM, and `no_latex` exactly when the OCR found none. */
  lemma PdfSources(renderError: Option<string>, hasLlm: bool, ocrReply: OcrReply)
    ensures var r := HandlePdf(renderError, hasLlm, ocrReply);
      r.source in {"pdf_error", "ocr_no_llm", "ocr"}
      && (renderError.None? && !hasLlm ==> r.source == "ocr_no_llm" && r.confidence == 0.0 && r.latex.None?)
      && (r.source == "ocr" ==> hasLlm && (r.error == Some("no_latex") <==> !Truthy(r.latex)))
  {
  }
}
