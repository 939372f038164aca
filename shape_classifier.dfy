/** Classification of a slide shape into the element taxonomy by a fixed
    priority chain over its type code and the math, OLE, image and text it
    carries. */
module ShapeClassifier {
  import opened Wrappers
  import opened Strings
  import opened PptxShapes

  /** The marker test on an XML string: `'oMath' in x or 'oMathPara' in x`. */
  predicate MentionsOmml(x: string) {
    Contains(x, "oMath") || Contains(x, "oMathPara")
  }

  /** Some run of the text frame has string XML mentioning OMML. */
  predicate RunMentionsOmml(runXml: seq<seq<Option<string>>>) {
    exists i, j :: 0 <= i < |runXml| && 0 <= j < |runXml[i]|
      && runXml[i][j].Some? && MentionsOmml(runXml[i][j].value)
  }

  /** Some run of the text frame has string XML containing `marker`. */
  predicate RunContains(runXml: seq<seq<Option<string>>>, marker: string) {
    exists i, j :: 0 <= i < |runXml| && 0 <= j < |runXml[i]|
      && runXml[i][j].Some? && Contains(runXml[i][j].value, marker)
  }

  /** `_hasOmml`: the element's xpath query, then its XML string, then the XML
      of each text run. */
  predicate HasOmml(shape: Shape) {
    match shape.element
    case None => false
    case Some(el) =>
      el.mathNodes
      || (el.xml.Some? && MentionsOmml(el.xml.value))
      || (shape.textFrame.Some? && RunMentionsOmml(shape.textFrame.value.runXml))
  }

  /** `_hasOle`: the element's xpath query for `p:oleObj`, then its XML string. */
  predicate HasOle(shape: Shape) {
    match shape.element
    case None => false
    case Some(el) => el.oleNodes || (el.xml.Some? && Contains(el.xml.value, "oleObj"))
  }

  /** `classifyShape`, branch for branch, including the OMML tests that
      earlier branches have already made redundant. */
  function ClassifyShape(shape: Shape): string {
    var t := shape.shapeType;
    if t == PICTURE then "image"
    else if t == TABLE then "table"
    else if t == CHART then "chart"
    else if t == EMBEDDED_OLE_OBJECT then "equation"
    else if HasOmml(shape) then "equation"
    else if t == TEXT_EFFECT then "diagram"
    else if t == GROUP then
      (if HasOmml(shape) || HasOle(shape) then "equation" else "group")
    else if t == TEXT_BOX then "text"
    else if t == PLACEHOLDER then
      (if shape.hasImage then "image"
       else if HasOmml(shape) then "equation"
       else if shape.textFrame.Some? && Strip(shape.Text()) != "" then "text"
       else "unknown")
    else if shape.textFrame.Some? then
      (if HasOmml(shape) then "equation" else "text")
    else "unknown"
  }

  /** The labels `classifyShape` can return. */
  predicate InTaxonomy(kind: string) {
    kind in {"image", "table", "chart", "equation", "diagram", "group", "text", "unknown"}
  }

  /** "oMathPara" contains "oMath", so the second marker test adds nothing. */
  lemma MentionsOmmlIsOMath(x: string)
    ensures MentionsOmml(x) <==> Contains(x, "oMath")
  {
    if Contains(x, "oMathPara") {
      assert "oMath" <= "oMathPara";
      ContainsTransitive(x, "oMathPara", "oMath");
    }
  }

  /** `_hasOmml` is false without an element; with one it is true exactly
      when the xpath query found math or the element XML or some run XML
      contains "oMath". */
  lemma HasOmmlCases(shape: Shape)
    ensures shape.element.None? ==> !HasOmml(shape)
    ensures shape.element.Some? ==>
      (HasOmml(shape) <==>
        shape.element.value.mathNodes
        || (shape.element.value.xml.Some? && Contains(shape.element.value.xml.value, "oMath"))
        || (shape.textFrame.Some? && RunContains(shape.textFrame.value.runXml, "oMath")))
  {
    if shape.element.Some? {
      var el := shape.element.value;
      if el.xml.Some? {
        MentionsOmmlIsOMath(el.xml.value);
      }
      if shape.textFrame.Some? {
        var rx: seq<seq<Option<string>>> := shape.textFrame.value.runXml;
        forall i, j | 0 <= i < |rx| && 0 <= j < |rx[i]| && rx[i][j].Some?
          ensures MentionsOmml(rx[i][j].value) <==> Contains(rx[i][j].value, "oMath")
        {
          MentionsOmmlIsOMath(rx[i][j].value);
        }
      }
    }
  }

  /** The four type codes decided before any OMML test. */
  lemma TypeCodesFirst(shape: Shape)
    ensures shape.shapeType == PICTURE ==> ClassifyShape(shape) == "image"
    ensures shape.shapeType == TABLE ==> ClassifyShape(shape) == "table"
    ensures shape.shapeType == CHART ==> ClassifyShape(shape) == "chart"
    ensures shape.shapeType == EMBEDDED_OLE_OBJECT ==> ClassifyShape(shape) == "equation"
  {
  }

  /** OMML anywhere in any other shape makes it an equation, pre-empting the
      diagram, group, text-box, placeholder and text outcomes. */
  lemma OmmlPreempts(shape: Shape)
    requires shape.shapeType !in {PICTURE, TABLE, CHART}
    requires HasOmml(shape)
    ensures ClassifyShape(shape) == "equation"
  {
  }

  /** Without OMML: type 15 is a diagram, a text box is text, a group is an
      equation exactly when it holds an OLE object. */
  lemma ShapesWithoutOmml(shape: Shape)
    requires !HasOmml(shape)
    ensures shape.shapeType == TEXT_EFFECT ==> ClassifyShape(shape) == "diagram"
    ensures shape.shapeType == TEXT_BOX ==> ClassifyShape(shape) == "text"
    ensures shape.shapeType == GROUP ==>
      ClassifyShape(shape) == (if HasOle(shape) then "equation" else "group")
  {
  }

  /** A placeholder without OMML: an image when it exposes one, text when its
      frame holds non-blank text, otherwise unknown. (With OMML it is already
      an equation before its own branch, so the branch's OMML test never
      fires.) */
  lemma PlaceholderRule(shape: Shape)
    requires shape.shapeType == PLACEHOLDER && !HasOmml(shape)
    ensures ClassifyShape(shape) ==
      if shape.hasImage then "image"
      else if shape.textFrame.Some? && Strip(shape.textFrame.value.text) != "" then "text"
      else "unknown"
  {
  }

  /** Any other type code: text when it has a text frame, otherwise unknown
      (OMML aside). */
  lemma FallbackRule(shape: Shape)
    requires shape.shapeType !in {PICTURE, TABLE, CHART, EMBEDDED_OLE_OBJECT, TEXT_EFFECT, GROUP, TEXT_BOX, PLACEHOLDER}
    ensures ClassifyShape(shape) == (if HasOmml(shape) then "equation"
                                     else if shape.textFrame.Some? then "text" else "unknown")
  {
  }

  /** The chain only ever returns a label of the taxonomy. */
  lemma ClassifyInTaxonomy(shape: Shape)
    ensures InTaxonomy(ClassifyShape(shape))
  {
  }
}
