/** Text extraction: a slide shape's text stripped, and a PDF region's text
    with its whitespace collapsed. */
module TextHandler {
  import opened Strings
  import opened PptxShapes
  import opened NmsProcessor

  /** `handlePptx`: "" without a text frame, otherwise the frame's text with
      the whitespace at both ends removed. */
  function HandlePptx(shape: Shape): (r: string)
    ensures shape.textFrame.None? ==> r == ""
    ensures Trimmed(r)
    ensures shape.textFrame.Some? ==>
      exists a, b :: shape.Text() == a + r + b && AllSpace(a) && AllSpace(b)
  {
    if shape.textFrame.None? then "" else Strip(shape.Text())
  }

  /** With a text frame, the result is the frame's text between its blank
      ends, whichever way the text is split into blank ends around a trimmed
      middle. */
  lemma HandlePptxIsStripped(shape: Shape, a: string, t: string, b: string)
    requires shape.textFrame.Some? && shape.Text() == a + t + b
    requires AllSpace(a) && AllSpace(b) && Trimmed(t)
    ensures HandlePptx(shape) == t
  {
    StripUnique(a, t, b);
  }

  /** `" ".join(text.split()).strip()`: the words of `text` separated by single
      spaces. */
  function CollapseWhitespace(text: string): (r: string)
    ensures Trimmed(r) && SingleSpaced(r)
    ensures Words(r) == Words(text)
  {
    var joined := Join(Words(text), " ");
    JoinShape(Words(text));
    WordsOfJoin(Words(text));
    StripTrimmed(joined);
    Strip(joined)
  }

  /** The clip rectangle: the detection box multiplied by `scale`. */
  function ScaledRect(bbox: Box, scale: real): Box {
    Box(bbox.xMin * scale, bbox.yMin * scale, bbox.xMax * scale, bbox.yMax * scale)
  }

  /** `handlePdf(page, bbox, scale)`: `pageText` is the page's text extraction
      for a clip rectangle (PyMuPDF's `get_text("text", clip=...)`). */
  function HandlePdf(pageText: Box -> string, bbox: Box, scale: real): string {
    CollapseWhitespace(pageText(ScaledRect(bbox, scale)))
  }

  /** Collapsing twice is collapsing once. */
  lemma CollapseIdempotent(text: string)
    ensures CollapseWhitespace(CollapseWhitespace(text)) == CollapseWhitespace(text)
  {
    var r := CollapseWhitespace(text);
    assert Words(r) == Words(text);
  }

  /** The region text keeps its words, in order, and has no whitespace at its
      ends and no run of two or more whitespace characters. */
  lemma HandlePdfShape(pageText: Box -> string, bbox: Box, scale: real)
    ensures var r := HandlePdf(pageText, bbox, scale);
      Trimmed(r) && SingleSpaced(r) && Words(r) == Words(pageText(ScaledRect(bbox, scale)))
  {
  }

  /** A scale of 1.0 (the default) clips to the detection box itself. */
  lemma UnitScale(bbox: Box)
    ensures ScaledRect(bbox, 1.0) == bbox
  {
  }
}
