/** The slide-shape attributes the ingestion core reads from python-pptx,
    gathered into one record. Reading them is outside the model; the record
    holds what the reads return. */
module PptxShapes {
  import opened Wrappers

  /** `MSO_SHAPE_TYPE` codes the core compares against. */
  const CHART: int := 3
  const GROUP: int := 6
  const EMBEDDED_OLE_OBJECT: int := 7
  const PICTURE: int := 13
  const PLACEHOLDER: int := 14
  const TEXT_EFFECT: int := 15
  const TEXT_BOX: int := 17
  const TABLE: int := 19

  /** The shape's XML element (`_element`, or `element`):
      `mathNodes` is whether `xpath('.//m:oMath | .//m:oMathPara')` found a node,
      `oleNodes` whether `xpath('.//p:oleObj')` did (both false when the element
      has no `xpath` or the query raised), and `xml` the `xml` attribute when it
      is a string. */
  datatype XmlElement = XmlElement(mathNodes: bool, oleNodes: bool, xml: Option<string>)

  /** A text frame: for each paragraph, the XML of each run when it is a
      string, and the frame's whole text. */
  datatype TextFrame = TextFrame(runXml: seq<seq<Option<string>>>, text: string)

  /** A slide shape. `textFrame` is present exactly when `has_text_frame` is
      true; `hasImage` is whether reading `shape.image` does not raise
      AttributeError. Position and size are in EMU. */
  datatype Shape = Shape(
    shapeType: int,
    element: Option<XmlElement>,
    textFrame: Option<TextFrame>,
    hasImage: bool,
    top: int,
    left: int,
    width: int,
    height: int)
  {
    /** `shape.text`: the frame's text ("" for a shape without a frame, which
        the core never reads). */
    function Text(): string {
      if textFrame.Some? then textFrame.value.text else ""
    }
  }
}
