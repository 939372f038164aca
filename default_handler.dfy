/** The fallback handler for element types without a handler of their own. */
module DefaultHandler {
  import opened PptxShapes
  import opened NmsProcessor

  const UNHANDLED: string := "<UNHANDLED_ELEMENT>"

  /** `handle(*args, **kwargs)`. */
  function Handle<A>(args: A): string {
    UNHANDLED
  }

  /** `handlePptx(shape)`. */
  function HandlePptx(shape: Shape): string {
    UNHANDLED
  }

  /** `handlePdf(page, bbox, scale)`; the page is any value. */
  function HandlePdf<P>(page: P, bbox: Box, scale: real): string {
    UNHANDLED
  }

  /** All three entry points give the same marker for any arguments, so a
      caller that falls back from one to another sees no difference. */
  lemma EntryPointsAgree<A, P>(args: A, shape: Shape, page: P, bbox: Box, scale: real)
    ensures HandlePptx(shape) == Handle(args) == HandlePdf(page, bbox, scale) == "<UNHANDLED_ELEMENT>"
  {
  }
}
