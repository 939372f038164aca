/** Layout analysis of a slide deck: one classified element per shape, each
    slide's elements ordered by position. Opening the deck is outside the
    model: its slides and shapes are the input. */
module PptxAnalyzer {
  import opened Wrappers
  import opened Strings
  import Sorting
  import opened PptxShapes
  import opened ShapeClassifier

  /** One element record: `slide_number`, `raw_type`, `classified_type`,
      `position` (top, left), `size` (width, height) and `content`. */
  datatype Element = Element(
    slideNumber: int,
    rawType: int,
    classifiedType: string,
    position: (int, int),
    size: (int, int),
    content: string)

  /** `{'slide_number', 'elements'}`. */
  datatype SlideResult = SlideResult(slideNumber: int, elements: seq<Element>)

  /** The element content: the first 100 characters of the text of a text
      shape with a text frame, otherwise the type in upper case between angle
      brackets. */
  function Content(shape: Shape, kind: string): (c: string)
    ensures kind == "text" && shape.textFrame.Some? ==>
      c <= shape.Text() && |c| == (if |shape.Text()| < 100 then |shape.Text()| else 100)
    ensures !(kind == "text" && shape.textFrame.Some?) ==>
      |c| == |kind| + 2 && c[0] == '<' && c[|c| - 1] == '>' && c[1..|c| - 1] == Upper(kind)
  {
    if kind == "text" && shape.textFrame.Some? then Prefix(shape.Text(), 100)
    else "<" + Upper(kind) + ">"
  }

  /** The record built for one shape on slide `slideNumber`. */
  function ElementOf(slideNumber: int, shape: Shape): Element {
    var kind := ClassifyShape(shape);
    Element(slideNumber, shape.shapeType, kind, (shape.top, shape.left),
            (shape.width, shape.height), Content(shape, kind))
  }

  /** The sort key `(top, left)`, compared as a tuple. */
  predicate PositionFirst(a: Element, b: Element) {
    a.position.0 < b.position.0 || (a.position.0 == b.position.0 && a.position.1 <= b.position.1)
  }

  lemma PositionFirstIsPreorder()
    ensures Sorting.TotalPreorder(PositionFirst)
  {
  }

  /** The elements of a slide in shape order, before the sort. */
  function Unsorted(slideNumber: int, shapes: seq<Shape>): (es: seq<Element>)
    ensures |es| == |shapes|
    ensures forall i :: 0 <= i < |shapes| ==> es[i] == ElementOf(slideNumber, shapes[i])
  {
    seq(|shapes|, i requires 0 <= i < |shapes| => ElementOf(slideNumber, shapes[i]))
  }

  /** The result for slide `slideNumber`. */
  function SlideOf(slideNumber: int, shapes: seq<Shape>): SlideResult {
    SlideResult(slideNumber, Sorting.SortBy(Unsorted(slideNumber, shapes), PositionFirst))
  }

  /** `analyze(filePath)`: `slides[i]` is the shape list of slide `i`. */
  method Analyze(slides: seq<seq<Shape>>) returns (results: seq<SlideResult>)
    ensures |results| == |slides|
    ensures forall i :: 0 <= i < |slides| ==> results[i] == SlideOf(i + 1, slides[i])
  {
    results := [];
    var slideNum := 0;
    while slideNum < |slides|
      invariant 0 <= slideNum <= |slides|
      invariant |results| == slideNum
      invariant forall i :: 0 <= i < slideNum ==> results[i] == SlideOf(i + 1, slides[i])
    {
      var elements := SlideElements(slideNum + 1, slides[slideNum]);
      elements := Sorting.SortBy(elements, PositionFirst);
      results := results + [SlideResult(slideNum + 1, elements)];
      slideNum := slideNum + 1;
    }
  }

  /** The loop over one slide's shapes: one record per shape, in shape order. */
  method SlideElements(slideNumber: int, shapes: seq<Shape>) returns (elements: seq<Element>)
    ensures elements == Unsorted(slideNumber, shapes)
  {
    elements := [];
    var j := 0;
    while j < |shapes|
      invariant 0 <= j <= |shapes|
      invariant elements == Unsorted(slideNumber, shapes[..j])
    {
      var shape := shapes[j];
      var kind := ClassifyShape(shape);
      var element := Element(slideNumber, shape.shapeType, kind, (shape.top, shape.left),
                             (shape.width, shape.height), Content(shape, kind));
      UnsortedSnoc(slideNumber, shapes, j);
      elements := elements + [element];
      j := j + 1;
    }
    assert shapes[..j] == shapes;
  }

  lemma UnsortedSnoc(slideNumber: int, shapes: seq<Shape>, j: int)
    requires 0 <= j < |shapes|
    ensures Unsorted(slideNumber, shapes[..j + 1]) == Unsorted(slideNumber, shapes[..j]) + [ElementOf(slideNumber, shapes[j])]
  {
    var l := Unsorted(slideNumber, shapes[..j + 1]);
    var r := Unsorted(slideNumber, shapes[..j]) + [ElementOf(slideNumber, shapes[j])];
    assert |l| == |r|;
    forall k | 0 <= k < |l| ensures l[k] == r[k] {
      assert shapes[..j + 1][k] == shapes[k];
      if k < j { assert shapes[..j][k] == shapes[k]; }
    }
  }

  /** One element per shape: a slide's elements are exactly the records of
      its shapes, each as often as its shape occurs. */
  lemma OneElementPerShape(slideNumber: int, shapes: seq<Shape>)
    ensures multiset(SlideOf(slideNumber, shapes).elements) == multiset(Unsorted(slideNumber, shapes))
    ensures |SlideOf(slideNumber, shapes).elements| == |shapes|
  {
  }

  /** A slide's elements are ordered by (top, left), and shapes at the same
      position keep their order on the slide. */
  lemma SlideSorted(slideNumber: int, shapes: seq<Shape>, c: Element)
    ensures Sorting.SortedBy(SlideOf(slideNumber, shapes).elements, PositionFirst)
    ensures Sorting.TiedWith(SlideOf(slideNumber, shapes).elements, c, PositionFirst)
         == Sorting.TiedWith(Unsorted(slideNumber, shapes), c, PositionFirst)
  {
    PositionFirstIsPreorder();
    Sorting.SortBySorted(Unsorted(slideNumber, shapes), PositionFirst);
    Sorting.SortByStable(Unsorted(slideNumber, shapes), c, PositionFirst);
  }

  /** Every element carries its slide's number, the type code, position and
      size of a shape of that slide, the classification of that shape, and
      its content. */
  lemma ElementsDescribeShapes(slideNumber: int, shapes: seq<Shape>, e: Element)
    requires e in SlideOf(slideNumber, shapes).elements
    ensures exists shape :: shape in shapes && e == ElementOf(slideNumber, shape)
    ensures e.slideNumber == slideNumber && InTaxonomy(e.classifiedType)
  {
    var u := Unsorted(slideNumber, shapes);
    assert e in multiset(u);
    var i :| 0 <= i < |u| && u[i] == e;
    assert shapes[i] in shapes;
    ClassifyInTaxonomy(shapes[i]);
  }
}
