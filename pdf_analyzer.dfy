/** Layout analysis of a PDF: for each processed page, the detector's boxes
    minus the `abandon` class, with duplicates suppressed. Rendering the page
    and running the detector are outside the model: their output per page is
    an input. */
module PdfAnalyzer {
  import opened Wrappers
  import opened NmsProcessor

  /** The default IoU threshold of the analyzer. */
  const DefaultIouThreshold: real := 0.7

  /** One box of the detector: its class name (`names[cls]`), box and
      confidence. */
  datatype RawBox = RawBox(className: string, bbox: Box, conf: real)

  /** `{'page_number', 'detections'}`. */
  datatype PageResult = PageResult(pageNumber: int, detections: seq<Detection>)

  /** The number of pages processed: all of them, or `min(len(doc), maxPages)`
      when `maxPages` is truthy (a negative value processes none). */
  function PagesToProcess(pageCount: nat, maxPages: Option<int>): (n: nat)
    ensures n <= pageCount
    ensures (maxPages.None? || maxPages.value == 0) ==> n == pageCount
    ensures maxPages.Some? && maxPages.value != 0 ==>
      n == if maxPages.value < 0 then 0 else if maxPages.value < pageCount then maxPages.value else pageCount
  {
    if maxPages.Some? && maxPages.value != 0 then
      var m := if pageCount < maxPages.value then pageCount else maxPages.value;
      if m < 0 then 0 else m
    else pageCount
  }

  /** The detection records of one page's boxes, `abandon` left out, in order. */
  function Kept(boxes: seq<RawBox>): (ds: seq<Detection>)
    ensures |ds| <= |boxes|
    ensures forall d :: d in ds ==> d.className != "abandon"
  {
    if boxes == [] then []
    else
      var rest := Kept(boxes[1..]);
      if boxes[0].className == "abandon" then rest
      else [Detection(boxes[0].className, boxes[0].bbox, boxes[0].conf)] + rest
  }

  /** A page's detections before suppression: none when the prediction has
      no `boxes`. */
  function PageDetections(pred: Option<seq<RawBox>>): seq<Detection> {
    if pred.Some? then Kept(pred.value) else []
  }

  /** The results of the first `n` pages, or `None` when suppression raises
      on one of them. */
  function Results(preds: seq<Option<seq<RawBox>>>, n: nat, thr: real): Option<seq<PageResult>>
    requires n <= |preds|
  {
    if n == 0 then Some([])
    else match Results(preds, n - 1, thr)
      case None => None
      case Some(prev) =>
        match Suppressed(PageDetections(preds[n - 1]), thr)
        case None => None
        case Some(ds) => Some(prev + [PageResult(n, ds)])
  }

  /** The box loop of one page: the detection records of the boxes that are
      not `abandon`, in order. */
  method CollectDetections(pred: Option<seq<RawBox>>) returns (detections: seq<Detection>)
    ensures detections == PageDetections(pred)
  {
    detections := [];
    if pred.Some? {
      var boxes := pred.value;
      var i := |boxes|;
      // Built back to front, so that each step is one unfolding of `Kept`.
      while i > 0
        invariant 0 <= i <= |boxes|
        invariant detections == Kept(boxes[i..])
      {
        i := i - 1;
        assert boxes[i..][1..] == boxes[i + 1..];
        var b := boxes[i];
        if b.className != "abandon" {
          detections := [Detection(b.className, b.bbox, b.conf)] + detections;
        }
      }
      assert boxes[0..] == boxes;
    }
  }

  /** One page of the loop: its detections collected, then suppressed. */
  method AnalyzePage(pred: Option<seq<RawBox>>, iouThreshold: real) returns (kept: Option<seq<Detection>>)
    ensures kept == Suppressed(PageDetections(pred), iouThreshold)
  {
    var detections := CollectDetections(pred);
    var list := new DetectionList(detections);
    kept := RemoveDuplicates(list, iouThreshold);
  }

  /** `analyze(filePath, maxPages)`: `preds[i]` is the detector's output for
      page `i` (`None` when it has no `boxes`). `None` is an error raised by
      suppression. */
  method Analyze(preds: seq<Option<seq<RawBox>>>, maxPages: Option<int>, iouThreshold: real)
    returns (results: Option<seq<PageResult>>)
    ensures results == Results(preds, PagesToProcess(|preds|, maxPages), iouThreshold)
  {
    var totalPages := PagesToProcess(|preds|, maxPages);
    var acc: seq<PageResult> := [];
    var pageNum := 0;
    while pageNum < totalPages
      invariant 0 <= pageNum <= totalPages
      invariant Results(preds, pageNum, iouThreshold) == Some(acc)
    {
      var kept := AnalyzePage(preds[pageNum], iouThreshold);
      if kept.None? {
        ResultsFail(preds, totalPages, iouThreshold);
        return None;
      }
      acc := acc + [PageResult(pageNum + 1, kept.value)];
      pageNum := pageNum + 1;
    }
    results := Some(acc);
  }

  /** The result has one entry per processed page, numbered 1..N in order,
      and each entry's detections are the suppressed, non-abandoned boxes of
      its page. */
  lemma {:induction false} ResultsShape(preds: seq<Option<seq<RawBox>>>, n: nat, thr: real)
    requires n <= |preds| && Results(preds, n, thr).Some?
    ensures var rs := Results(preds, n, thr).value;
      |rs| == n
      && forall i :: 0 <= i < n ==>
           rs[i].pageNumber == i + 1
           && Suppressed(PageDetections(preds[i]), thr) == Some(rs[i].detections)
  {
    if n > 0 {
      ResultsShape(preds, n - 1, thr);
      var prev := Results(preds, n - 1, thr).value;
      var ds := Suppressed(PageDetections(preds[n - 1]), thr).value;
      var rs := prev + [PageResult(n, ds)];
      assert Results(preds, n, thr).value == rs;
      forall i | 0 <= i < n
        ensures rs[i].pageNumber == i + 1 && Suppressed(PageDetections(preds[i]), thr) == Some(rs[i].detections)
      {
        if i < n - 1 {
          assert rs[i] == prev[i];
        }
      }
    }
  }

  /** Suppression raises on one of the processed pages exactly when no
      result is returned. */
  lemma ResultsFail(preds: seq<Option<seq<RawBox>>>, n: nat, thr: real)
    requires n <= |preds|
    ensures Results(preds, n, thr).None? <==>
      exists i :: 0 <= i < n && Suppressed(PageDetections(preds[i]), thr).None?
  {
    if Results(preds, n, thr).Some? {
      ResultsShape(preds, n, thr);
    } else {
      FailingPage(preds, n, thr);
    }
  }

  /** When no result is returned, suppression raised on some processed page. */
  lemma {:induction false} FailingPage(preds: seq<Option<seq<RawBox>>>, n: nat, thr: real)
    requires n <= |preds| && Results(preds, n, thr).None?
    ensures exists i :: 0 <= i < n && Suppressed(PageDetections(preds[i]), thr).None?
  {
    if Results(preds, n - 1, thr).None? {
      FailingPage(preds, n - 1, thr);
    } else {
      assert Suppressed(PageDetections(preds[n - 1]), thr).None?;
    }
  }

  /** No `abandon` detection reaches the output, and every output detection
      comes from a box of its page. */
  lemma NoAbandonInOutput(preds: seq<Option<seq<RawBox>>>, n: nat, thr: real, i: nat, d: Detection)
    requires n <= |preds| && Results(preds, n, thr).Some?
    requires i < n
    ensures |Results(preds, n, thr).value| == n
    ensures d in Results(preds, n, thr).value[i].detections ==>
      d.className != "abandon" && d in PageDetections(preds[i])
  {
    ResultsShape(preds, n, thr);
    var ds := PageDetections(preds[i]);
    if Results(preds, n, thr).value[i].detections != [] {
      KeptIsSortedSubsequence(ds, thr);
      var k := Suppressed(ds, thr).value;
      if d in k {
        assert d in multiset(k);
      }
    }
  }

  /** Each kept detection carries exactly the class, box and confidence of
      one non-abandoned box, in box order. */
  lemma {:induction false} KeptFromBoxes(boxes: seq<RawBox>)
    ensures forall d :: d in Kept(boxes) <==>
      exists b :: b in boxes && b.className != "abandon" && d == Detection(b.className, b.bbox, b.conf)
  {
    if boxes != [] {
      KeptFromBoxes(boxes[1..]);
      assert boxes == [boxes[0]] + boxes[1..];
    }
  }
}
