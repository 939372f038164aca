/** Duplicate suppression over raw layout detections: intersection-over-union of
    axis-aligned boxes and greedy, class-aware non-maximum suppression.
    Coordinates are `real`; a ZeroDivisionError of the source is `None`. */
module NmsProcessor {
  import opened Wrappers
  import Sorting

  /** `(xMin, yMin, xMax, yMax)`; nothing forces `xMin <= xMax`. */
  datatype Box = Box(xMin: real, yMin: real, xMax: real, yMax: real)

  /** One detector result: `{'class_name', 'bbox', 'conf'}`. */
  datatype Detection = Detection(className: string, bbox: Box, conf: real)

  predicate WellFormed(b: Box) {
    b.xMin <= b.xMax && b.yMin <= b.yMax
  }

  function Max(a: real, b: real): real { if a >= b then a else b }

  function Min(a: real, b: real): real { if a <= b then a else b }

  /** Width times height, unclamped: negative for a box inverted on one axis. */
  function Area(b: Box): real {
    (b.xMax - b.xMin) * (b.yMax - b.yMin)
  }

  /** The overlap rectangle of two boxes (inverted when they are apart). */
  function Intersection(b1: Box, b2: Box): Box {
    Box(Max(b1.xMin, b2.xMin), Max(b1.yMin, b2.yMin), Min(b1.xMax, b2.xMax), Min(b1.yMax, b2.yMax))
  }

  /** The early-exit test of `computeIou`: strict, so boxes that only touch
      along an edge are not apart. */
  predicate Apart(b1: Box, b2: Box) {
    var i := Intersection(b1, b2);
    i.xMax < i.xMin || i.yMax < i.yMin
  }

  function UnionArea(b1: Box, b2: Box): real {
    Area(b1) + Area(b2) - Area(Intersection(b1, b2))
  }

  lemma MulMono(a: real, b: real, c: real, d: real)
    requires 0.0 <= a <= b && 0.0 <= c <= d
    ensures 0.0 <= a * c <= b * d
  {
    assert a * c <= b * c;
    assert b * c <= b * d;
  }

  /** For well-formed overlapping boxes the overlap area lies between 0 and
      each box's area. */
  lemma {:induction false} IntersectionWithin(b1: Box, b2: Box)
    requires WellFormed(b1) && WellFormed(b2) && !Apart(b1, b2)
    ensures 0.0 <= Area(Intersection(b1, b2)) <= Area(b1)
    ensures Area(Intersection(b1, b2)) <= Area(b2)
  {
    var i := Intersection(b1, b2);
    MulMono(i.xMax - i.xMin, b1.xMax - b1.xMin, i.yMax - i.yMin, b1.yMax - b1.yMin);
    MulMono(i.xMax - i.xMin, b2.xMax - b2.xMin, i.yMax - i.yMin, b2.yMax - b2.yMin);
  }

  lemma DivUnit(n: real, d: real)
    requires 0.0 <= n <= d && d > 0.0
    ensures 0.0 <= n / d <= 1.0
  {
    assert n / d * d == n;
  }

  /** `computeIou`: 0 for boxes apart, otherwise overlap area over union
      area; `None` is the ZeroDivisionError raised when that union is zero. */
  function ComputeIou(b1: Box, b2: Box): Option<real> {
    if Apart(b1, b2) then Some(0.0)
    else
      var u := UnionArea(b1, b2);
      if u == 0.0 then None
      else Some(Area(Intersection(b1, b2)) / u)
  }

  /** For well-formed boxes the IoU raises exactly when the boxes are not
      apart and both have zero area; otherwise it lies in [0, 1]. */
  lemma IouWellFormed(b1: Box, b2: Box)
    requires WellFormed(b1) && WellFormed(b2)
    ensures ComputeIou(b1, b2) == None <==> !Apart(b1, b2) && Area(b1) == 0.0 && Area(b2) == 0.0
    ensures ComputeIou(b1, b2).Some? ==> 0.0 <= ComputeIou(b1, b2).value <= 1.0
  {
    if !Apart(b1, b2) {
      IntersectionWithin(b1, b2);
      var u := UnionArea(b1, b2);
      if u != 0.0 {
        DivUnit(Area(Intersection(b1, b2)), u);
      }
    }
  }

  /** IoU does not depend on the order of its arguments, error included. */
  lemma IouSymmetric(b1: Box, b2: Box)
    ensures ComputeIou(b1, b2) == ComputeIou(b2, b1)
  {
    assert Intersection(b1, b2) == Intersection(b2, b1);
  }

  /** A box inverted on either axis is apart from every box, so its IoU is 0
      even though its area is negative. */
  lemma InvertedBoxIsApart(b1: Box, b2: Box)
    requires b2.xMax < b2.xMin || b2.yMax < b2.yMin
    ensures Apart(b1, b2) && Apart(b2, b1)
    ensures ComputeIou(b1, b2) == Some(0.0) && ComputeIou(b2, b1) == Some(0.0)
  {
  }

  /** Boxes that share only an edge are not apart: the division is reached
      and gives 0 whenever one of them has a positive area. */
  lemma TouchingBoxesReachDivision(b1: Box, b2: Box)
    requires WellFormed(b1) && WellFormed(b2) && Area(b1) > 0.0
    requires var i := Intersection(b1, b2);
      (i.xMin == i.xMax && i.yMin <= i.yMax) || (i.yMin == i.yMax && i.xMin <= i.xMax)
    ensures !Apart(b1, b2) && ComputeIou(b1, b2) == Some(0.0)
  {
    var i := Intersection(b1, b2);
    assert Area(i) == 0.0;
    MulMono(0.0, b2.xMax - b2.xMin, 0.0, b2.yMax - b2.yMin);
    assert Area(b2) >= 0.0;
    assert UnionArea(b1, b2) > 0.0;
  }

  /** Two coincident zero-area boxes raise (division by zero). */
  lemma ZeroUnionRaises()
    ensures ComputeIou(Box(3.0, 4.0, 3.0, 4.0), Box(3.0, 4.0, 3.0, 4.0)) == None
  {
    var b := Box(3.0, 4.0, 3.0, 4.0);
    assert Intersection(b, b) == b;
  }

  // ----- the sort of `removeDuplicates` -----

  /** `sort(key=conf, reverse=True)`: a higher confidence stands first. */
  predicate ConfFirst(a: Detection, b: Detection) {
    a.conf >= b.conf
  }

  lemma ConfFirstIsPreorder()
    ensures Sorting.TotalPreorder(ConfFirst)
  {
  }

  function SortByConf(s: seq<Detection>): seq<Detection> {
    Sorting.SortBy(s, ConfFirst)
  }

  // ----- the greedy pass -----

  /** The condition of the list comprehension: `d` stays when its class
      differs from `best`'s or their IoU is at most the threshold; `None` when
      computing that IoU raises. */
  function Survives(d: Detection, best: Detection, thr: real): Option<bool> {
    if d.className != best.className then Some(true)
    else match ComputeIou(d.bbox, best.bbox)
      case None => None
      case Some(v) => Some(v <= thr)
  }

  function Prefixed(p: seq<Detection>, r: Option<seq<Detection>>): Option<seq<Detection>> {
    match r
    case None => None
    case Some(t) => Some(p + t)
  }

  /** The rebuilt `detections` list after `best` was taken. */
  function RemoveOverlapping(rest: seq<Detection>, best: Detection, thr: real): (r: Option<seq<Detection>>)
    ensures r.Some? ==> Sorting.IsSubsequence(r.value, rest) && |r.value| <= |rest|
  {
    if rest == [] then Some([])
    else match Survives(rest[0], best, thr)
      case None => None
      case Some(stays) =>
        var tail := RemoveOverlapping(rest[1..], best, thr);
        if tail.Some? then
          Sorting.SubsequenceMembers(tail.value, rest[1..]);
          if stays then Some([rest[0]] + tail.value) else Some(tail.value)
        else None
  }

  /** The `while detections` loop over an already sorted list: take the head,
      drop what it suppresses, repeat. */
  function Greedy(s: seq<Detection>, thr: real): (r: Option<seq<Detection>>)
    decreases |s|
  {
    if s == [] then Some([])
    else match RemoveOverlapping(s[1..], s[0], thr)
      case None => None
      case Some(rest) => Prefixed([s[0]], Greedy(rest, thr))
  }

  /** What `removeDuplicates(detections, iouThreshold)` returns. */
  function Suppressed(s: seq<Detection>, thr: real): Option<seq<Detection>> {
    Greedy(SortByConf(s), thr)
  }

  /** No kept pair would suppress one another: every later detection survives
      every earlier one. */
  predicate Compatible(k: seq<Detection>, thr: real) {
    forall i, j :: 0 <= i < j < |k| ==> Survives(k[j], k[i], thr) == Some(true)
  }

  lemma {:induction false} RemoveOverlappingFacts(rest: seq<Detection>, best: Detection, thr: real)
    requires RemoveOverlapping(rest, best, thr).Some?
    ensures var t := RemoveOverlapping(rest, best, thr).value;
      (forall y :: y in t ==> Survives(y, best, thr) == Some(true))
      && (forall d :: d in rest ==> d in t || Survives(d, best, thr) == Some(false))
  {
    if rest != [] {
      RemoveOverlappingFacts(rest[1..], best, thr);
    }
  }

  lemma {:induction false} RemoveNothing(rest: seq<Detection>, best: Detection, thr: real)
    requires forall y :: y in rest ==> Survives(y, best, thr) == Some(true)
    ensures RemoveOverlapping(rest, best, thr) == Some(rest)
  {
    if rest != [] {
      RemoveNothing(rest[1..], best, thr);
      assert [rest[0]] + rest[1..] == rest;
    }
  }

  /** The kept list is the input with some detections left out, in order, and
      starts with the input's head. */
  lemma {:induction false} GreedySubsequence(s: seq<Detection>, thr: real)
    requires Greedy(s, thr).Some?
    ensures Sorting.IsSubsequence(Greedy(s, thr).value, s)
    ensures s != [] ==> Greedy(s, thr).value != [] && Greedy(s, thr).value[0] == s[0]
    decreases |s|
  {
    if s != [] {
      var rest := RemoveOverlapping(s[1..], s[0], thr).value;
      var k := Greedy(rest, thr).value;
      GreedySubsequence(rest, thr);
      Sorting.SubsequenceTransitive(k, rest, s[1..]);
      assert ([s[0]] + k)[1..] == k;
    }
  }

  /** No two kept detections would suppress one another. */
  lemma {:induction false} GreedyCompatible(s: seq<Detection>, thr: real)
    requires Greedy(s, thr).Some?
    ensures Compatible(Greedy(s, thr).value, thr)
    decreases |s|
  {
    if s != [] {
      var rest := RemoveOverlapping(s[1..], s[0], thr).value;
      var k' := Greedy(rest, thr).value;
      var k := [s[0]] + k';
      GreedyCompatible(rest, thr);
      GreedySubsequence(rest, thr);
      Sorting.SubsequenceMembers(k', rest);
      RemoveOverlappingFacts(s[1..], s[0], thr);
      CompatibleCons(s[0], k', thr);
    }
  }

  lemma CompatibleCons(x: Detection, k: seq<Detection>, thr: real)
    requires Compatible(k, thr)
    requires forall y :: y in k ==> Survives(y, x, thr) == Some(true)
    ensures Compatible([x] + k, thr)
  {
    var r := [x] + k;
    forall i, j | 0 <= i < j < |r| ensures Survives(r[j], r[i], thr) == Some(true) {
      assert r[j] == k[j - 1];
      if i > 0 {
        assert r[i] == k[i - 1];
      }
    }
  }

  /** A detection is missing from the output only because a kept detection of
      the same class overlaps it above the threshold. */
  lemma {:induction false} GreedyRemovedWitness(s: seq<Detection>, thr: real, d: Detection)
    requires Greedy(s, thr).Some? && d in s && d !in Greedy(s, thr).value
    ensures exists k :: k in Greedy(s, thr).value && Survives(d, k, thr) == Some(false)
    decreases |s|
  {
    var rest := RemoveOverlapping(s[1..], s[0], thr).value;
    var k' := Greedy(rest, thr).value;
    assert Greedy(s, thr).value == [s[0]] + k';
    assert d != s[0] && d in s[1..];
    RemoveOverlappingFacts(s[1..], s[0], thr);
    if d in rest {
      GreedyRemovedWitness(rest, thr, d);
      var k :| k in k' && Survives(d, k, thr) == Some(false);
      assert k in Greedy(s, thr).value;
    } else {
      assert s[0] in Greedy(s, thr).value;
    }
  }

  /** A list whose members would not suppress one another is kept whole. */
  lemma {:induction false} GreedyOfCompatible(k: seq<Detection>, thr: real)
    requires Compatible(k, thr)
    ensures Greedy(k, thr) == Some(k)
  {
    if k != [] {
      forall y | y in k[1..] ensures Survives(y, k[0], thr) == Some(true) {
        var j :| 0 <= j < |k[1..]| && k[1..][j] == y;
        assert k[j + 1] == y;
      }
      RemoveNothing(k[1..], k[0], thr);
      assert Compatible(k[1..], thr) by {
        forall i, j | 0 <= i < j < |k[1..]| ensures Survives(k[1..][j], k[1..][i], thr) == Some(true) {
          assert k[1..][i] == k[i + 1] && k[1..][j] == k[j + 1];
        }
      }
      GreedyOfCompatible(k[1..], thr);
      assert [k[0]] + k[1..] == k;
    }
  }

  // ----- properties of removeDuplicates -----

  /** The result is the confidence-sorted input with some detections left out;
      it is itself sorted by confidence, and its first element is the first of
      the sorted input, a detection of highest confidence. */
  lemma KeptIsSortedSubsequence(s: seq<Detection>, thr: real)
    requires Suppressed(s, thr).Some?
    ensures var k := Suppressed(s, thr).value;
      Sorting.IsSubsequence(k, SortByConf(s))
      && multiset(k) <= multiset(s)
      && Sorting.SortedBy(k, ConfFirst)
      && (s != [] ==> k != [] && k[0] == SortByConf(s)[0] && forall d :: d in s ==> d.conf <= k[0].conf)
  {
    var sorted := SortByConf(s);
    var k := Suppressed(s, thr).value;
    GreedySubsequence(sorted, thr);
    Sorting.SubsequenceMembers(k, sorted);
    ConfFirstIsPreorder();
    Sorting.SortBySorted(s, ConfFirst);
    Sorting.SubsequenceSorted(k, sorted, ConfFirst);
    if s != [] {
      forall d | d in s ensures d.conf <= k[0].conf {
        assert d in multiset(sorted);
        var j :| 0 <= j < |sorted| && sorted[j] == d;
        if j > 0 {
          assert ConfFirst(sorted[0], sorted[j]);
        }
      }
    }
  }

  /** No two kept detections of the same class have IoU above the threshold. */
  lemma NoSameClassOverlap(s: seq<Detection>, thr: real)
    requires Suppressed(s, thr).Some?
    ensures var k := Suppressed(s, thr).value;
      forall i, j :: 0 <= i < j < |k| && k[i].className == k[j].className ==>
        ComputeIou(k[j].bbox, k[i].bbox).Some? && ComputeIou(k[j].bbox, k[i].bbox).value <= thr
  {
    GreedyCompatible(SortByConf(s), thr);
  }

  /** A detection is removed only by a kept detection of its own class whose
      IoU with it is above the threshold; a detection of another class never
      removes it, however much they overlap. */
  lemma RemovedOnlyBySameClass(s: seq<Detection>, thr: real, d: Detection)
    requires Suppressed(s, thr).Some? && d in s && d !in Suppressed(s, thr).value
    ensures exists k :: (k in Suppressed(s, thr).value && k.className == d.className
      && ComputeIou(d.bbox, k.bbox).Some? && ComputeIou(d.bbox, k.bbox).value > thr)
  {
    var sorted := SortByConf(s);
    assert d in multiset(s);
    GreedyRemovedWitness(sorted, thr, d);
  }

  /** Suppression is idempotent: suppressing its own output changes nothing. */
  lemma SuppressIdempotent(s: seq<Detection>, thr: real)
    requires Suppressed(s, thr).Some?
    ensures Suppressed(Suppressed(s, thr).value, thr) == Suppressed(s, thr)
  {
    var k := Suppressed(s, thr).value;
    KeptIsSortedSubsequence(s, thr);
    Sorting.SortBySortedIdentity(k, ConfFirst);
    GreedyCompatible(SortByConf(s), thr);
    GreedyOfCompatible(k, thr);
  }

  /** Detections none of which would suppress another are all kept, in
      confidence order. */
  lemma CompatibleKeptWhole(s: seq<Detection>, thr: real)
    requires Compatible(SortByConf(s), thr)
    ensures Suppressed(s, thr) == Some(SortByConf(s))
  {
    GreedyOfCompatible(SortByConf(s), thr);
  }

  lemma SuppressEmpty(thr: real)
    ensures Suppressed([], thr) == Some([])
  {
  }

  /** The IoU of a 10x10 box and the 8x8 box centred inside it is 0.64. */
  lemma IouExample()
    ensures ComputeIou(Box(1.0, 1.0, 9.0, 9.0), Box(0.0, 0.0, 10.0, 10.0)) == Some(0.64)
  {
    var a := Box(0.0, 0.0, 10.0, 10.0);
    var b := Box(1.0, 1.0, 9.0, 9.0);
    assert Intersection(b, a) == b;
    assert UnionArea(b, a) == 100.0 by {
      assert Area(b) == 64.0;
      assert Area(a) == 100.0;
    }
  }

  /** Two same-class detections with IoU 0.64: both kept at threshold 0.7,
      only the more confident one at 0.5. */
  lemma ThresholdExample()
    ensures var a := Detection("text", Box(0.0, 0.0, 10.0, 10.0), 0.9);
      var b := Detection("text", Box(1.0, 1.0, 9.0, 9.0), 0.8);
      Suppressed([b, a], 0.7) == Some([a, b]) && Suppressed([b, a], 0.5) == Some([a])
  {
    var a := Detection("text", Box(0.0, 0.0, 10.0, 10.0), 0.9);
    var b := Detection("text", Box(1.0, 1.0, 9.0, 9.0), 0.8);
    SortTwo(b, a);
    IouExample();
    assert Survives(b, a, 0.7) == Some(true);
    GreedyPair(a, b, 0.7, true);
    assert Survives(b, a, 0.5) == Some(false);
    GreedyPair(a, b, 0.5, false);
  }

  /** A detection of another class is kept even when its box is identical. */
  lemma CrossClassExample()
    ensures var a := Detection("text", Box(0.0, 0.0, 10.0, 10.0), 0.9);
      var c := Detection("table", Box(0.0, 0.0, 10.0, 10.0), 0.95);
      Suppressed([a, c], 0.5) == Some([c, a])
  {
    var a := Detection("text", Box(0.0, 0.0, 10.0, 10.0), 0.9);
    var c := Detection("table", Box(0.0, 0.0, 10.0, 10.0), 0.95);
    assert a.className[1] != c.className[1];
    SortTwo(a, c);
    GreedyPair(c, a, 0.5, true);
  }

  /** Two detections, the later more confident: the sort swaps them. */
  lemma SortTwo(a: Detection, c: Detection)
    requires c.conf > a.conf
    ensures SortByConf([a, c]) == [c, a]
  {
    assert [a, c][1..] == [c] && [c][1..] == [];
    assert Sorting.SortBy([c], ConfFirst) == [c];
    assert !ConfFirst(a, c);
    assert Sorting.Insert(a, [c], ConfFirst) == [c] + Sorting.Insert(a, [], ConfFirst);
  }

  /** Two detections, the more confident first: the greedy pass keeps the
      second exactly when it survives the first. */
  lemma GreedyPair(c: Detection, a: Detection, thr: real, stays: bool)
    requires Survives(a, c, thr) == Some(stays)
    ensures Greedy([c, a], thr) == Some(if stays then [c, a] else [c])
  {
    assert [c, a][1..] == [a] && [a][1..] == [];
    assert RemoveOverlapping([], c, thr) == Some([]);
    assert RemoveOverlapping([a], c, thr) == Some(if stays then [a] + [] else []);
    assert RemoveOverlapping([], a, thr) == Some([]);
    assert Greedy([], thr) == Some([]);
    assert Greedy([a], thr) == Some([a] + []);
    assert [a] + [] == [a] && [c] + [] == [c] && [c] + [a] == [c, a];
  }

  /** One step of the filter: the head of `rest` survives (`stays`) or not. */
  lemma RemoveOverlappingStep(rest: seq<Detection>, best: Detection, thr: real, p: seq<Detection>, stays: bool)
    requires rest != [] && Survives(rest[0], best, thr) == Some(stays)
    ensures Prefixed(p, RemoveOverlapping(rest, best, thr))
         == Prefixed(p + (if stays then [rest[0]] else []), RemoveOverlapping(rest[1..], best, thr))
  {
    var t := RemoveOverlapping(rest[1..], best, thr);
    if t.Some? && stays {
      assert p + ([rest[0]] + t.value) == p + [rest[0]] + t.value;
    } else if t.Some? {
      assert p + [] == p;
    }
  }

  // ----- the imperative procedure -----

  lemma PrefixedAssoc(p: seq<Detection>, q: seq<Detection>, r: Option<seq<Detection>>)
    ensures Prefixed(p, Prefixed(q, r)) == Prefixed(p + q, r)
  {
    if r.Some? {
      assert p + (q + r.value) == p + q + r.value;
    }
  }

  lemma PrefixedEmpty(r: Option<seq<Detection>>)
    ensures Prefixed([], r) == r
  {
    if r.Some? {
      assert [] + r.value == r.value;
    }
  }

  /** The list comprehension of `removeDuplicates`: the detections of `rest`
      that `best` does not suppress, in order; `None` when an IoU raises. */
  method FilterSurvivors(rest: seq<Detection>, best: Detection, iouThreshold: real) returns (next: Option<seq<Detection>>)
    ensures next == RemoveOverlapping(rest, best, iouThreshold)
  {
    var acc: seq<Detection> := [];
    var i := 0;
    assert rest[0..] == rest;
    PrefixedEmpty(RemoveOverlapping(rest, best, iouThreshold));
    while i < |rest|
      invariant 0 <= i <= |rest|
      invariant RemoveOverlapping(rest, best, iouThreshold) == Prefixed(acc, RemoveOverlapping(rest[i..], best, iouThreshold))
    {
      assert rest[i..][1..] == rest[i + 1..];
      var d := rest[i];
      ghost var before, stays := acc, true;
      if d.className != best.className {
        acc := acc + [d];
      } else {
        var iou := ComputeIou(d.bbox, best.bbox);
        if iou.None? {
          assert RemoveOverlapping(rest[i..], best, iouThreshold) == None;
          return None;
        }
        if iou.value <= iouThreshold {
          acc := acc + [d];
        } else {
          stays := false;
        }
      }
      RemoveOverlappingStep(rest[i..], best, iouThreshold, before, stays);
      i := i + 1;
    }
    assert rest[|rest|..] == [] && acc + [] == acc;
    next := Some(acc);
  }

  /** What `removeDuplicates` leaves in the caller's list: every input
      detection except one of highest confidence, each as often as before,
      still ordered by confidence. */
  lemma CallerListLosesBest(s: seq<Detection>)
    requires s != []
    ensures var sorted := SortByConf(s);
      multiset(sorted[1..]) + multiset{sorted[0]} == multiset(s)
      && (forall d :: d in s ==> d.conf <= sorted[0].conf)
      && Sorting.SortedBy(sorted[1..], ConfFirst)
  {
    var sorted := SortByConf(s);
    assert sorted == [sorted[0]] + sorted[1..];
    ConfFirstIsPreorder();
    Sorting.SortBySorted(s, ConfFirst);
    forall d | d in s ensures d.conf <= sorted[0].conf {
      assert d in multiset(sorted);
      var j :| 0 <= j < |sorted| && sorted[j] == d;
      if j > 0 {
        assert ConfFirst(sorted[0], sorted[j]);
      }
    }
    forall i, j | 0 <= i < j < |sorted[1..]| ensures ConfFirst(sorted[1..][i], sorted[1..][j]) {
      assert sorted[1..][i] == sorted[i + 1] && sorted[1..][j] == sorted[j + 1];
    }
  }

  /** A Python list of detections shared with the caller: what
      `removeDuplicates` does to the list object stays visible after the call. */
  class DetectionList {
    var items: seq<Detection>

    constructor (items0: seq<Detection>)
      ensures items == items0
    {
      items := items0;
    }
  }

  /** `removeDuplicates`: sorts the caller's list in place by confidence
      (highest first, ties in input order) and pops its first element; later
      rounds work on fresh lists, so the caller is left with the sorted list
      minus its most confident detection, whether or not the call raises.
      `None` is a ZeroDivisionError raised by `computeIou`. */
  method RemoveDuplicates(detections: DetectionList, iouThreshold: real) returns (keep: Option<seq<Detection>>)
    modifies detections
    ensures keep == Suppressed(old(detections.items), iouThreshold)
    ensures detections.items == if old(detections.items) == [] then [] else SortByConf(old(detections.items))[1..]
  {
    if detections.items == [] {
      assert SortByConf([]) == [];
      return Some([]);
    }
    ghost var input := detections.items;
    detections.items := SortByConf(detections.items);
    var sorted := detections.items;
    var best := detections.items[0];
    detections.items := detections.items[1..];
    assert detections.items == SortByConf(input)[1..];
    var next := FilterSurvivors(sorted[1..], best, iouThreshold);
    if next.None? {
      return None;
    }
    var remaining := next.value;
    var kept: seq<Detection> := [best];
    while remaining != []
      invariant Greedy(sorted, iouThreshold) == Prefixed(kept, Greedy(remaining, iouThreshold))
      invariant detections.items == SortByConf(input)[1..]
      decreases |remaining|
    {
      best := remaining[0];
      next := FilterSurvivors(remaining[1..], best, iouThreshold);
      if next.None? {
        return None;
      }
      PrefixedAssoc(kept, [best], Greedy(next.value, iouThreshold));
      kept := kept + [best];
      remaining := next.value;
    }
    keep := Some(kept);
    assert kept + [] == kept;
  }
}
