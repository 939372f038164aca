/** The three passes the content extractor runs over a document, for PDF
    pages and PPTX slides alike. Pass one records every element of every
    entry with no content yet and submits a task for each element handled
    asynchronously; pass two fills in the others synchronously; pass three
    waits for each recorded future and writes its value into the element it
    was recorded for, found by the first entry with the recorded number and
    the element's index in it. A future is its outcome: the value its
    `result()` returns, or `None` when that call raises. `E` is what an
    element is, `C` what its content is. */
module ExtractorPasses {
  import opened Wrappers

  datatype Slot<E, C> = Slot(elem: E, content: Option<C>)

  /** An entry of `elementsMetadata`: a page or slide number and its
      elements. */
  datatype Entry<E, C> = Entry(num: int, slots: seq<Slot<E, C>>)

  datatype Future<C> = Future(result: Option<C>)

  /** An entry of `imageFutures`: the number and element index recorded at
      submission, and the future. */
  datatype Pending<C> = Pending(num: int, index: nat, future: Future<C>)

  // ----- pass one -----

  function FreshSlots<E, C>(elems: seq<E>): (slots: seq<Slot<E, C>>)
    ensures |slots| == |elems|
    ensures forall i :: 0 <= i < |elems| ==> slots[i] == Slot(elems[i], None)
  {
    seq(|elems|, i requires 0 <= i < |elems| => Slot(elems[i], None))
  }

  /** The metadata pass one records. */
  function Fresh<E, C>(input: seq<(int, seq<E>)>): (meta: seq<Entry<E, C>>)
    ensures |meta| == |input|
    ensures forall k :: 0 <= k < |input| ==> meta[k] == Entry(input[k].0, FreshSlots(input[k].1))
  {
    seq(|input|, k requires 0 <= k < |input| => Entry(input[k].0, FreshSlots(input[k].1)))
  }

  /** The futures pass one records for one entry, in element order: one for
      each asynchronous element whose submission did not raise. */
  function EntryFutures<E, C>(num: int, elems: seq<E>, isAsync: E -> bool, submit: (int, E) -> Option<Future<C>>)
    : seq<Pending<C>>
  {
    if elems == [] then []
    else
      var i := |elems| - 1;
      EntryFutures(num, elems[..i], isAsync, submit)
        + if isAsync(elems[i]) && submit(num, elems[i]).Some? then [Pending(num, i, submit(num, elems[i]).value)] else []
  }

  /** The futures pass one records, entry by entry. */
  function Submitted<E, C>(input: seq<(int, seq<E>)>, isAsync: E -> bool, submit: (int, E) -> Option<Future<C>>)
    : seq<Pending<C>>
  {
    if input == [] then []
    else
      var k := |input| - 1;
      Submitted(input[..k], isAsync, submit) + EntryFutures(input[k].0, input[k].1, isAsync, submit)
  }

  method SubmitEntry<E, C>(num: int, elems: seq<E>, isAsync: E -> bool, submit: (int, E) -> Option<Future<C>>)
    returns (slots: seq<Slot<E, C>>, futures: seq<Pending<C>>)
    ensures slots == FreshSlots(elems)
    ensures futures == EntryFutures(num, elems, isAsync, submit)
  {
    slots := [];
    futures := [];
    var i := 0;
    while i < |elems|
      invariant 0 <= i <= |elems|
      invariant slots == FreshSlots(elems[..i])
      invariant futures == EntryFutures(num, elems[..i], isAsync, submit)
    {
      assert elems[..i + 1][..i] == elems[..i];
      slots := slots + [Slot(elems[i], None)];
      if isAsync(elems[i]) {
        var f := submit(num, elems[i]);
        if f.Some? {
          futures := futures + [Pending(num, |slots| - 1, f.value)];
        }
      }
      i := i + 1;
    }
    assert elems[..i] == elems;
  }

  /** Pass one. */
  method SubmitAll<E, C>(input: seq<(int, seq<E>)>, isAsync: E -> bool, submit: (int, E) -> Option<Future<C>>)
    returns (meta: seq<Entry<E, C>>, futures: seq<Pending<C>>)
    ensures meta == Fresh(input)
    ensures futures == Submitted(input, isAsync, submit)
  {
    meta := [];
    futures := [];
    var k := 0;
    while k < |input|
      invariant 0 <= k <= |input|
      invariant meta == Fresh(input[..k])
      invariant futures == Submitted(input[..k], isAsync, submit)
    {
      assert input[..k + 1][..k] == input[..k];
      var slots, fs := SubmitEntry(input[k].0, input[k].1, isAsync, submit);
      meta := meta + [Entry(input[k].0, slots)];
      futures := futures + fs;
      k := k + 1;
    }
    assert input[..k] == input;
  }

  // ----- pass two -----

  /** An element after pass two: asynchronous ones are left alone, the
      others get their handler's content. */
  function Synced<E, C>(num: int, slot: Slot<E, C>, isAsync: E -> bool, handle: (int, E) -> C): Slot<E, C> {
    if isAsync(slot.elem) then slot else Slot(slot.elem, Some(handle(num, slot.elem)))
  }

  function SyncedEntry<E, C>(entry: Entry<E, C>, isAsync: E -> bool, handle: (int, E) -> C): (e: Entry<E, C>)
    ensures e.num == entry.num && |e.slots| == |entry.slots|
    ensures forall i :: 0 <= i < |entry.slots| ==> e.slots[i] == Synced(entry.num, entry.slots[i], isAsync, handle)
  {
    Entry(entry.num, seq(|entry.slots|, i requires 0 <= i < |entry.slots| => Synced(entry.num, entry.slots[i], isAsync, handle)))
  }

  function Handled<E, C>(meta: seq<Entry<E, C>>, isAsync: E -> bool, handle: (int, E) -> C): (m: seq<Entry<E, C>>)
    ensures |m| == |meta|
    ensures forall k :: 0 <= k < |meta| ==> m[k] == SyncedEntry(meta[k], isAsync, handle)
  {
    seq(|meta|, k requires 0 <= k < |meta| => SyncedEntry(meta[k], isAsync, handle))
  }

  /** Pass two on one entry: each synchronous element's content is written
      in place. */
  method HandleEntry<E, C>(entry: Entry<E, C>, isAsync: E -> bool, handle: (int, E) -> C) returns (e: Entry<E, C>)
    ensures e == SyncedEntry(entry, isAsync, handle)
  {
    var slots := entry.slots;
    var i := 0;
    while i < |slots|
      invariant 0 <= i <= |slots| == |entry.slots|
      invariant forall j :: 0 <= j < i ==> slots[j] == Synced(entry.num, entry.slots[j], isAsync, handle)
      invariant forall j :: i <= j < |slots| ==> slots[j] == entry.slots[j]
    {
      if !isAsync(slots[i].elem) {
        slots := slots[i := Slot(slots[i].elem, Some(handle(entry.num, slots[i].elem)))];
      }
      i := i + 1;
    }
    e := Entry(entry.num, slots);
  }

  /** Pass two. */
  method HandleAll<E, C>(meta: seq<Entry<E, C>>, isAsync: E -> bool, handle: (int, E) -> C) returns (m: seq<Entry<E, C>>)
    ensures m == Handled(meta, isAsync, handle)
  {
    m := meta;
    var k := 0;
    while k < |m|
      invariant 0 <= k <= |m| == |meta|
      invariant forall j :: 0 <= j < k ==> m[j] == SyncedEntry(meta[j], isAsync, handle)
      invariant forall j :: k <= j < |m| ==> m[j] == meta[j]
    {
      var e := HandleEntry(m[k], isAsync, handle);
      m := m[k := e];
      k := k + 1;
    }
  }

  // ----- pass three -----

  /** The index of the first entry with number `num`. */
  function FirstNum<E, C>(meta: seq<Entry<E, C>>, num: int): (j: Option<nat>)
    ensures j.Some? ==> j.value < |meta| && meta[j.value].num == num
                        && forall k :: 0 <= k < j.value ==> meta[k].num != num
    ensures j.None? ==> forall k :: 0 <= k < |meta| ==> meta[k].num != num
  {
    if meta == [] then None
    else if meta[0].num == num then Some(0)
    else
      var j := FirstNum(meta[1..], num);
      if j.Some? then
        assert forall k :: 1 <= k <= j.value ==> meta[k] == meta[1..][k - 1];
        Some(j.value + 1)
      else
        assert forall k :: 1 <= k < |meta| ==> meta[k] == meta[1..][k - 1];
        None
  }

  /** The search for the entry a future belongs to, stopping at the first
      match. */
  method FindFirst<E, C>(meta: seq<Entry<E, C>>, num: int) returns (j: Option<nat>)
    ensures j == FirstNum(meta, num)
  {
    var k := 0;
    while k < |meta|
      invariant 0 <= k <= |meta|
      invariant forall i :: 0 <= i < k ==> meta[i].num != num
    {
      if meta[k].num == num {
        FirstNumIs(meta, num, k);
        return Some(k);
      }
      k := k + 1;
    }
    j := None;
    FirstNumNone(meta, num);
  }

  lemma {:induction false} FirstNumIs<E, C>(meta: seq<Entry<E, C>>, num: int, k: nat)
    requires k < |meta| && meta[k].num == num
    requires forall i :: 0 <= i < k ==> meta[i].num != num
    ensures FirstNum(meta, num) == Some(k)
  {
    if k > 0 {
      assert forall i :: 0 <= i < k - 1 ==> meta[1..][i] == meta[i + 1];
      FirstNumIs(meta[1..], num, k - 1);
    }
  }

  lemma FirstNumNone<E, C>(meta: seq<Entry<E, C>>, num: int)
    requires forall i :: 0 <= i < |meta| ==> meta[i].num != num
    ensures FirstNum(meta, num) == None
  {
  }

  /** One step of pass three: wait for the future, then write its value
      into the element it was recorded for; `None` when waiting raises or
      the index is past the end of the entry found. A future whose number
      matches no entry is never waited for. */
  function JoinOne<E, C>(meta: seq<Entry<E, C>>, p: Pending<C>): Option<seq<Entry<E, C>>> {
    match FirstNum(meta, p.num)
    case None => Some(meta)
    case Some(j) =>
      if p.future.result.None? || p.index >= |meta[j].slots| then None
      else
        var slot := meta[j].slots[p.index];
        Some(meta[j := Entry(meta[j].num, meta[j].slots[p.index := Slot(slot.elem, p.future.result)])])
  }

  /** Pass three. */
  function Joined<E, C>(meta: seq<Entry<E, C>>, futures: seq<Pending<C>>): Option<seq<Entry<E, C>>>
    decreases |futures|
  {
    if futures == [] then Some(meta)
    else
      match JoinOne(meta, futures[0])
      case None => None
      case Some(m) => Joined(m, futures[1..])
  }

  method JoinAll<E, C>(meta: seq<Entry<E, C>>, futures: seq<Pending<C>>) returns (r: Option<seq<Entry<E, C>>>)
    ensures r == Joined(meta, futures)
  {
    var m := meta;
    var i := 0;
    while i < |futures|
      invariant 0 <= i <= |futures|
      invariant Joined(m, futures[i..]) == Joined(meta, futures)
    {
      assert futures[i..][1..] == futures[i + 1..];
      var p := futures[i];
      var j := FindFirst(m, p.num);
      if j.Some? {
        if p.future.result.None? || p.index >= |m[j.value].slots| {
          return None;
        }
        var slot := m[j.value].slots[p.index];
        m := m[j.value := Entry(m[j.value].num, m[j.value].slots[p.index := Slot(slot.elem, p.future.result)])];
      }
      i := i + 1;
    }
    assert futures[i..] == [];
    r := Some(m);
  }

  /** The three passes. */
  function Passes<E, C>(input: seq<(int, seq<E>)>, isAsync: E -> bool, submit: (int, E) -> Option<Future<C>>,
                        handle: (int, E) -> C): Option<seq<Entry<E, C>>>
  {
    Joined(Handled(Fresh(input), isAsync, handle), Submitted(input, isAsync, submit))
  }

  method RunPasses<E, C>(input: seq<(int, seq<E>)>, isAsync: E -> bool, submit: (int, E) -> Option<Future<C>>,
                         handle: (int, E) -> C) returns (r: Option<seq<Entry<E, C>>>)
    ensures r == Passes(input, isAsync, submit, handle)
  {
    var meta, futures := SubmitAll(input, isAsync, submit);
    meta := HandleAll(meta, isAsync, handle);
    r := JoinAll(meta, futures);
  }

  // ----- what the passes produce -----

  ghost predicate DistinctNums<E>(input: seq<(int, seq<E>)>) {
    forall a, b :: 0 <= a < b < |input| ==> input[a].0 != input[b].0
  }

  ghost predicate DistinctEntries<E, C>(meta: seq<Entry<E, C>>) {
    forall a, b :: 0 <= a < b < |meta| ==> meta[a].num != meta[b].num
  }

  /** Same numbers, same elements, in the same places. */
  ghost predicate SameShape<E, C>(meta: seq<Entry<E, C>>, m: seq<Entry<E, C>>) {
    |m| == |meta|
    && forall k :: 0 <= k < |meta| ==>
         m[k].num == meta[k].num && |m[k].slots| == |meta[k].slots|
         && forall i :: 0 <= i < |meta[k].slots| ==> m[k].slots[i].elem == meta[k].slots[i].elem
  }

  /** Some entry has the future's number and an element at its index. */
  ghost predicate Targets<E, C>(meta: seq<Entry<E, C>>, p: Pending<C>) {
    exists k :: 0 <= k < |meta| && meta[k].num == p.num && p.index < |meta[k].slots|
  }

  /** The last future recorded for number `num` and index `index`: the one
      whose value pass three writes last. */
  function LastFor<C>(futures: seq<Pending<C>>, num: int, index: nat): Option<Future<C>>
    decreases |futures|
  {
    if futures == [] then None
    else
      var later := LastFor(futures[1..], num, index);
      if later.Some? then later
      else if futures[0].num == num && futures[0].index == index then Some(futures[0].future)
      else None
  }

  /** The content an element ends with: its handler's for a synchronous
      element; for an asynchronous one its future's value, or nothing when
      the submission raised. */
  function Expected<E, C>(num: int, e: E, isAsync: E -> bool, submit: (int, E) -> Option<Future<C>>,
                          handle: (int, E) -> C): Option<C>
  {
    if !isAsync(e) then Some(handle(num, e))
    else match submit(num, e)
      case None => None
      case Some(f) => f.result
  }

  /** Waiting for the element's future, if it has one, does not raise. */
  predicate Resolves<E, C>(num: int, e: E, isAsync: E -> bool, submit: (int, E) -> Option<Future<C>>) {
    !(isAsync(e) && submit(num, e).Some? && submit(num, e).value.result.None?)
  }

  /** With distinct page or slide numbers, the passes succeed exactly when
      every submitted future resolves, and then give one entry per input
      entry and one element per input element, in order, each with its
      expected content. */
  lemma PassesResult<E, C>(input: seq<(int, seq<E>)>, isAsync: E -> bool, submit: (int, E) -> Option<Future<C>>,
                           handle: (int, E) -> C)
    requires DistinctNums(input)
    ensures Passes(input, isAsync, submit, handle).Some? <==>
              forall k, i :: 0 <= k < |input| && 0 <= i < |input[k].1| ==> Resolves(input[k].0, input[k].1[i], isAsync, submit)
    ensures Passes(input, isAsync, submit, handle).Some? ==>
              var r := Passes(input, isAsync, submit, handle).value;
              |r| == |input|
              && forall k :: 0 <= k < |input| ==>
                   r[k].num == input[k].0 && |r[k].slots| == |input[k].1|
                   && forall i :: 0 <= i < |input[k].1| ==>
                        r[k].slots[i] == Slot(input[k].1[i], Expected(input[k].0, input[k].1[i], isAsync, submit, handle))
  {
    var meta := Handled(Fresh(input), isAsync, handle);
    var futures := Submitted(input, isAsync, submit);
    assert DistinctEntries(meta);
    SubmittedFacts(input, isAsync, submit);
    forall j | 0 <= j < |futures| ensures Targets(meta, futures[j]) {
      assert futures[j] in futures;
      var k :| Origin(input, isAsync, submit, futures[j], k);
      assert meta[k].num == futures[j].num && futures[j].index < |meta[k].slots|;
    }
    JoinedSucceeds(meta, futures);
    var all := forall k, i :: 0 <= k < |input| && 0 <= i < |input[k].1| ==> Resolves(input[k].0, input[k].1[i], isAsync, submit);
    if all {
      forall j | 0 <= j < |futures| ensures futures[j].future.result.Some? {
        assert futures[j] in futures;
        var k :| Origin(input, isAsync, submit, futures[j], k);
        assert Resolves(input[k].0, input[k].1[futures[j].index], isAsync, submit);
      }
    }
    if Joined(meta, futures).Some? {
      forall k, i | 0 <= k < |input| && 0 <= i < |input[k].1| ensures Resolves(input[k].0, input[k].1[i], isAsync, submit) {
        LastForSubmitted(input, isAsync, submit, k, i);
        var e := input[k].1[i];
        if isAsync(e) && submit(input[k].0, e).Some? {
          LastForIn(futures, input[k].0, i);
        }
      }
      JoinedFacts(meta, futures);
      var r := Joined(meta, futures).value;
      forall k, i | 0 <= k < |input| && 0 <= i < |input[k].1|
        ensures r[k].slots[i] == Slot(input[k].1[i], Expected(input[k].0, input[k].1[i], isAsync, submit, handle))
      {
        LastForSubmitted(input, isAsync, submit, k, i);
      }
    }
  }

  lemma {:induction false} LastForIn<C>(futures: seq<Pending<C>>, num: int, index: nat)
    requires LastFor(futures, num, index).Some?
    ensures exists j :: 0 <= j < |futures| && futures[j] == Pending(num, index, LastFor(futures, num, index).value)
    decreases |futures|
  {
    if LastFor(futures[1..], num, index).Some? {
      LastForIn(futures[1..], num, index);
      var j :| 0 <= j < |futures[1..]| && futures[1..][j] == Pending(num, index, LastFor(futures[1..], num, index).value);
      assert futures[j + 1] == futures[1..][j];
    } else {
      assert futures[0] == Pending(num, index, LastFor(futures, num, index).value);
    }
  }

  lemma {:induction false} LastForMiss<C>(futures: seq<Pending<C>>, num: int, index: nat)
    requires forall j :: 0 <= j < |futures| ==> !(futures[j].num == num && futures[j].index == index)
    ensures LastFor(futures, num, index).None?
    decreases |futures|
  {
    if futures != [] {
      assert forall j :: 0 <= j < |futures[1..]| ==> futures[1..][j] == futures[j + 1];
      LastForMiss(futures[1..], num, index);
    }
  }

  lemma {:induction false} LastForConcat<C>(a: seq<Pending<C>>, b: seq<Pending<C>>, num: int, index: nat)
    ensures LastFor(a + b, num, index) == if LastFor(b, num, index).Some? then LastFor(b, num, index) else LastFor(a, num, index)
    decreases |a|
  {
    if a != [] {
      assert (a + b)[1..] == a[1..] + b;
      LastForConcat(a[1..], b, num, index);
    } else {
      assert a + b == b;
    }
  }

  /** `p` was recorded for element `p.index` of an entry numbered `num`
      with elements `elems`. */
  ghost predicate EntryOrigin<E, C>(num: int, elems: seq<E>, isAsync: E -> bool, submit: (int, E) -> Option<Future<C>>,
                                    p: Pending<C>) {
    p.num == num && p.index < |elems| && isAsync(elems[p.index]) && submit(num, elems[p.index]) == Some(p.future)
  }

  /** `p` was recorded for an element of input entry `k`. */
  ghost predicate Origin<E, C>(input: seq<(int, seq<E>)>, isAsync: E -> bool, submit: (int, E) -> Option<Future<C>>,
                               p: Pending<C>, k: int) {
    0 <= k < |input| && EntryOrigin(input[k].0, input[k].1, isAsync, submit, p)
  }

  lemma {:induction false} EntryFuturesFacts<E, C>(num: int, elems: seq<E>, isAsync: E -> bool, submit: (int, E) -> Option<Future<C>>)
    ensures forall p :: p in EntryFutures(num, elems, isAsync, submit) ==> EntryOrigin(num, elems, isAsync, submit, p)
    decreases |elems|
  {
    if elems != [] {
      var n := |elems| - 1;
      EntryFuturesFacts(num, elems[..n], isAsync, submit);
      forall p | p in EntryFutures(num, elems[..n], isAsync, submit) ensures EntryOrigin(num, elems, isAsync, submit, p) {
        assert elems[..n][p.index] == elems[p.index];
      }
    }
  }

  lemma {:induction false} LastForEntry<E, C>(num: int, elems: seq<E>, isAsync: E -> bool,
                                              submit: (int, E) -> Option<Future<C>>, i: nat)
    requires i < |elems|
    ensures LastFor(EntryFutures(num, elems, isAsync, submit), num, i) == if isAsync(elems[i]) then submit(num, elems[i]) else None
    decreases |elems|
  {
    var n := |elems| - 1;
    var front := EntryFutures(num, elems[..n], isAsync, submit);
    var tail: seq<Pending<C>> :=
      if isAsync(elems[n]) && submit(num, elems[n]).Some? then [Pending(num, n, submit(num, elems[n]).value)] else [];
    assert EntryFutures(num, elems, isAsync, submit) == front + tail;
    LastForConcat(front, tail, num, i);
    if i == n {
      EntryFuturesFacts(num, elems[..n], isAsync, submit);
      forall j | 0 <= j < |front| ensures front[j].index != i {
        assert EntryOrigin(num, elems[..n], isAsync, submit, front[j]);
      }
      LastForMiss(front, num, i);
    } else {
      assert LastFor(tail, num, i).None?;
      LastForEntry(num, elems[..n], isAsync, submit, i);
    }
  }

  lemma {:induction false} SubmittedFacts<E, C>(input: seq<(int, seq<E>)>, isAsync: E -> bool, submit: (int, E) -> Option<Future<C>>)
    ensures forall p :: p in Submitted(input, isAsync, submit) ==> exists k :: Origin(input, isAsync, submit, p, k)
    decreases |input|
  {
    if input != [] {
      var n := |input| - 1;
      var front := Submitted(input[..n], isAsync, submit);
      var last := EntryFutures(input[n].0, input[n].1, isAsync, submit);
      SubmittedFacts(input[..n], isAsync, submit);
      EntryFuturesFacts(input[n].0, input[n].1, isAsync, submit);
      forall p | p in front + last ensures exists k :: Origin(input, isAsync, submit, p, k) {
        if p in front {
          var k :| Origin(input[..n], isAsync, submit, p, k);
          assert input[..n][k] == input[k];
          assert Origin(input, isAsync, submit, p, k);
        } else {
          assert Origin(input, isAsync, submit, p, n);
        }
      }
    }
  }

  lemma {:induction false} LastForSubmitted<E, C>(input: seq<(int, seq<E>)>, isAsync: E -> bool,
                                                  submit: (int, E) -> Option<Future<C>>, k: nat, i: nat)
    requires DistinctNums(input)
    requires k < |input| && i < |input[k].1|
    ensures LastFor(Submitted(input, isAsync, submit), input[k].0, i)
         == if isAsync(input[k].1[i]) then submit(input[k].0, input[k].1[i]) else None
    decreases |input|
  {
    var n := |input| - 1;
    var front := Submitted(input[..n], isAsync, submit);
    var last := EntryFutures(input[n].0, input[n].1, isAsync, submit);
    assert Submitted(input, isAsync, submit) == front + last;
    LastForConcat(front, last, input[k].0, i);
    if k == n {
      LastForEntry(input[n].0, input[n].1, isAsync, submit, i);
      SubmittedFacts(input[..n], isAsync, submit);
      forall j | 0 <= j < |front| ensures front[j].num != input[n].0 {
        assert front[j] in front;
        var k' :| Origin(input[..n], isAsync, submit, front[j], k');
        assert input[..n][k'] == input[k'];
      }
      LastForMiss(front, input[n].0, i);
    } else {
      EntryFuturesFacts(input[n].0, input[n].1, isAsync, submit);
      forall j | 0 <= j < |last| ensures last[j].num != input[k].0 {
        assert last[j] in last;
      }
      LastForMiss(last, input[k].0, i);
      assert input[..n][k] == input[k];
      LastForSubmitted(input[..n], isAsync, submit, k, i);
    }
  }

  /** One step of pass three, with distinct numbers: the element the
      future was recorded for, and only it, gets the future's value. */
  lemma JoinOneFacts<E, C>(meta: seq<Entry<E, C>>, p: Pending<C>)
    requires DistinctEntries(meta)
    requires JoinOne(meta, p).Some?
    ensures SameShape(meta, JoinOne(meta, p).value)
    ensures forall k, i :: 0 <= k < |meta| && 0 <= i < |meta[k].slots| ==>
              JoinOne(meta, p).value[k].slots[i].content
                == if p.num == meta[k].num && p.index == i then p.future.result else meta[k].slots[i].content
  {
    var j := FirstNum(meta, p.num);
    forall k | 0 <= k < |meta| && meta[k].num == p.num ensures j == Some(k) {
      FirstNumIs(meta, p.num, k);
    }
  }

  lemma {:induction false} JoinedFacts<E, C>(meta: seq<Entry<E, C>>, futures: seq<Pending<C>>)
    requires DistinctEntries(meta)
    requires Joined(meta, futures).Some?
    ensures SameShape(meta, Joined(meta, futures).value)
    ensures forall k, i :: 0 <= k < |meta| && 0 <= i < |meta[k].slots| ==>
              Joined(meta, futures).value[k].slots[i].content
                == match LastFor(futures, meta[k].num, i)
                   case Some(f) => f.result
                   case None => meta[k].slots[i].content
    decreases |futures|
  {
    if futures != [] {
      JoinOneFacts(meta, futures[0]);
      var m1 := JoinOne(meta, futures[0]).value;
      JoinedFacts(m1, futures[1..]);
    }
  }

  lemma {:induction false} JoinedSucceeds<E, C>(meta: seq<Entry<E, C>>, futures: seq<Pending<C>>)
    requires DistinctEntries(meta)
    requires forall j :: 0 <= j < |futures| ==> Targets(meta, futures[j])
    ensures Joined(meta, futures).Some? <==> forall j :: 0 <= j < |futures| ==> futures[j].future.result.Some?
    decreases |futures|
  {
    if futures != [] {
      var p := futures[0];
      assert Targets(meta, p);
      var k :| 0 <= k < |meta| && meta[k].num == p.num && p.index < |meta[k].slots|;
      FirstNumIs(meta, p.num, k);
      if p.future.result.Some? {
        JoinOneFacts(meta, p);
        var m1 := JoinOne(meta, p).value;
        forall j | 0 <= j < |futures[1..]| ensures Targets(m1, futures[1..][j]) {
          assert Targets(meta, futures[j + 1]);
          var k' :| 0 <= k' < |meta| && meta[k'].num == futures[j + 1].num && futures[j + 1].index < |meta[k'].slots|;
          assert m1[k'].num == futures[1..][j].num && futures[1..][j].index < |m1[k'].slots|;
        }
        JoinedSucceeds(m1, futures[1..]);
        assert forall j :: 1 <= j < |futures| ==> futures[j] == futures[1..][j - 1];
      }
    }
  }
}
