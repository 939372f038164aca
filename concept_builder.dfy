/** The agentic concept builder: elements are put in document order, cut
    into batches, and for each batch a language model returns decisions
    (`skip`, `create_new`, `add_to_existing`) that are applied one by one
    to an insertion-ordered map of concepts. In parallel mode the sorted
    elements are cut into chunks, each chunk is processed by a fresh
    serial builder, and the concepts of all chunks are merged by title.
    The model's replies, the uuid4 digits and the summary-update replies
    are inputs. */
module ConceptBuilder {
  import opened Wrappers
  import opened Strings
  import Sorting

  /** A concept (`ConceptNode`). The phase-two fields (definition,
      formulas, prerequisites, ...) keep their defaults throughout this
      code and are not modelled. */
  datatype ConceptNode = ConceptNode(id: string, title: string, summary: string, elements: seq<string>)

  /** An input element: `id`, `type`, `content` and the optional
      `global_sequence`. */
  datatype InputElement = InputElement(id: string, kind: string, content: string, globalSequence: Option<int>)

  // ----- Python's insertion-ordered dict -----

  /** A dict with string keys: the keys in insertion order and the mapping. */
  datatype Dict<V> = Dict(order: seq<string>, entries: map<string, V>) {
    predicate Valid() {
      (forall i, j :: 0 <= i < j < |order| ==> order[i] != order[j])
      && entries.Keys == set x | x in order
    }

    /** `d.values()`, in insertion order. */
    function Values(): (vs: seq<V>)
      requires Valid()
      ensures |vs| == |order|
      ensures forall i :: 0 <= i < |order| ==> vs[i] == entries[order[i]]
    {
      seq(|order|, i requires 0 <= i < |order| => entries[order[i]])
    }
  }

  function EmptyDict<V>(): (d: Dict<V>)
    ensures d.Valid() && d.entries == map[] && d.order == []
  {
    Dict([], map[])
  }

  /** `d[k] = v`: a new key goes last, an existing key keeps its place. */
  function Put<V>(d: Dict<V>, k: string, v: V): (r: Dict<V>)
    requires d.Valid()
    ensures r.Valid() && r.entries == d.entries[k := v]
    ensures k in d.entries ==> r.order == d.order
    ensures k !in d.entries ==> r.order == d.order + [k]
  {
    if k in d.entries then Dict(d.order, d.entries[k := v]) else Dict(d.order + [k], d.entries[k := v])
  }

  /** A sequence without repeats has as many members as elements. */
  lemma {:induction false} DistinctCard(s: seq<string>)
    requires forall i, j :: 0 <= i < j < |s| ==> s[i] != s[j]
    ensures |set x | x in s| == |s|
  {
    if s != [] {
      var n := |s| - 1;
      DistinctCard(s[..n]);
      assert (set x | x in s) == (set x | x in s[..n]) + {s[n]} by {
        assert s == s[..n] + [s[n]];
      }
      assert s[n] !in s[..n];
    }
  }

  lemma DictSize<V>(d: Dict<V>)
    requires d.Valid()
    ensures |d.entries| == |d.order|
  {
    DistinctCard(d.order);
  }

  // ----- Sorting, indexing and batching -----

  /** `x.get('global_sequence', 0)`. */
  function SequenceKey(e: InputElement): int {
    e.globalSequence.GetOr(0)
  }

  predicate BySequence(a: InputElement, b: InputElement) {
    SequenceKey(a) <= SequenceKey(b)
  }

  /** `sorted(elements, key=...)`. */
  function Sorted(elements: seq<InputElement>): seq<InputElement> {
    Sorting.SortBy(elements, BySequence)
  }

  /** The sort puts elements in `global_sequence` order, keeps every
      element, and keeps elements with equal keys in input order. */
  lemma SortedFacts(elements: seq<InputElement>, c: InputElement)
    ensures multiset(Sorted(elements)) == multiset(elements)
    ensures Sorting.SortedBy(Sorted(elements), BySequence)
    ensures Sorting.TiedWith(Sorted(elements), c, BySequence) == Sorting.TiedWith(elements, c, BySequence)
  {
    assert Sorting.TotalPreorder(BySequence);
    Sorting.SortBySorted(elements, BySequence);
    Sorting.SortByStable(elements, c, BySequence);
  }

  /** `{elem['id']: elem for elem in elements}`: every id of the list is
      a key, and each key maps to an element with that id. */
  function Index(elements: seq<InputElement>): (m: map<string, InputElement>)
    ensures m.Keys == set e | e in elements :: e.id
    ensures forall k :: k in m ==> m[k] in elements && m[k].id == k
  {
    if elements == [] then map[]
    else
      var n := |elements| - 1;
      var prev := Index(elements[..n]);
      assert elements == elements[..n] + [elements[n]];
      prev[elements[n].id := elements[n]]
  }

  /** A later element with the same id replaces an earlier one: the key
      maps to the last element with that id. */
  lemma {:induction false} IndexKeepsLast(elements: seq<InputElement>, i: nat)
    requires i < |elements|
    requires forall j :: i < j < |elements| ==> elements[j].id != elements[i].id
    ensures Index(elements)[elements[i].id] == elements[i]
  {
    var n := |elements| - 1;
    IndexSnoc(elements);
    if i < n {
      var pre := elements[..n];
      assert pre[i] == elements[i];
      assert elements[n].id != elements[i].id;
      assert forall j :: i < j < |pre| ==> pre[j] == elements[j];
      IndexKeepsLast(pre, i);
    }
  }

  lemma IndexSnoc(elements: seq<InputElement>)
    requires elements != []
    ensures var n := |elements| - 1;
      Index(elements) == Index(elements[..n])[elements[n].id := elements[n]]
  {
  }

  function Min(a: int, b: int): int {
    if a <= b then a else b
  }

  /** `[xs[i:i + size] for i in range(0, len(xs), size)]`, for a positive
      size; a negative step gives an empty range. */
  function Batches<T>(xs: seq<T>, size: int): (bs: seq<seq<T>>)
    decreases |xs|
  {
    if size <= 0 || xs == [] then []
    else
      var m := Min(size, |xs|);
      [xs[..m]] + Batches(xs[m..], size)
  }

  function Flatten<T>(bs: seq<seq<T>>): seq<T> {
    if bs == [] then [] else bs[0] + Flatten(bs[1..])
  }

  lemma MulCancel(d: int, s: int)
    requires s > 0 && -s < d * s < s
    ensures d == 0
  {
  }

  /** Python's floor division by a positive divisor: the quotient of
      `q * s + r` with `0 <= r < s` is `q`. */
  lemma DivUnique(x: int, s: int, q: int, r: int)
    requires s > 0 && 0 <= r < s && x == q * s + r
    ensures x / s == q
  {
    var q', r' := x / s, x % s;
    assert (q - q') * s == r' - r;
    MulCancel(q - q', s);
  }

  lemma MulLess(k: int, m: int, s: int)
    requires s > 0 && k * s < m * s
    ensures k < m
  {
    assert (m - k) * s > 0;
  }

  lemma DivStep(n: nat, size: nat)
    requires size > 0 && n > size
    ensures (n + size - 1) / size == (n - size + size - 1) / size + 1
  {
    var a := n - 1;
    var q, r := a / size, a % size;
    DivUnique(a + size, size, q + 1, r);
  }

  lemma DivOne(n: nat, size: nat)
    requires 0 < n <= size
    ensures (n + size - 1) / size == 1
  {
    DivUnique(n + size - 1, size, 1, n - 1);
  }

  /** The batches (and chunks) cover the sequence once, in order: there
      are `ceil(n / size)` of them, each non-empty, all but the last of
      exactly `size` elements. */
  lemma {:induction false} BatchesPartition<T>(xs: seq<T>, size: int)
    requires size > 0
    ensures Flatten(Batches(xs, size)) == xs
    ensures |Batches(xs, size)| == (|xs| + size - 1) / size
    ensures forall j :: 0 <= j < |Batches(xs, size)| ==> 0 < |Batches(xs, size)[j]| <= size
    ensures forall j :: 0 <= j < |Batches(xs, size)| - 1 ==> |Batches(xs, size)[j]| == size
    decreases |xs|
  {
    if xs != [] {
      var m := Min(size, |xs|);
      var bs := Batches(xs, size);
      var rest := Batches(xs[m..], size);
      BatchesPartition(xs[m..], size);
      assert bs == [xs[..m]] + rest;
      assert bs[1..] == rest;
      assert xs == xs[..m] + xs[m..];
      if |xs| > size {
        DivStep(|xs|, size);
      } else {
        DivOne(|xs|, size);
        assert xs[m..] == [];
      }
      forall j | 0 <= j < |bs| ensures 0 < |bs[j]| <= size {
        if j > 0 { assert bs[j] == rest[j - 1]; }
      }
      forall j | 0 <= j < |bs| - 1 ensures |bs[j]| == size {
        if j > 0 { assert bs[j] == rest[j - 1]; } else { assert |xs| > size; }
      }
    }
  }

  /** `math.ceil(n / numWorkers)`. */
  function ChunkSize(n: nat, numWorkers: int): int
    requires numWorkers > 0
  {
    (n + numWorkers - 1) / numWorkers
  }

  /** Parallel chunks: with `n` elements and `w` workers there are at most
      `w` chunks, and a non-empty input gives a positive chunk size. */
  lemma ChunksFitWorkers(n: nat, w: int)
    requires w > 0 && n > 0
    ensures ChunkSize(n, w) > 0
    ensures (n + ChunkSize(n, w) - 1) / ChunkSize(n, w) <= w
  {
    var s := ChunkSize(n, w);
    var r := (n + w - 1) % w;
    assert n + w - 1 == s * w + r;
    MulLess(0, s, w);
    var k := (n + s - 1) / s;
    var r2 := (n + s - 1) % s;
    assert n + s - 1 == k * s + r2;
    assert (w + 1) * s == w * s + s;
    MulLess(k, w + 1, s);
  }

  // ----- Decisions -----

  /** The builder's state: the concept dict and `processedElements`. */
  datatype State = State(concepts: Dict<ConceptNode>, processed: seq<InputElement>)

  /** A decision as the model returns it; an absent key is `None`. */
  datatype Decision = Decision(elementId: Option<string>, decision: Option<string>, conceptId: Option<string>,
                               title: Option<string>, summary: Option<string>)

  /** A decision together with what the world supplies while applying it:
      the hex digits of the uuid4 drawn should the decision need a fresh
      id, and the reply of the summary-update call (`None`: it raised). */
  datatype Step = Step(decision: Decision, uuidHex: string, summaryReply: Option<string>)

  /** The model's reply for a batch, given the builder's state (which the
      prompt shows) and the batch; `None`: the call or the JSON parse
      failed, or the reply has no `decisions` key. */
  type Oracle = (State, seq<InputElement>) -> Option<seq<Step>>

  /** Every concept is stored under its own id and holds at least one
      element. */
  predicate WellFormed(d: Dict<ConceptNode>) {
    d.Valid() && forall k :: k in d.entries ==> d.entries[k].id == k && d.entries[k].elements != []
  }

  /** `_generateConceptId`: `c_` and the first 8 hex digits. */
  function NewId(uuidHex: string): string {
    "c_" + Prefix(uuidHex, 8)
  }

  /** The decision names a known element. */
  predicate Known(all: map<string, InputElement>, d: Decision) {
    Truthy(d.elementId) && d.elementId.value in all
  }

  /** The concept a `create_new` or `add_to_existing` decision writes. */
  function Target(step: Step): string {
    if Truthy(step.decision.conceptId) then step.decision.conceptId.value else NewId(step.uuidHex)
  }

  predicate IsCreate(st: State, all: map<string, InputElement>, d: Decision) {
    Known(all, d) && d.decision == Some("create_new")
  }

  predicate IsAdd(st: State, all: map<string, InputElement>, d: Decision) {
    Known(all, d) && d.decision == Some("add_to_existing")
    && Truthy(d.conceptId) && d.conceptId.value in st.concepts.entries
  }

  /** `_updateConceptSummary`'s stripped reply replaces the summary only
      when it is non-empty. */
  function UpdatedSummary(current: string, reply: Option<string>): string {
    if reply.Some? && Strip(reply.value) != "" then Strip(reply.value) else current
  }

  /** One decision of `_processBatch`, with `_createConcept` and
      `_addToConcept`. */
  function Apply(st: State, all: map<string, InputElement>, step: Step): (r: State)
    requires st.concepts.Valid()
    ensures r.concepts.Valid()
    ensures WellFormed(st.concepts) ==> WellFormed(r.concepts)
    ensures st.concepts.entries.Keys <= r.concepts.entries.Keys
    ensures r.processed == st.processed
         || (Known(all, step.decision) && r.processed == st.processed + [all[step.decision.elementId.value]])
  {
    var d := step.decision;
    if !Known(all, d) then st
    else
      var element := all[d.elementId.value];
      if d.decision == Some("skip") then st
      else if d.decision == Some("create_new") then
        var cid := Target(step);
        var node := ConceptNode(cid, d.title.GetOr("Untitled Concept"), d.summary.GetOr(""), [element.content]);
        State(Put(st.concepts, cid, node), st.processed + [element])
      else if d.decision == Some("add_to_existing") then
        if Truthy(d.conceptId) && d.conceptId.value in st.concepts.entries then
          var cid := d.conceptId.value;
          var c := st.concepts.entries[cid];
          var c' := c.(elements := c.elements + [element.content], summary := UpdatedSummary(c.summary, step.summaryReply));
          State(Put(st.concepts, cid, c'), st.processed + [element])
        else st
      else st
  }


  /** What one decision does to the concepts and the processed list. */
  lemma ApplyFacts(st: State, all: map<string, InputElement>, step: Step)
    requires st.concepts.Valid()
    // unknown element, skip, an unknown decision or an add to an unknown concept: nothing changes
    ensures !IsCreate(st, all, step.decision) && !IsAdd(st, all, step.decision) ==> Apply(st, all, step) == st
    ensures IsCreate(st, all, step.decision) || IsAdd(st, all, step.decision) ==>
              var r := Apply(st, all, step);
              var e := all[step.decision.elementId.value];
              var cid := Target(step);
              r.processed == st.processed + [e]
              && r.concepts.entries.Keys == st.concepts.entries.Keys + {cid}
              && (forall k :: k in st.concepts.entries && k != cid ==> r.concepts.entries[k] == st.concepts.entries[k])
              && r.concepts.entries[cid].elements != []
              && r.concepts.entries[cid].elements[|r.concepts.entries[cid].elements| - 1] == e.content
    // create_new: a one-element concept, replacing any with the same id
    ensures IsCreate(st, all, step.decision) ==>
              var d := step.decision;
              var cid := Target(step);
              Apply(st, all, step).concepts.entries[cid]
                == ConceptNode(cid, d.title.GetOr("Untitled Concept"), d.summary.GetOr(""), [all[d.elementId.value].content])
    // add_to_existing: the content appended, the title kept, the summary
    // replaced exactly when the stripped reply is non-empty
    ensures IsAdd(st, all, step.decision) ==>
              var cid := Target(step);
              var before := st.concepts.entries[cid];
              var after := Apply(st, all, step).concepts.entries[cid];
              after.elements == before.elements + [all[step.decision.elementId.value].content]
              && after.title == before.title
              && (after.summary != before.summary ==>
                    step.summaryReply.Some? && after.summary == Strip(step.summaryReply.value) && after.summary != "")
              && (step.summaryReply.Some? && Strip(step.summaryReply.value) != "" ==>
                    after.summary == Strip(step.summaryReply.value))
  {
  }

  /** The decisions of a reply (`decisions.get('decisions', [])`). */
  function StepsOf(reply: Option<seq<Step>>): seq<Step> {
    reply.GetOr([])
  }

  /** The decisions applied in order. */
  function ApplyAll(st: State, all: map<string, InputElement>, steps: seq<Step>): (r: State)
    requires st.concepts.Valid()
    ensures r.concepts.Valid()
    ensures WellFormed(st.concepts) ==> WellFormed(r.concepts)
    ensures st.concepts.entries.Keys <= r.concepts.entries.Keys
    ensures st.processed <= r.processed && |r.processed| <= |st.processed| + |steps|
    ensures forall i :: |st.processed| <= i < |r.processed| ==> r.processed[i] in all.Values
  {
    if steps == [] then st
    else
      var n := |steps| - 1;
      var prev := ApplyAll(st, all, steps[..n]);
      ApplyKeepsProcessed(st.processed, prev, all, steps[n]);
      Apply(prev, all, steps[n])
  }

  /** One decision keeps the processed list an extension of `base` by known
      elements, one longer at most. */
  lemma ApplyKeepsProcessed(base: seq<InputElement>, prev: State, all: map<string, InputElement>, step: Step)
    requires prev.concepts.Valid() && base <= prev.processed
    requires forall i :: |base| <= i < |prev.processed| ==> prev.processed[i] in all.Values
    ensures var r := Apply(prev, all, step);
      base <= r.processed && |r.processed| <= |prev.processed| + 1
      && forall i :: |base| <= i < |r.processed| ==> r.processed[i] in all.Values
  {
    var r := Apply(prev, all, step);
    if r.processed != prev.processed {
      var key := step.decision.elementId.value;
      assert all[key] in all.Values;
      assert forall i :: 0 <= i < |prev.processed| ==> r.processed[i] == prev.processed[i];
    }
  }

  /** One more decision: the state after it is `Apply` of the state before. */
  lemma ApplyAllSnoc(st: State, all: map<string, InputElement>, steps: seq<Step>, i: nat)
    requires st.concepts.Valid() && i < |steps|
    ensures ApplyAll(st, all, steps[..i + 1]) == Apply(ApplyAll(st, all, steps[..i]), all, steps[i])
  {
    assert steps[..i + 1][..i] == steps[..i];
  }

  /** The batches processed in order, each with the decisions the model
      returns for it in the state reached so far. */
  function RunBatches(st: State, all: map<string, InputElement>, batches: seq<seq<InputElement>>, reply: Oracle): (r: State)
    requires st.concepts.Valid()
    ensures r.concepts.Valid()
    ensures WellFormed(st.concepts) ==> WellFormed(r.concepts)
    ensures st.concepts.entries.Keys <= r.concepts.entries.Keys
    ensures st.processed <= r.processed
    ensures forall i :: |st.processed| <= i < |r.processed| ==> r.processed[i] in all.Values
  {
    if batches == [] then st
    else
      var n := |batches| - 1;
      var prev := RunBatches(st, all, batches[..n], reply);
      var r := ApplyAll(prev, all, StepsOf(reply(prev, batches[n])));
      assert forall i :: |st.processed| <= i < |prev.processed| ==> r.processed[i] == prev.processed[i];
      r
  }

  // ----- Merging the chunks' concepts -----

  /** One concept of `_mergeConcepts`' title pass: a new title is stored
      as is; a known one gets the elements appended and the summary
      replaced when the new one is strictly longer. */
  function MergeOne(d: Dict<ConceptNode>, c: ConceptNode): (r: Dict<ConceptNode>)
    requires d.Valid()
    ensures r.Valid()
  {
    if c.title in d.entries then
      var e := d.entries[c.title];
      Put(d, c.title, e.(elements := e.elements + c.elements,
                         summary := if |c.summary| > |e.summary| then c.summary else e.summary))
    else Put(d, c.title, c)
  }

  /** `tempMap`: the concepts keyed by title. */
  function ByTitle(cs: seq<ConceptNode>): (d: Dict<ConceptNode>)
    ensures d.Valid()
  {
    if cs == [] then EmptyDict()
    else MergeOne(ByTitle(cs[..|cs| - 1]), cs[|cs| - 1])
  }

  /** `finalConcepts`: the title pass's concepts keyed by id, a later one
      replacing an earlier one with the same id. */
  function ById(vs: seq<ConceptNode>): (d: Dict<ConceptNode>)
    ensures d.Valid()
    ensures d.entries.Keys == set v | v in vs :: v.id
    ensures forall k :: k in d.entries ==> d.entries[k] in vs && d.entries[k].id == k
  {
    if vs == [] then EmptyDict()
    else
      var n := |vs| - 1;
      assert vs == vs[..n] + [vs[n]];
      Put(ById(vs[..n]), vs[n].id, vs[n])
  }

  lemma ByTitleSnoc(cs: seq<ConceptNode>, i: nat)
    requires i < |cs|
    ensures ByTitle(cs[..i + 1]) == MergeOne(ByTitle(cs[..i]), cs[i])
  {
    assert cs[..i + 1][..i] == cs[..i];
  }

  lemma ByIdSnoc(vs: seq<ConceptNode>, j: nat)
    requires j < |vs|
    ensures ById(vs[..j + 1]) == Put(ById(vs[..j]), vs[j].id, vs[j])
  {
    assert vs[..j + 1][..j] == vs[..j];
  }

  /** `_mergeConcepts(concepts)`. */
  function Merged(cs: seq<ConceptNode>): Dict<ConceptNode> {
    ById(ByTitle(cs).Values())
  }

  /** The elements of the concepts titled `t`, in input order. */
  function ElementsTitled(cs: seq<ConceptNode>, t: string): seq<string> {
    if cs == [] then []
    else
      var n := |cs| - 1;
      ElementsTitled(cs[..n], t) + (if cs[n].title == t then cs[n].elements else [])
  }

  /** `cs[i]` is the first concept titled `t`. */
  ghost predicate FirstTitled(cs: seq<ConceptNode>, t: string, i: int) {
    0 <= i < |cs| && cs[i].title == t && forall j :: 0 <= j < i ==> cs[j].title != t
  }

  /** `cs[i]` has the longest summary among the concepts titled `t`, and
      is the first of them to have it. */
  ghost predicate FirstLongest(cs: seq<ConceptNode>, t: string, i: int) {
    0 <= i < |cs| && cs[i].title == t
    && (forall j :: 0 <= j < |cs| && cs[j].title == t ==> |cs[j].summary| <= |cs[i].summary|)
    && (forall j :: 0 <= j < i && cs[j].title == t ==> |cs[j].summary| < |cs[i].summary|)
  }

  lemma {:induction false} ByTitleKeys(cs: seq<ConceptNode>, t: string)
    ensures t in ByTitle(cs).entries <==> exists c :: c in cs && c.title == t
    ensures t in ByTitle(cs).entries ==> ByTitle(cs).entries[t].title == t
  {
    if cs != [] {
      var n := |cs| - 1;
      assert cs == cs[..n] + [cs[n]];
      ByTitleKeys(cs[..n], t);
    }
  }

  lemma {:induction false} ByTitleElements(cs: seq<ConceptNode>, t: string)
    requires t in ByTitle(cs).entries
    ensures ByTitle(cs).entries[t].elements == ElementsTitled(cs, t)
  {
    var n := |cs| - 1;
    var pre, c := cs[..n], cs[n];
    var prev := ByTitle(pre);
    assert ByTitle(cs) == MergeOne(prev, c);
    MergeOneElements(prev, c, t);
    assert ElementsTitled(cs, t) == ElementsTitled(pre, t) + (if c.title == t then c.elements else []);
    if t in prev.entries {
      ByTitleElements(pre, t);
    } else {
      ByTitleKeys(pre, t);
      ElementsTitledNone(pre, t);
    }
  }

  /** The elements the title pass keeps for `t` after one more concept. */
  lemma MergeOneElements(d: Dict<ConceptNode>, c: ConceptNode, t: string)
    requires d.Valid() && t in MergeOne(d, c).entries
    ensures MergeOne(d, c).entries[t].elements
         == (if t in d.entries then d.entries[t].elements else []) + (if c.title == t then c.elements else [])
  {
  }

  lemma {:induction false} ByTitleId(cs: seq<ConceptNode>, t: string)
    requires t in ByTitle(cs).entries
    ensures exists i :: FirstTitled(cs, t, i) && ByTitle(cs).entries[t].id == cs[i].id
  {
    var n := |cs| - 1;
    var pre, c := cs[..n], cs[n];
    assert cs == pre + [c];
    var prev := ByTitle(pre);
    assert ByTitle(cs) == MergeOne(prev, c);
    MergeOneId(prev, c, t);
    if t in prev.entries {
      ByTitleId(pre, t);
      var i :| FirstTitled(pre, t, i) && prev.entries[t].id == pre[i].id;
      FirstTitledExtend(pre, c, t, i);
    } else {
      ByTitleKeys(pre, t);
      FirstTitledNew(pre, c, t);
    }
  }

  /** The id the title pass keeps for `t` after one more concept. */
  lemma MergeOneId(d: Dict<ConceptNode>, c: ConceptNode, t: string)
    requires d.Valid() && t in MergeOne(d, c).entries
    ensures t in d.entries ==> MergeOne(d, c).entries[t].id == d.entries[t].id
    ensures t !in d.entries ==> c.title == t && MergeOne(d, c).entries[t].id == c.id
  {
  }

  lemma FirstTitledExtend(pre: seq<ConceptNode>, c: ConceptNode, t: string, i: int)
    requires FirstTitled(pre, t, i)
    ensures FirstTitled(pre + [c], t, i) && (pre + [c])[i] == pre[i]
  {
    var cs := pre + [c];
    assert forall j :: 0 <= j < |pre| ==> cs[j] == pre[j];
  }

  lemma FirstTitledNew(pre: seq<ConceptNode>, c: ConceptNode, t: string)
    requires c.title == t && forall x :: x in pre ==> x.title != t
    ensures FirstTitled(pre + [c], t, |pre|) && (pre + [c])[|pre|] == c
  {
    var cs := pre + [c];
    assert forall j :: 0 <= j < |pre| ==> cs[j] == pre[j] && pre[j] in pre;
  }

  /** The summary the title pass keeps for `t` after one more concept. */
  lemma MergeOneSummary(d: Dict<ConceptNode>, c: ConceptNode, t: string)
    requires d.Valid() && t in d.entries
    ensures t in MergeOne(d, c).entries
    ensures MergeOne(d, c).entries[t].summary ==
              if c.title == t && |c.summary| > |d.entries[t].summary| then c.summary else d.entries[t].summary
  {
  }

  lemma FirstLongestExtend(pre: seq<ConceptNode>, c: ConceptNode, t: string, i: int)
    requires FirstLongest(pre, t, i)
    ensures c.title == t && |c.summary| > |pre[i].summary| ==> FirstLongest(pre + [c], t, |pre|)
    ensures !(c.title == t && |c.summary| > |pre[i].summary|) ==> FirstLongest(pre + [c], t, i)
  {
    var cs := pre + [c];
    assert forall j :: 0 <= j < |pre| ==> cs[j] == pre[j];
  }

  lemma FirstLongestNew(pre: seq<ConceptNode>, c: ConceptNode, t: string)
    requires c.title == t && forall x :: x in pre ==> x.title != t
    ensures FirstLongest(pre + [c], t, |pre|)
  {
    var cs := pre + [c];
    assert forall j :: 0 <= j < |pre| ==> cs[j] == pre[j] && pre[j] in pre;
  }

  lemma {:induction false} ByTitleSummary(cs: seq<ConceptNode>, t: string)
    requires t in ByTitle(cs).entries
    ensures exists i :: FirstLongest(cs, t, i) && ByTitle(cs).entries[t].summary == cs[i].summary
  {
    var n := |cs| - 1;
    var pre, c := cs[..n], cs[n];
    assert cs == pre + [c];
    var prev := ByTitle(pre);
    assert ByTitle(cs) == MergeOne(prev, c);
    if t in prev.entries {
      ByTitleSummary(pre, t);
      var kept := prev.entries[t];
      var i :| FirstLongest(pre, t, i) && kept.summary == pre[i].summary;
      MergeOneSummary(prev, c, t);
      FirstLongestExtend(pre, c, t, i);
    } else {
      ByTitleKeys(pre, t);
      FirstLongestNew(pre, c, t);
    }
  }

  /** The title pass keeps one concept per title: its title is the key,
      its elements are those of all concepts with that title in order, it
      keeps the id of the first of them and the summary of the first with
      the longest summary. */
  lemma ByTitleFacts(cs: seq<ConceptNode>, t: string)
    ensures t in ByTitle(cs).entries <==> exists c :: c in cs && c.title == t
    ensures t in ByTitle(cs).entries ==>
              var e := ByTitle(cs).entries[t];
              e.title == t && e.elements == ElementsTitled(cs, t)
              && (exists i :: FirstTitled(cs, t, i) && e.id == cs[i].id)
              && (exists i :: FirstLongest(cs, t, i) && e.summary == cs[i].summary)
  {
    ByTitleKeys(cs, t);
    if t in ByTitle(cs).entries {
      ByTitleElements(cs, t);
      ByTitleId(cs, t);
      ByTitleSummary(cs, t);
    }
  }

  /** `_mergeConcepts` returns concepts keyed by their ids with pairwise
      distinct titles, each the title pass's concept for its title; when
      the inputs have elements, so do the merged concepts. */
  lemma MergedFacts(cs: seq<ConceptNode>)
    ensures Merged(cs).Valid()
    ensures forall k :: k in Merged(cs).entries ==>
              var e := Merged(cs).entries[k];
              e.id == k && e.title in ByTitle(cs).entries && e == ByTitle(cs).entries[e.title]
    ensures forall k1, k2 :: k1 in Merged(cs).entries && k2 in Merged(cs).entries && k1 != k2 ==>
              Merged(cs).entries[k1].title != Merged(cs).entries[k2].title
    ensures (forall c :: c in cs ==> c.elements != []) ==> WellFormed(Merged(cs))
  {
    var tm := ByTitle(cs);
    var vs := tm.Values();
    forall t | t in tm.entries
      ensures tm.entries[t].title == t && (tm.entries[t].elements == ElementsTitled(cs, t))
    {
      ByTitleFacts(cs, t);
    }
    forall v | v in vs
      ensures v.title in tm.entries && v == tm.entries[v.title]
    {
      var i :| 0 <= i < |vs| && vs[i] == v;
      assert tm.order[i] in tm.entries;
    }
    if forall c :: c in cs ==> c.elements != [] {
      forall t | t in tm.entries
        ensures tm.entries[t].elements != []
      {
        ByTitleFacts(cs, t);
        var c :| c in cs && c.title == t;
        ElementsTitledHas(cs, c);
      }
    }
  }

  lemma {:induction false} ElementsTitledNone(cs: seq<ConceptNode>, t: string)
    requires forall c :: c in cs ==> c.title != t
    ensures ElementsTitled(cs, t) == []
  {
    if cs != [] {
      var n := |cs| - 1;
      assert cs[n] in cs;
      assert forall c :: c in cs[..n] ==> c in cs;
      ElementsTitledNone(cs[..n], t);
    }
  }

  /** A concept's elements are among those gathered for its title. */
  lemma {:induction false} ElementsTitledHas(cs: seq<ConceptNode>, c: ConceptNode)
    requires c in cs && c.elements != []
    ensures ElementsTitled(cs, c.title) != []
  {
    var n := |cs| - 1;
    if cs[n] != c {
      assert c in cs[..n] by {
        assert cs == cs[..n] + [cs[n]];
      }
      ElementsTitledHas(cs[..n], c);
    }
  }

  /** As written, two concepts with different titles but the same id
      collapse to the later one, and the earlier one's elements are
      dropped from the result. */
  lemma MergeDropsSameIdConcepts()
    ensures var m := Merged([ConceptNode("c_1", "Limits", "", ["a"]), ConceptNode("c_1", "Series", "", ["b"])]);
            m.entries.Keys == {"c_1"} && m.entries["c_1"].title == "Series" && m.entries["c_1"].elements == ["b"]
  {
    var cs := [ConceptNode("c_1", "Limits", "", ["a"]), ConceptNode("c_1", "Series", "", ["b"])];
    ByTitleTwo(cs[0], cs[1]);
    var tm := ByTitle([cs[0], cs[1]]);
    assert [cs[0], cs[1]] == cs;
    assert tm.Values() == cs;
    ByIdTwo(cs[0], cs[1]);
  }

  /** Two concepts with different titles: the title pass keeps both, in order. */
  lemma ByTitleTwo(c0: ConceptNode, c1: ConceptNode)
    requires c0.title != c1.title
    ensures ByTitle([c0, c1]) == Dict([c0.title, c1.title], map[c0.title := c0, c1.title := c1])
  {
    var cs := [c0, c1];
    assert cs[..0] == [] && cs[..2] == cs;
    ByTitleSnoc(cs, 0);
    assert ByTitle(cs[..1]) == Dict([c0.title], map[c0.title := c0]);
    ByTitleSnoc(cs, 1);
  }

  /** Two concepts with the same id: the id pass keeps the later one. */
  lemma ByIdTwo(c0: ConceptNode, c1: ConceptNode)
    requires c0.id == c1.id
    ensures ById([c0, c1]).entries == map[c0.id := c1]
  {
    var vs := [c0, c1];
    assert vs[..0] == [] && vs[..2] == vs;
    ByIdSnoc(vs, 0);
    ByIdSnoc(vs, 1);
  }

  // ----- Statistics -----

  datatype Stats = Stats(totalConcepts: nat, totalElementsProcessed: nat,
                         avgElementsPerConcept: real, minElementsPerConcept: nat, maxElementsPerConcept: nat)

  function Sum(ns: seq<nat>): nat {
    if ns == [] then 0 else Sum(ns[..|ns| - 1]) + ns[|ns| - 1]
  }

  function MinOf(ns: seq<nat>): (m: nat)
    requires ns != []
    ensures m in ns && forall x :: x in ns ==> m <= x
  {
    var n := |ns| - 1;
    assert ns == ns[..n] + [ns[n]];
    if n == 0 then ns[0]
    else
      var prev := MinOf(ns[..n]);
      if ns[n] < prev then ns[n] else prev
  }

  function MaxOf(ns: seq<nat>): (m: nat)
    requires ns != []
    ensures m in ns && forall x :: x in ns ==> x <= m
  {
    var n := |ns| - 1;
    assert ns == ns[..n] + [ns[n]];
    if n == 0 then ns[0]
    else
      var prev := MaxOf(ns[..n]);
      if ns[n] > prev then ns[n] else prev
  }

  /** The sum lies between `len * min` and `len * max`. */
  lemma {:induction false} SumBounds(ns: seq<nat>, lo: nat, hi: nat)
    requires forall i :: 0 <= i < |ns| ==> lo <= ns[i] <= hi
    ensures |ns| * lo <= Sum(ns) <= |ns| * hi
  {
    if ns != [] {
      var n := |ns| - 1;
      var pre := ns[..n];
      assert forall i :: 0 <= i < n ==> pre[i] == ns[i];
      SumBounds(pre, lo, hi);
      var a, b := n * lo, n * hi;
      assert |ns| * lo == a + lo by { assert |ns| == n + 1; }
      assert |ns| * hi == b + hi by { assert |ns| == n + 1; }
    }
  }

  lemma AverageBetween(sum: nat, n: nat, lo: nat, hi: nat)
    requires n > 0 && n * lo <= sum <= n * hi
    ensures lo as real <= sum as real / n as real <= hi as real
  {
    assert (n * lo) as real == n as real * lo as real;
    assert (n * hi) as real == n as real * hi as real;
  }

  /** The element count of each concept, in dict order. */
  function Counts(cs: seq<ConceptNode>): (ns: seq<nat>)
    ensures |ns| == |cs| && forall i :: 0 <= i < |cs| ==> ns[i] == |cs[i].elements|
  {
    seq(|cs|, i requires 0 <= i < |cs| => |cs[i].elements|)
  }

  // ----- Serial and parallel runs -----

  /** What a worker returns: the concepts of a fresh builder (batch size
      10) that processed the chunk serially, in dict order. */
  function WorkerConcepts(chunk: seq<InputElement>, reply: Oracle): seq<ConceptNode> {
    RunBatches(State(EmptyDict(), []), Index(chunk), Batches(Sorted(chunk), 10), reply).concepts.Values()
  }

  /** `allConcepts`: the workers' concepts one chunk after another. */
  function ChunkConcepts(chunks: seq<seq<InputElement>>, reply: Oracle): seq<ConceptNode> {
    if chunks == [] then []
    else
      var n := |chunks| - 1;
      ChunkConcepts(chunks[..n], reply) + WorkerConcepts(chunks[n], reply)
  }

  /** `_processElementsParallel(elements, numWorkers)`; `None`: a zero chunk
      size or a non-positive worker count raises. */
  function ParallelOutcome(elements: seq<InputElement>, numWorkers: int, reply: Oracle): Option<Dict<ConceptNode>> {
    if numWorkers <= 0 || ChunkSize(|elements|, numWorkers) == 0 then None
    else Some(Merged(ChunkConcepts(Batches(elements, ChunkSize(|elements|, numWorkers)), reply)))
  }

  /** Every worker's concepts have elements. */
  lemma {:induction false} ChunkConceptsNonEmpty(chunks: seq<seq<InputElement>>, reply: Oracle)
    ensures forall c :: c in ChunkConcepts(chunks, reply) ==> c.elements != []
  {
    if chunks != [] {
      var n := |chunks| - 1;
      ChunkConceptsNonEmpty(chunks[..n], reply);
      var chunk := chunks[n];
      var st := RunBatches(State(EmptyDict(), []), Index(chunk), Batches(Sorted(chunk), 10), reply);
      assert WellFormed(st.concepts);
      forall c | c in WorkerConcepts(chunk, reply) ensures c.elements != [] {
        var vs := st.concepts.Values();
        var i :| 0 <= i < |vs| && vs[i] == c;
        assert st.concepts.order[i] in st.concepts.entries;
      }
    }
  }

  /** A parallel run on more than 20 elements with `w > 0` workers
      succeeds; its chunks are at most `w`, partition the elements in
      order, and its result holds well-formed concepts with pairwise
      distinct titles. */
  lemma ParallelFacts(elements: seq<InputElement>, numWorkers: int, reply: Oracle)
    requires numWorkers > 0 && |elements| > 20
    ensures ParallelOutcome(elements, numWorkers, reply).Some?
    ensures var size := ChunkSize(|elements|, numWorkers);
            size > 0 && |Batches(elements, size)| <= numWorkers && Flatten(Batches(elements, size)) == elements
    ensures var m := ParallelOutcome(elements, numWorkers, reply).value;
            WellFormed(m)
            && forall k1, k2 :: k1 in m.entries && k2 in m.entries && k1 != k2 ==> m.entries[k1].title != m.entries[k2].title
  {
    ParallelChunks(elements, numWorkers);
    ParallelMerged(elements, numWorkers, reply);
  }

  lemma ParallelChunks(elements: seq<InputElement>, numWorkers: int)
    requires numWorkers > 0 && |elements| > 0
    ensures var size := ChunkSize(|elements|, numWorkers);
            size > 0 && |Batches(elements, size)| <= numWorkers && Flatten(Batches(elements, size)) == elements
  {
    var size := ChunkSize(|elements|, numWorkers);
    ChunksFitWorkers(|elements|, numWorkers);
    BatchesPartition(elements, size);
  }

  lemma ParallelMerged(elements: seq<InputElement>, numWorkers: int, reply: Oracle)
    requires numWorkers > 0 && ChunkSize(|elements|, numWorkers) > 0
    ensures ParallelOutcome(elements, numWorkers, reply).Some?
    ensures var m := ParallelOutcome(elements, numWorkers, reply).value;
            WellFormed(m)
            && forall k1, k2 :: k1 in m.entries && k2 in m.entries && k1 != k2 ==> m.entries[k1].title != m.entries[k2].title
  {
    var chunks := Batches(elements, ChunkSize(|elements|, numWorkers));
    ChunkConceptsNonEmpty(chunks, reply);
    MergedFacts(ChunkConcepts(chunks, reply));
  }

  /** Each chunk of the sorted elements is itself in order, so the
      worker's own sort leaves it as it is. */
  lemma {:induction false} ChunksStaySorted(xs: seq<InputElement>, size: int, j: nat)
    requires Sorting.SortedBy(xs, BySequence) && j < |Batches(xs, size)|
    ensures Sorted(Batches(xs, size)[j]) == Batches(xs, size)[j]
    decreases |xs|
  {
    var m := Min(size, |xs|);
    var b := Batches(xs, size);
    assert b == [xs[..m]] + Batches(xs[m..], size);
    if j == 0 {
      Sorting.SortedSlice(xs, BySequence, 0, m);
      assert xs[0..m] == xs[..m];
      Sorting.SortBySortedIdentity(xs[..m], BySequence);
    } else {
      Sorting.SortedSlice(xs, BySequence, m, |xs|);
      assert xs[m..|xs|] == xs[m..];
      ChunksStaySorted(xs[m..], size, j - 1);
    }
  }

  lemma BatchesStep<T>(xs: seq<T>, size: int, i: int, end: int)
    requires size > 0 && 0 <= i < |xs| && end == Min(i + size, |xs|)
    ensures Batches(xs[i..], size) == [xs[i..end]] + Batches(xs[end..], size)
  {
    var ys := xs[i..];
    assert ys[..end - i] == xs[i..end];
    assert ys[end - i..] == xs[end..];
  }

  lemma RunBatchesStep(st: State, all: map<string, InputElement>, done: seq<seq<InputElement>>,
                       b: seq<InputElement>, reply: Oracle)
    requires st.concepts.Valid()
    ensures var prev := RunBatches(st, all, done, reply);
            RunBatches(st, all, done + [b], reply) == ApplyAll(prev, all, StepsOf(reply(prev, b)))
  {
    assert (done + [b])[..|done|] == done;
  }

  lemma ChunkConceptsStep(chunks: seq<seq<InputElement>>, k: nat, reply: Oracle)
    requires k < |chunks|
    ensures ChunkConcepts(chunks[..k + 1], reply) == ChunkConcepts(chunks[..k], reply) + WorkerConcepts(chunks[k], reply)
  {
    assert chunks[..k + 1][..k] == chunks[..k];
  }

  /** Over a non-empty list of counts: the minimum and maximum are counts
      of the list, bound every count, and bracket the average. */
  lemma CountBounds(counts: seq<nat>)
    requires counts != []
    ensures MinOf(counts) as real <= Sum(counts) as real / |counts| as real <= MaxOf(counts) as real
  {
    var lo, hi := MinOf(counts), MaxOf(counts);
    forall i | 0 <= i < |counts| ensures lo <= counts[i] <= hi {
      assert counts[i] in counts;
    }
    SumBounds(counts, lo, hi);
    AverageBetween(Sum(counts), |counts|, lo, hi);
  }

  /** The builder: the concept dict, the elements by id and the elements
      processed, in order. */
  class AgenticConceptBuilder {
    var concepts: Dict<ConceptNode>
    var allElements: map<string, InputElement>
    var processedElements: seq<InputElement>
    const batchSize: int

    predicate Valid()
      reads this
    {
      concepts.Valid()
    }

    function St(): State
      reads this
    {
      State(concepts, processedElements)
    }

    constructor(batchSize: int)
      ensures Valid() && this.batchSize == batchSize
      ensures concepts == EmptyDict() && allElements == map[] && processedElements == []
    {
      this.batchSize := batchSize;
      concepts := EmptyDict();
      allElements := map[];
      processedElements := [];
    }

    /** `_createConcept`: a concept holding the element's content, stored
        under `conceptId` (replacing any concept there). */
    method CreateConcept(conceptId: string, title: string, summary: string, element: InputElement)
      requires Valid()
      modifies this
      ensures Valid()
      ensures concepts == Put(old(concepts), conceptId, ConceptNode(conceptId, title, summary, [element.content]))
      ensures processedElements == old(processedElements) && allElements == old(allElements)
    {
      concepts := Put(concepts, conceptId, ConceptNode(conceptId, title, summary, [element.content]));
    }

    /** `_addToConcept`: the content appended; the summary replaced when
        the stripped reply of the update call is non-empty. */
    method AddToConcept(conceptId: string, element: InputElement, summaryReply: Option<string>)
      requires Valid() && conceptId in concepts.entries
      modifies this
      ensures Valid()
      ensures var c := old(concepts.entries[conceptId]);
              concepts == Put(old(concepts), conceptId,
                              c.(elements := c.elements + [element.content], summary := UpdatedSummary(c.summary, summaryReply)))
      ensures processedElements == old(processedElements) && allElements == old(allElements)
    {
      var concept := concepts.entries[conceptId];
      concept := concept.(elements := concept.elements + [element.content]);
      var newSummary: Option<string> := if summaryReply.Some? then Some(Strip(summaryReply.value)) else None;
      if Truthy(newSummary) {
        concept := concept.(summary := newSummary.value);
      }
      concepts := Put(concepts, conceptId, concept);
    }

    /** One iteration of `_processBatch`'s decision loop. */
    method ProcessDecision(step: Step)
      requires Valid()
      modifies this
      ensures Valid()
      ensures St() == Apply(old(St()), allElements, step)
      ensures allElements == old(allElements)
    {
      var decision := step.decision;
      var elementId := decision.elementId;
      if !Truthy(elementId) || elementId.value !in allElements {
        return;
      }
      var element := allElements[elementId.value];
      if decision.decision == Some("skip") {
      } else if decision.decision == Some("create_new") {
        var title := decision.title.GetOr("Untitled Concept");
        var summary := decision.summary.GetOr("");
        var conceptId := if Truthy(decision.conceptId) then decision.conceptId.value else NewId(step.uuidHex);
        CreateConcept(conceptId, title, summary, element);
        processedElements := processedElements + [element];
      } else if decision.decision == Some("add_to_existing") {
        if Truthy(decision.conceptId) && decision.conceptId.value in concepts.entries {
          AddToConcept(decision.conceptId.value, element, step.summaryReply);
          processedElements := processedElements + [element];
        }
      }
    }

    /** `_processBatch`: the decisions of the reply applied in order. */
    method ProcessBatch(batch: seq<InputElement>, reply: Oracle)
      requires Valid()
      modifies this
      ensures Valid()
      ensures St() == ApplyAll(old(St()), allElements, StepsOf(reply(old(St()), batch)))
      ensures allElements == old(allElements)
    {
      var steps := StepsOf(reply(St(), batch));
      ghost var st0 := St();
      var i := 0;
      while i < |steps|
        invariant 0 <= i <= |steps| && Valid()
        invariant St() == ApplyAll(st0, allElements, steps[..i])
        invariant allElements == old(allElements)
      {
        ApplyAllSnoc(st0, allElements, steps, i);
        ProcessDecision(steps[i]);
        i := i + 1;
      }
      assert steps[..i] == steps;
    }

    /** The serial loop `for i in range(0, len(sortedElements), batchSize)`. */
    method RunSerial(sorted: seq<InputElement>, reply: Oracle)
      requires Valid()
      modifies this
      ensures Valid()
      ensures St() == RunBatches(old(St()), allElements, Batches(sorted, batchSize), reply)
      ensures allElements == old(allElements)
    {
      ghost var st0 := St();
      ghost var done: seq<seq<InputElement>> := [];
      if batchSize <= 0 {
        assert Batches(sorted, batchSize) == [];
        return;
      }
      var i := 0;
      while i < |sorted|
        invariant 0 <= i <= |sorted| && Valid()
        invariant Batches(sorted, batchSize) == done + Batches(sorted[i..], batchSize)
        invariant St() == RunBatches(st0, allElements, done, reply)
        invariant allElements == old(allElements)
        decreases |sorted| - i
      {
        var end := Min(i + batchSize, |sorted|);
        var batch := sorted[i..end];
        BatchesStep(sorted, batchSize, i, end);
        assert done + Batches(sorted[i..], batchSize) == (done + [batch]) + Batches(sorted[end..], batchSize);
        RunBatchesStep(st0, allElements, done, batch, reply);
        ghost var prev := St();
        ProcessBatch(batch, reply);
        assert St() == ApplyAll(prev, allElements, StepsOf(reply(prev, batch)));
        done := done + [batch];
        i := end;
      }
      assert sorted[i..] == [];
      assert Batches(sorted[i..], batchSize) == [];
      assert done + [] == done;
    }

    /** `processElements(chunk, parallel=False)`; `None`: a zero batch
        size raises when the batch count is computed, after the elements
        are indexed. */
    method ProcessElementsSerial(elements: seq<InputElement>, reply: Oracle) returns (r: Option<Dict<ConceptNode>>)
      requires Valid()
      modifies this
      ensures Valid() && allElements == Index(elements)
      ensures batchSize == 0 ==> r.None? && St() == old(St())
      ensures batchSize != 0 ==>
                St() == RunBatches(old(St()), Index(elements), Batches(Sorted(elements), batchSize), reply)
                && r == Some(concepts)
    {
      allElements := Index(elements);
      var sorted := Sorted(elements);
      if batchSize == 0 {
        return None;
      }
      RunSerial(sorted, reply);
      r := Some(concepts);
    }

    /** `_processChunkWorker`: a fresh builder processes the chunk
        serially and hands back its concepts. */
    static method ProcessChunkWorker(chunk: seq<InputElement>, reply: Oracle) returns (cs: seq<ConceptNode>)
      ensures cs == WorkerConcepts(chunk, reply)
    {
      var builder := new AgenticConceptBuilder(10);
      var _ := builder.ProcessElementsSerial(chunk, reply);
      cs := builder.concepts.Values();
    }

    /** The executor's workers, one per chunk, their concepts collected in
        chunk order. */
    static method RunWorkers(chunks: seq<seq<InputElement>>, reply: Oracle) returns (allConcepts: seq<ConceptNode>)
      ensures allConcepts == ChunkConcepts(chunks, reply)
    {
      allConcepts := [];
      var k := 0;
      while k < |chunks|
        invariant 0 <= k <= |chunks|
        invariant allConcepts == ChunkConcepts(chunks[..k], reply)
      {
        ChunkConceptsStep(chunks, k, reply);
        var chunkConcepts := ProcessChunkWorker(chunks[k], reply);
        allConcepts := allConcepts + chunkConcepts;
        k := k + 1;
      }
      assert chunks[..k] == chunks;
    }

    /** `_mergeConcepts`: the title pass, then the concepts keyed by id. */
    static method MergeConcepts(cs: seq<ConceptNode>) returns (d: Dict<ConceptNode>)
      ensures d == Merged(cs)
    {
      var tempMap := TitlePass(cs);
      d := IdPass(tempMap.Values());
    }

    /** The first loop of `_mergeConcepts`: the concepts keyed by title. */
    static method TitlePass(cs: seq<ConceptNode>) returns (tempMap: Dict<ConceptNode>)
      ensures tempMap == ByTitle(cs)
    {
      tempMap := EmptyDict();
      var i := 0;
      while i < |cs|
        invariant 0 <= i <= |cs|
        invariant tempMap == ByTitle(cs[..i])
      {
        ByTitleSnoc(cs, i);
        var c := cs[i];
        if c.title in tempMap.entries {
          var existing := tempMap.entries[c.title];
          existing := existing.(elements := existing.elements + c.elements);
          if |c.summary| > |existing.summary| {
            existing := existing.(summary := c.summary);
          }
          tempMap := Put(tempMap, c.title, existing);
        } else {
          tempMap := Put(tempMap, c.title, c);
        }
        i := i + 1;
      }
      assert cs[..i] == cs;
    }

    /** The second loop of `_mergeConcepts`: the title pass's concepts keyed by id. */
    static method IdPass(values: seq<ConceptNode>) returns (d: Dict<ConceptNode>)
      ensures d == ById(values)
    {
      d := EmptyDict();
      var j := 0;
      while j < |values|
        invariant 0 <= j <= |values|
        invariant d == ById(values[..j])
      {
        ByIdSnoc(values, j);
        d := Put(d, values[j].id, values[j]);
        j := j + 1;
      }
      assert values[..j] == values;
    }

    /** `_processElementsParallel`: map over the chunks, then merge; the
        merged concepts replace the dict, `processedElements` is left as
        it was. */
    method ProcessParallel(elements: seq<InputElement>, numWorkers: int, reply: Oracle)
      returns (r: Option<Dict<ConceptNode>>)
      requires Valid()
      modifies this
      ensures Valid()
      ensures r == ParallelOutcome(elements, numWorkers, reply)
      ensures r.Some? ==> concepts == r.value
      ensures r.None? ==> concepts == old(concepts)
      ensures processedElements == old(processedElements) && allElements == old(allElements)
    {
      if numWorkers <= 0 {
        return None;
      }
      var chunkSize := ChunkSize(|elements|, numWorkers);
      if chunkSize == 0 {
        return None;
      }
      var chunks := Batches(elements, chunkSize);
      var allConcepts := RunWorkers(chunks, reply);
      var merged := MergeConcepts(allConcepts);
      concepts := merged;
      r := Some(merged);
    }

    /** `processElements(elements, parallel, numWorkers)`: the elements
        are indexed by id and sorted by `global_sequence`; the parallel
        path is taken exactly when `parallel` is set and there are more
        than 20 elements. */
    method ProcessElements(elements: seq<InputElement>, parallel: bool, numWorkers: int, reply: Oracle)
      returns (r: Option<Dict<ConceptNode>>)
      requires Valid()
      modifies this
      ensures Valid() && allElements == Index(elements)
      ensures parallel && |elements| > 20 ==>
                r == ParallelOutcome(Sorted(elements), numWorkers, reply)
                && (r.Some? ==> concepts == r.value)
                && (r.None? ==> concepts == old(concepts))
                && processedElements == old(processedElements)
      ensures !(parallel && |elements| > 20) && batchSize == 0 ==> r.None? && St() == old(St())
      ensures !(parallel && |elements| > 20) && batchSize != 0 ==>
                St() == RunBatches(old(St()), Index(elements), Batches(Sorted(elements), batchSize), reply)
                && r == Some(concepts)
    {
      if parallel && |elements| > 20 {
        allElements := Index(elements);
        var sorted := Sorted(elements);
        r := ProcessParallel(sorted, numWorkers, reply);
      } else {
        r := ProcessElementsSerial(elements, reply);
      }
    }

    /** `getConceptsList()`. */
    function GetConceptsList(): (cs: seq<ConceptNode>)
      reads this
      requires Valid()
      ensures |cs| == |concepts.entries|
      ensures forall c :: c in cs <==> exists k :: k in concepts.entries && concepts.entries[k] == c
    {
      DictSize(concepts);
      var vs := concepts.Values();
      assert forall k :: k in concepts.entries ==> concepts.entries[k] in vs by {
        forall k | k in concepts.entries ensures concepts.entries[k] in vs {
          var i :| 0 <= i < |concepts.order| && concepts.order[i] == k;
          assert vs[i] == concepts.entries[k];
        }
      }
      vs
    }

    /** `getConceptById(conceptId)`. */
    function GetConceptById(conceptId: string): (c: Option<ConceptNode>)
      reads this
      ensures c.Some? <==> conceptId in concepts.entries
      ensures c.Some? ==> c.value == concepts.entries[conceptId]
    {
      if conceptId in concepts.entries then Some(concepts.entries[conceptId]) else None
    }

    /** `getStats()`: all zeros without concepts; otherwise the concept
        count, the processed count, and the average, minimum and maximum
        element counts, the average between the two. */
    function GetStats(): (s: Stats)
      reads this
      requires Valid()
      ensures concepts.entries == map[] ==> s == Stats(0, 0, 0.0, 0, 0)
      ensures concepts.entries != map[] ==>
                var counts := Counts(concepts.Values());
                s.totalConcepts == |concepts.entries| && s.totalElementsProcessed == |processedElements|
                && s.minElementsPerConcept in counts && s.maxElementsPerConcept in counts
                && (forall x :: x in counts ==> s.minElementsPerConcept <= x <= s.maxElementsPerConcept)
                && s.avgElementsPerConcept == Sum(counts) as real / |counts| as real
                && s.minElementsPerConcept as real <= s.avgElementsPerConcept <= s.maxElementsPerConcept as real
      ensures concepts.entries != map[] && WellFormed(concepts) ==> s.minElementsPerConcept >= 1
    {
      DictSize(concepts);
      if concepts.entries == map[] then Stats(0, 0, 0.0, 0, 0)
      else
        var counts := Counts(concepts.Values());
        var lo, hi := MinOf(counts), MaxOf(counts);
        CountBounds(counts);
        assert WellFormed(concepts) ==> lo >= 1 by {
          if WellFormed(concepts) {
            var i :| 0 <= i < |counts| && counts[i] == lo;
            assert concepts.order[i] in concepts.entries;
          }
        }
        Stats(|concepts.entries|, |processedElements|, Sum(counts) as real / |counts| as real, lo, hi)
    }
  }
}
