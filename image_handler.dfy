/** The image handler: a cache check, then a coordinator task that asks the
    LLM for the image's category, routes on it, and stores what it got under
    the image's hash. Futures are values: a completed one carries its
    description, a pending one the coordinator task that will resolve it.
    The LLM's replies and what the table and formula handlers return for an
    image are inputs. */
module ImageHandler {
  import opened Wrappers
  import opened Strings
  import opened ImageCache

  /** The coordinator task `_processImageAsync` submits on a miss; `hash`
      is the key it will store under, present when caching is enabled. */
  datatype Task = Coordinator(imageBytes: Bytes, hash: Option<string>)

  datatype Future = Completed(value: string) | Pending(task: Task)

  /** The `type` field of a JSON reply: missing, a string, or some other
      JSON value (`null`, a number, a list or an object). */
  datatype TypeField = TypeMissing | TypeString(text: string) | TypeOther

  /** The LLM's reply to the categorisation prompt: a JSON object with its
      `type` field, a reply that is not JSON or not a JSON object (so that
      reading its `type` raises inside the `try`), or an exception raised
      by the call. */
  datatype CategoryReply = CategoryJson(typeField: TypeField) | CategoryUnparseable | CategoryRaised

  /** What `_categorize` returns: a category name, or a value that is not a
      string, on which `_dispatch` fails when it lower-cases it. */
  datatype Category = Named(name: string) | NotAString

  /** The description prompts. */
  datatype Prompt = TextImagePrompt | ChartPrompt | DiagramPrompt | FlowchartPrompt | PhotoPrompt

  /** Where `_dispatch` sends an image. */
  datatype Target = ToTableHandler | ToFormulaHandler | Describe(prompt: Prompt)

  /** The message of the AttributeError raised by `self.llm.submit` when
      there is no LLM client. */
  const NoClientMessage := "'NoneType' object has no attribute 'submit'"

  /** `_categorize`'s answer: the `type` field, "Photo" when it is missing
      or the reply is not a JSON object, nothing when the call raised. */
  function CategoryOf(reply: CategoryReply): (c: Option<Category>)
    ensures c.None? <==> reply.CategoryRaised?
    ensures c == Some(NotAString) <==> reply == CategoryJson(TypeOther)
    ensures reply.CategoryUnparseable? || reply == CategoryJson(TypeMissing) ==> c == Some(Named("Photo"))
    ensures reply.CategoryJson? && reply.typeField.TypeString? ==> c == Some(Named(reply.typeField.text))
  {
    match reply
    case CategoryJson(TypeMissing) => Some(Named("Photo"))
    case CategoryJson(TypeString(t)) => Some(Named(t))
    case CategoryJson(TypeOther) => Some(NotAString)
    case CategoryUnparseable => Some(Named("Photo"))
    case CategoryRaised => None
  }

  /** `_dispatch`'s routing: the lower-cased category is searched for
      keywords in priority order; table and formula images fall back to
      the text prompt when the handler is missing. */
  function Route(category: string, hasTableHandler: bool, hasFormulaHandler: bool): Target {
    var cat := Lower(category);
    if Contains(cat, "table") then
      (if hasTableHandler then ToTableHandler else Describe(TextImagePrompt))
    else if Contains(cat, "math") || Contains(cat, "formula") then
      (if hasFormulaHandler then ToFormulaHandler else Describe(TextImagePrompt))
    else if Contains(cat, "chart") || Contains(cat, "graph") then Describe(ChartPrompt)
    else if Contains(cat, "diagram") || Contains(cat, "technical") then Describe(DiagramPrompt)
    else if Contains(cat, "flowchart") then Describe(FlowchartPrompt)
    else if Contains(cat, "text") then Describe(TextImagePrompt)
    else Describe(PhotoPrompt)
  }

  /** Routing ignores case. */
  lemma RouteIgnoresCase(category: string, hasTableHandler: bool, hasFormulaHandler: bool)
    ensures Route(Lower(category), hasTableHandler, hasFormulaHandler)
         == Route(category, hasTableHandler, hasFormulaHandler)
  {
    LowerIdempotent(category);
  }

  /** A table category always goes to the table handler, or to the text
      prompt without one, whatever else the category mentions. */
  lemma TableComesFirst(category: string, hasTableHandler: bool, hasFormulaHandler: bool)
    requires Contains(Lower(category), "table")
    ensures Route(category, hasTableHandler, hasFormulaHandler)
         == if hasTableHandler then ToTableHandler else Describe(TextImagePrompt)
  {
  }

  /** The flowchart prompt is never chosen: every category containing
      "flowchart" contains "chart", which is tested first. */
  lemma {:induction false} FlowchartUnreachable(category: string, hasTableHandler: bool, hasFormulaHandler: bool)
    ensures Route(category, hasTableHandler, hasFormulaHandler) != Describe(FlowchartPrompt)
  {
    var cat := Lower(category);
    if Contains(cat, "flowchart") {
      assert Contains("flowchart", "chart") by {
        assert "chart" <= "flowchart"[4..];
        assert "flowchart"[1..][1..][1..][1..] == "flowchart"[4..];
      }
      ContainsTransitive(cat, "flowchart", "chart");
    }
  }

  /** A category the LLM did not supply is described as a photo. */
  lemma DefaultIsPhoto(hasTableHandler: bool, hasFormulaHandler: bool)
    ensures Route(CategoryOf(CategoryUnparseable).value.name, hasTableHandler, hasFormulaHandler) == Describe(PhotoPrompt)
    ensures Route(CategoryOf(CategoryJson(TypeMissing)).value.name, hasTableHandler, hasFormulaHandler) == Describe(PhotoPrompt)
  {
    var cat := Lower("Photo");
    assert cat == "photo";
    NotContainedInPhoto("table");
    NotContainedInPhoto("math");
    NotContainedInPhoto("formula");
    NotContainedInPhoto("chart");
    NotContainedInPhoto("graph");
    NotContainedInPhoto("diagram");
    NotContainedInPhoto("technical");
    NotContainedInPhoto("flowchart");
    NotContainedInPhoto("text");
  }

  lemma NotContainedInPhoto(word: string)
    requires word in {"table", "math", "formula", "chart", "graph", "diagram", "technical", "flowchart", "text"}
    ensures !Contains("photo", word)
  {
    NotContainsLonger("oto", word);
    assert "hoto"[1..] == "oto";
    NotContainsStep("hoto", word);
    assert "photo"[1..] == "hoto";
    NotContainsStep("photo", word);
  }

  /** What a coordinator task resolves its future to (`None`: the future
      holds an exception). */
  function Dispatched(target: Target, tableJson: string, formulaJson: string, description: Option<string>): Option<string> {
    match target
    case ToTableHandler => Some(tableJson)
    case ToFormulaHandler => Some(formulaJson)
    case Describe(_) => description
  }

  /** A coordinator fails when categorising raises or the category is not
      a string. */
  function CoordinatorResult(reply: CategoryReply, hasTableHandler: bool, hasFormulaHandler: bool,
                             tableJson: string, formulaJson: string, description: Option<string>): (r: Option<string>)
    ensures reply.CategoryRaised? || reply == CategoryJson(TypeOther) ==> r.None?
  {
    match CategoryOf(reply)
    case None => None
    case Some(NotAString) => None
    case Some(Named(c)) => Dispatched(Route(c, hasTableHandler, hasFormulaHandler), tableJson, formulaJson, description)
  }

  /** LLM calls a coordinator task makes: one to categorise, and one more
      when the category is a name described by a prompt. */
  function CoordinatorCalls(reply: CategoryReply, hasTableHandler: bool, hasFormulaHandler: bool): (n: nat)
    ensures 1 <= n <= 2
  {
    match CategoryOf(reply)
    case None => 1
    case Some(NotAString) => 1
    case Some(Named(c)) => if Route(c, hasTableHandler, hasFormulaHandler).Describe? then 2 else 1
  }

  /** The statistics `getStats` reports. */
  datatype Stats = Stats(apiCalls: nat, cacheHits: nat, totalRequests: nat, totalCached: Option<nat>)

  class ImageHandler {
    const hasLlm: bool
    const enableCache: bool
    const cache: ImageCache?
    const hasTableHandler: bool
    const hasFormulaHandler: bool
    var apiCallCount: nat
    var cacheHitCount: nat

    ghost predicate Valid()
      reads this
    {
      enableCache <==> cache != null
    }

    /** `ImageHandler(...)`: a cache exactly when caching is enabled, and
        both counters at zero. */
    constructor (hasLlm: bool, enableCache: bool, hashOf: Bytes -> string, file: Option<map<string, string>>,
                 hasTableHandler: bool, hasFormulaHandler: bool)
      ensures Valid()
      ensures this.hasLlm == hasLlm && this.enableCache == enableCache
      ensures this.hasTableHandler == hasTableHandler && this.hasFormulaHandler == hasFormulaHandler
      ensures apiCallCount == 0 && cacheHitCount == 0
      ensures enableCache ==> fresh(cache) && cache.hashOf == hashOf && cache.file == file
                              && cache.cache == (if file.Some? then file.value else map[])
    {
      this.hasLlm := hasLlm;
      this.enableCache := enableCache;
      this.hasTableHandler := hasTableHandler;
      this.hasFormulaHandler := hasFormulaHandler;
      if enableCache {
        cache := new ImageCache(hashOf, file);
      } else {
        cache := null;
      }
      apiCallCount := 0;
      cacheHitCount := 0;
    }

    /** The hash a coordinator task stores under. */
    function HashFor(imageBytes: Bytes): (h: Option<string>)
      requires Valid()
      reads this, cache
      ensures h.Some? <==> enableCache
    {
      if enableCache then Some(cache.hashOf(imageBytes)) else None
    }

    /** The cached description that short-circuits a request: one stored
        under the image's hash, and not empty. */
    function Cached(imageBytes: Bytes): (r: Option<string>)
      requires Valid()
      reads this, cache
      ensures r.Some? <==> enableCache && Truthy(cache.Get(cache.hashOf(imageBytes)))
      ensures r.Some? ==> r == cache.Get(cache.hashOf(imageBytes))
    {
      if enableCache then
        var d := cache.Get(cache.hashOf(imageBytes));
        if Truthy(d) then d else None
      else None
    }

    /** `_processImageAsync`: a hit counts and completes at once without an
        LLM call; a miss, an empty cached text included, submits exactly
        one coordinator task (`None`: the submission raised, as it does
        without an LLM client). */
    method ProcessImageAsync(imageBytes: Bytes) returns (f: Option<Future>)
      requires Valid()
      modifies this`cacheHitCount
      ensures Cached(imageBytes).Some? ==>
                f == Some(Completed(Cached(imageBytes).value)) && cacheHitCount == old(cacheHitCount) + 1
      ensures Cached(imageBytes).None? ==>
                cacheHitCount == old(cacheHitCount)
                && f == (if hasLlm then Some(Pending(Coordinator(imageBytes, HashFor(imageBytes)))) else None)
    {
      var h: Option<string> := None;
      if enableCache {
        h := Some(cache.hashOf(imageBytes));
        var cached := cache.Get(h.value);
        if Truthy(cached) {
          cacheHitCount := cacheHitCount + 1;
          return Some(Completed(cached.value));
        }
      }
      if !hasLlm {
        return None;
      }
      return Some(Pending(Coordinator(imageBytes, h)));
    }

    /** `handlePptxAsync` and `handlePdfAsync`: reading the image bytes or
        processing them may raise; either way the caller gets a future
        completed with the error text. */
    method HandleAsync(src: ImageSource) returns (f: Future)
      requires Valid()
      modifies this`cacheHitCount
      ensures src.ReadError? ==> f == Completed(ErrorText(src.message)) && cacheHitCount == old(cacheHitCount)
      ensures src.Read? && Cached(src.bytes).Some? ==>
                f == Completed(Cached(src.bytes).value) && cacheHitCount == old(cacheHitCount) + 1
      ensures src.Read? && Cached(src.bytes).None? ==>
                cacheHitCount == old(cacheHitCount)
                && f == (if hasLlm then Pending(Coordinator(src.bytes, HashFor(src.bytes)))
                         else Completed(ErrorText(NoClientMessage)))
    {
      match src
      case ReadError(message) =>
        f := Completed(ErrorText(message));
      case Read(imageBytes) =>
        var fut := ProcessImageAsync(imageBytes);
        if fut.None? {
          f := Completed(ErrorText(NoClientMessage));
        } else {
          f := fut.value;
        }
    }

    /** `_categorize`: one LLM call, counted. */
    method Categorize(reply: CategoryReply) returns (category: Option<Category>)
      modifies this`apiCallCount
      ensures apiCallCount == old(apiCallCount) + 1
      ensures category == CategoryOf(reply)
    {
      apiCallCount := apiCallCount + 1;
      category := CategoryOf(reply);
    }

    /** `_dispatch`: the handlers' JSON for tables and formulas, otherwise
        one counted description call (`None`: the call raised). */
    method Dispatch(category: string, tableJson: string, formulaJson: string, description: Option<string>)
      returns (r: Option<string>)
      modifies this`apiCallCount
      ensures r == Dispatched(Route(category, hasTableHandler, hasFormulaHandler), tableJson, formulaJson, description)
      ensures apiCallCount == old(apiCallCount)
                              + if Route(category, hasTableHandler, hasFormulaHandler).Describe? then 1 else 0
    {
      var target := Route(category, hasTableHandler, hasFormulaHandler);
      match target
      case ToTableHandler => r := Some(tableJson);
      case ToFormulaHandler => r := Some(formulaJson);
      case Describe(_) =>
        apiCallCount := apiCallCount + 1;
        r := description;
    }

    /** The coordinator: categorise, dispatch, and store the result under
        the job's hash before resolving the future; a call that raises
        resolves the future with the exception and stores nothing. A
        non-empty stored result makes the next request for the same image
        a hit. */
    method RunCoordinator(task: Task, reply: CategoryReply, tableJson: string, formulaJson: string,
                          description: Option<string>, writable: bool) returns (r: Option<string>)
      requires Valid()
      requires task.hash.Some? ==> enableCache
      modifies this`apiCallCount, cache
      ensures r == CoordinatorResult(reply, hasTableHandler, hasFormulaHandler, tableJson, formulaJson, description)
      ensures apiCallCount == old(apiCallCount) + CoordinatorCalls(reply, hasTableHandler, hasFormulaHandler)
      ensures enableCache && r.Some? && task.hash.Some? ==>
                cache.cache == old(cache.cache)[task.hash.value := r.value]
                && (writable ==> cache.file == Some(cache.cache))
      ensures enableCache && !(r.Some? && task.hash.Some?) ==> cache.cache == old(cache.cache)
      ensures enableCache && !(r.Some? && task.hash.Some? && writable) ==> cache.file == old(cache.file)
      ensures r.Some? && r.value != "" && task.hash == HashFor(task.imageBytes) && enableCache ==>
                Cached(task.imageBytes) == r
    {
      var category := Categorize(reply);
      if category.None? || category.value.NotAString? {
        return None;
      }
      r := Dispatch(category.value.name, tableJson, formulaJson, description);
      if r.Some? && enableCache && task.hash.Some? {
        cache.Set(task.hash.value, r.value, writable);
      }
    }

    /** `handlePptx` and `handlePdf`: the future's result, waited for; the
        coordinator runs when the future is pending (`None`: `result()`
        raises the coordinator's exception). A hit is counted once and
        changes nothing else; a miss that reaches the coordinator counts its
        LLM calls and stores a result under the image's hash, so that a
        non-empty one is a hit next time. */
    method Handle(src: ImageSource, reply: CategoryReply, tableJson: string, formulaJson: string,
                  description: Option<string>, writable: bool) returns (r: Option<string>)
      requires Valid()
      modifies this`apiCallCount, this`cacheHitCount, cache
      ensures src.ReadError? ==> r == Some(ErrorText(src.message))
      ensures src.Read? && old(Cached(src.bytes)).Some? ==> r == old(Cached(src.bytes))
      ensures src.Read? && old(Cached(src.bytes)).None? ==>
                r == if hasLlm then CoordinatorResult(reply, hasTableHandler, hasFormulaHandler, tableJson, formulaJson, description)
                     else Some(ErrorText(NoClientMessage))
      ensures cacheHitCount == old(cacheHitCount) + if src.Read? && old(Cached(src.bytes)).Some? then 1 else 0
      ensures apiCallCount == old(apiCallCount)
                              + if src.Read? && old(Cached(src.bytes)).None? && hasLlm
                                then CoordinatorCalls(reply, hasTableHandler, hasFormulaHandler) else 0
      ensures enableCache && src.Read? && old(Cached(src.bytes)).None? && hasLlm && r.Some? ==>
                cache.cache == old(cache.cache)[cache.hashOf(src.bytes) := r.value]
      ensures enableCache && !(src.Read? && old(Cached(src.bytes)).None? && hasLlm && r.Some?) ==>
                cache.cache == old(cache.cache)
      ensures enableCache ==>
                cache.file == if src.Read? && old(Cached(src.bytes)).None? && hasLlm && r.Some? && writable
                              then Some(cache.cache) else old(cache.file)
      ensures enableCache && src.Read? && (old(Cached(src.bytes)).Some? || hasLlm) && r.Some? && r.value != "" ==>
                Cached(src.bytes) == r
    {
      var f := HandleAsync(src);
      match f
      case Completed(v) => r := Some(v);
      case Pending(task) => r := RunCoordinator(task, reply, tableJson, formulaJson, description, writable);
    }

    /** `getStats`: total requests are API calls plus cache hits; the cache's
        size is reported when caching is enabled. */
    function GetStats(): (s: Stats)
      requires Valid()
      reads this, cache
      ensures s.apiCalls == apiCallCount && s.cacheHits == cacheHitCount
      ensures s.totalRequests == s.apiCalls + s.cacheHits
      ensures s.totalCached.Some? <==> enableCache
      ensures enableCache ==> s.totalCached == Some(|cache.cache|)
    {
      Stats(apiCallCount, cacheHitCount, apiCallCount + cacheHitCount,
            if enableCache then Some(cache.TotalCached()) else None)
    }
  }
}
