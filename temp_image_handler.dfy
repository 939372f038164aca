/** The legacy image handler: a cache check, then one description request
    whose answer is cached by a second task before it resolves the caller's
    future. Futures are values; the HTTP reply and the image decoder's
    failure are inputs. */
module TempImageHandler {
  import opened Wrappers
  import opened Strings
  import opened ImageCache

  /** What the description endpoint answered: a 200 reply with the
      message content, another status with its body, or an exception
      (network failure, missing field). */
  datatype ApiReply = Ok(content: string) | HttpError(code: nat, body: string) | Raised(message: string)

  /** The job that will resolve a miss's future; `hash` is the key its
      result is cached under, present when caching is enabled. */
  datatype Task = DescribeTask(hash: Option<string>)

  datatype Future = Completed(value: string) | Pending(task: Task)

  const NoClientMessage := "'NoneType' object has no attribute 'submit'"

  /** `_callOpenAI`: never raises; every failure becomes an error text. */
  function Described(reply: ApiReply): (d: string)
    ensures reply.Ok? ==> d == reply.content
    ensures !reply.Ok? ==> |d| >= 9 && d[..8] == "<ERROR: " && d[|d| - 1] == '>'
  {
    match reply
    case Ok(content) => content
    case HttpError(code, body) => ErrorText("API returned " + Decimal(code) + ": " + Prefix(body, 100))
    case Raised(message) => ErrorText(message)
  }

  datatype Stats = Stats(apiCalls: nat, cacheHits: nat, totalRequests: nat, totalCached: Option<nat>)

  class ImageHandler {
    const hasLlm: bool
    const enableCache: bool
    const cache: ImageCache?
    var apiCallCount: nat
    var cacheHitCount: nat

    ghost predicate Valid()
      reads this
    {
      enableCache <==> cache != null
    }

    constructor (hasLlm: bool, enableCache: bool, hashOf: Bytes -> string, file: Option<map<string, string>>)
      ensures Valid()
      ensures this.hasLlm == hasLlm && this.enableCache == enableCache
      ensures apiCallCount == 0 && cacheHitCount == 0
      ensures enableCache ==> fresh(cache) && cache.hashOf == hashOf && cache.file == file
                              && cache.cache == (if file.Some? then file.value else map[])
    {
      this.hasLlm := hasLlm;
      this.enableCache := enableCache;
      if enableCache {
        cache := new ImageCache(hashOf, file);
      } else {
        cache := null;
      }
      apiCallCount := 0;
      cacheHitCount := 0;
    }

    function HashFor(imageBytes: Bytes): (h: Option<string>)
      requires Valid()
      reads this, cache
      ensures h.Some? <==> enableCache
    {
      if enableCache then Some(cache.hashOf(imageBytes)) else None
    }

    /** The cached description that short-circuits a request: stored under
        the image's hash, and not empty. */
    function Cached(imageBytes: Bytes): (r: Option<string>)
      requires Valid()
      reads this, cache
      ensures r.Some? <==> enableCache && Truthy(cache.Get(cache.hashOf(imageBytes)))
      ensures r.Some? ==> r == cache.Get(cache.hashOf(imageBytes))
    {
      if enableCache then
        var d := cache.Get(cache.hashOf(imageBytes));
        if Truthy(d) then d else None
      else None
    }

    /** `handlePptxAsync` and `handlePdfAsync` (identical after the bytes
        are read): a hit counts and completes at once with no API call; a
        miss counts exactly one API call once the image decodes, and its
        future is pending when the request could be submitted. Every
        exception becomes a future completed with the error text. */
    method HandleAsync(src: ImageSource, decodeError: Option<string>) returns (f: Future)
      requires Valid()
      modifies this`apiCallCount, this`cacheHitCount
      ensures src.ReadError? ==>
                f == Completed(ErrorText(src.message))
                && apiCallCount == old(apiCallCount) && cacheHitCount == old(cacheHitCount)
      ensures src.Read? && Cached(src.bytes).Some? ==>
                f == Completed(Cached(src.bytes).value)
                && apiCallCount == old(apiCallCount) && cacheHitCount == old(cacheHitCount) + 1
      ensures src.Read? && Cached(src.bytes).None? && decodeError.Some? ==>
                f == Completed(ErrorText(decodeError.value))
                && apiCallCount == old(apiCallCount) && cacheHitCount == old(cacheHitCount)
      ensures src.Read? && Cached(src.bytes).None? && decodeError.None? ==>
                apiCallCount == old(apiCallCount) + 1 && cacheHitCount == old(cacheHitCount)
                && f == (if hasLlm then Pending(DescribeTask(HashFor(src.bytes)))
                         else Completed(ErrorText(NoClientMessage)))
    {
      if src.ReadError? {
        return Completed(ErrorText(src.message));
      }
      var imageBytes := src.bytes;
      if enableCache {
        var cachedDesc := cache.Get(cache.hashOf(imageBytes));
        if Truthy(cachedDesc) {
          cacheHitCount := cacheHitCount + 1;
          return Completed(cachedDesc.value);
        }
      }
      if decodeError.Some? {
        return Completed(ErrorText(decodeError.value));
      }
      apiCallCount := apiCallCount + 1;
      if !hasLlm {
        return Completed(ErrorText(NoClientMessage));
      }
      f := Pending(DescribeTask(HashFor(imageBytes)));
    }

    /** The pending request and its caching task: the description (an
        error text included) is stored under the job's hash before the
        future resolves, so a non-empty one, error texts among them, is
        served from the cache from then on. */
    method RunTask(task: Task, imageBytes: Bytes, reply: ApiReply, writable: bool) returns (r: string)
      requires Valid()
      requires task.hash.Some? ==> enableCache
      modifies cache
      ensures r == Described(reply)
      ensures enableCache && task.hash.Some? ==>
                cache.cache == old(cache.cache)[task.hash.value := r]
                && (writable ==> cache.file == Some(cache.cache))
      ensures enableCache && task.hash.None? ==> cache.cache == old(cache.cache)
      ensures enableCache && !(task.hash.Some? && writable) ==> cache.file == old(cache.file)
      ensures enableCache && task.hash == HashFor(imageBytes) && r != "" ==> Cached(imageBytes) == Some(r)
    {
      r := Described(reply);
      if task.hash.Some? {
        cache.Set(task.hash.value, r, writable);
      }
    }

    /** `handlePptx` and `handlePdf`: the future's result, which is always
        a string (the request never raises). A hit is counted once and
        changes nothing else; a miss whose image decodes counts one API
        call, and with a client its description is stored under the image's
        hash, so that a non-empty one is a hit next time. */
    method Handle(src: ImageSource, decodeError: Option<string>, reply: ApiReply, writable: bool) returns (r: string)
      requires Valid()
      modifies this`apiCallCount, this`cacheHitCount, cache
      ensures src.ReadError? ==> r == ErrorText(src.message)
      ensures src.Read? && old(Cached(src.bytes)).Some? ==> r == old(Cached(src.bytes)).value
      ensures src.Read? && old(Cached(src.bytes)).None? && decodeError.Some? ==> r == ErrorText(decodeError.value)
      ensures src.Read? && old(Cached(src.bytes)).None? && decodeError.None? ==>
                r == if hasLlm then Described(reply) else ErrorText(NoClientMessage)
      ensures cacheHitCount == old(cacheHitCount) + if src.Read? && old(Cached(src.bytes)).Some? then 1 else 0
      ensures apiCallCount == old(apiCallCount)
                              + if src.Read? && old(Cached(src.bytes)).None? && decodeError.None? then 1 else 0
      ensures enableCache && src.Read? && old(Cached(src.bytes)).None? && decodeError.None? && hasLlm ==>
                cache.cache == old(cache.cache)[cache.hashOf(src.bytes) := r]
      ensures enableCache && !(src.Read? && old(Cached(src.bytes)).None? && decodeError.None? && hasLlm) ==>
                cache.cache == old(cache.cache)
      ensures enableCache ==>
                cache.file == if src.Read? && old(Cached(src.bytes)).None? && decodeError.None? && hasLlm && writable
                              then Some(cache.cache) else old(cache.file)
      ensures enableCache && src.Read? && (old(Cached(src.bytes)).Some? || (decodeError.None? && hasLlm)) && r != "" ==>
                Cached(src.bytes) == Some(r)
    {
      var f := HandleAsync(src, decodeError);
      match f
      case Completed(v) => r := v;
      case Pending(task) => r := RunTask(task, src.bytes, reply, writable);
    }

    /** `getStats`: total requests are API calls plus cache hits. */
    function GetStats(): (s: Stats)
      requires Valid()
      reads this, cache
      ensures s.apiCalls == apiCallCount && s.cacheHits == cacheHitCount
      ensures s.totalRequests == s.apiCalls + s.cacheHits
      ensures s.totalCached.Some? <==> enableCache
      ensures enableCache ==> s.totalCached == Some(|cache.cache|)
    {
      Stats(apiCallCount, cacheHitCount, apiCallCount + cacheHitCount,
            if enableCache then Some(cache.TotalCached()) else None)
    }
  }

  /** A failed request is cached like a description: after the API
      answers with an error status, the same image is a hit whose
      description is the error text. */
  method ErrorIsCached(h: ImageHandler, imageBytes: Bytes, code: nat, body: string) returns (r: string)
    requires h.Valid() && h.enableCache && h.hasLlm
    requires h.Cached(imageBytes).None?
    modifies h, h.cache
    ensures |r| >= 9 && r[..8] == "<ERROR: "
    ensures h.Cached(imageBytes) == Some(r)
  {
    var f := h.HandleAsync(Read(imageBytes), None);
    r := h.RunTask(f.task, imageBytes, HttpError(code, body), true);
  }
}
