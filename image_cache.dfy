/** The file-backed description cache shared, line for line, by the image
    handler and its legacy copy: a map from an image's hash to its
    description, loaded from `descriptions.json` and written back after
    every update. What both handlers put in a future that failed before the
    LLM was reached is also here. */
module ImageCache {
  import opened Wrappers

  type Bytes = seq<bv8>

  /** Where a handler's image bytes come from: the bytes, or the message of
      the exception raised while reading the shape's image or rendering the
      page region. */
  datatype ImageSource = Read(bytes: Bytes) | ReadError(message: string)

  /** `f"<ERROR: {str(e)}>"`: the description a failed read resolves to. */
  function ErrorText(message: string): (r: string)
    ensures |r| == |message| + 9
    ensures r[..8] == "<ERROR: " && r[8..|r| - 1] == message && r[|r| - 1] == '>'
  {
    "<ERROR: " + message + ">"
  }

  class ImageCache {
    /** `getImageHash`: the hex SHA-256 digest of the bytes. */
    const hashOf: Bytes -> string
    /** The in-memory map. */
    var cache: map<string, string>
    /** What `descriptions.json` holds: `None` when it is missing or is not
        valid JSON. A file that holds valid JSON other than an object whose
        values are strings has no value here: the model does not cover it. */
    var file: Option<map<string, string>>

    /** `ImageCache(cacheDir)`: the cache loads the file's map, or starts
        empty when the file is missing or is not valid JSON. */
    constructor (hashOf: Bytes -> string, file: Option<map<string, string>>)
      ensures this.hashOf == hashOf && this.file == file
      ensures file.None? ==> cache == map[]
      ensures file.Some? ==> cache == file.value
    {
      this.hashOf := hashOf;
      this.file := file;
      cache := if file.Some? then file.value else map[];
    }

    /** `get(h)`: the description stored under `h`, or `None`. */
    function Get(h: string): (r: Option<string>)
      reads this
      ensures r.Some? <==> h in cache
      ensures r.Some? ==> r.value == cache[h]
    {
      if h in cache then Some(cache[h]) else None
    }

    /** `has(h)` (legacy copy only): whether `get(h)` finds something. */
    predicate Has(h: string)
      reads this
      ensures Has(h) <==> Get(h).Some?
    {
      h in cache
    }

    /** `set(h, d)`: the last write under `h` wins, every other key keeps
        its description, and when the file can be written it afterwards
        holds the whole in-memory map (a failed write is ignored). */
    method Set(h: string, d: string, writable: bool)
      modifies this
      ensures cache == old(cache)[h := d]
      ensures Get(h) == Some(d)
      ensures forall k :: k != h ==> Get(k) == old(Get(k))
      ensures file == if writable then Some(cache) else old(file)
    {
      cache := cache[h := d];
      if writable {
        file := Some(cache);
      }
    }

    /** `stats()['total_cached']`. */
    function TotalCached(): (n: nat)
      reads this
      ensures n == |cache.Keys|
    {
      |cache|
    }
  }

  /** A write that reached the file survives a restart: a cache loaded
      afterwards from the file finds what was written. */
  method ReloadAfterSet(c: ImageCache, h: string, d: string) returns (reloaded: ImageCache)
    modifies c
    ensures c.cache == old(c.cache)[h := d]
    ensures fresh(reloaded) && reloaded.cache == c.cache && reloaded.Get(h) == Some(d)
  {
    c.Set(h, d, true);
    reloaded := new ImageCache(c.hashOf, c.file);
  }
}
