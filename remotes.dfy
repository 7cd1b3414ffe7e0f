/**
 * The Remote interface of main.go as a sum type over the backends, and the Cache
 * decorator of cache.go, which composes two Remotes: `Of` is the authoritative
 * origin, `By` the cache. Reads go through the cache, writes go to both.
 */
module Remotes {
  import opened Base
  import opened Os
  import FileStore
  import LocalStore

  datatype Remote =
    | FS(root: Path, prefix: Path)
    | Local(path: Path)
    | Cache(By: Remote, Of: Remote)

  /** Every path at which r may store the blob for key. */
  function Paths(r: Remote, key: Key): set<Path> {
    match r
    case FS(root, prefix) => {FileStore.KeyPath(root, prefix, key)}
    case Local(path) => {LocalStore.BlobPath(path, key)}
    case Cache(By, Of) => Paths(By, key) + Paths(Of, key)
  }

  /** The state and result of Get(key) in state d; it changes nothing outside the key's paths. */
  function Fetch(r: Remote, key: Key, d: Disk): (res: (Disk, Result<Bytes, Error>))
    ensures SameOutside(d, res.0, Paths(r, key))
    decreases r
  {
    match r
    case FS(root, prefix) => (d, FileStore.Fetch(root, prefix, key, d))
    case Local(path) => (d, LocalStore.Fetch(path, key, d))
    case Cache(By, Of) =>
      var (d1, cached) := Fetch(By, key, d);
      if cached.Ok? then (d1, cached)
      else
        var (d2, content) := Fetch(Of, key, d1);
        if content.Err? then (d2, content)
        else
          var (d3, w) := Store(By, key, content.value, d2);
          if w.Fail? then (d3, Err(w.error)) else (d3, content)
  }

  /** The state and result of Write(key, value) in state d; it writes only value, only at the key's paths. */
  function Store(r: Remote, key: Key, value: Bytes, d: Disk): (res: (Disk, Outcome<Error>))
    ensures WritesOnly(d, res.0, Paths(r, key), value)
    decreases r
  {
    match r
    case FS(root, prefix) => FileStore.Store(root, prefix, key, value, d)
    case Local(path) => LocalStore.Store(path, key, value, d)
    case Cache(By, Of) =>
      var (d1, w) := Store(Of, key, value, d);
      if w.Fail? then (d1, w) else Store(By, key, value, d1)
  }

  /** Remote.Get, dispatched on the backend. */
  method Get(r: Remote, key: Key, fs: FileSystem) returns (res: Result<Bytes, Error>)
    modifies fs
    ensures (fs.State(), res) == Fetch(r, key, old(fs.State()))
    decreases r, 1
  {
    match r
    case FS(root, prefix) => res := FileStore.Get(root, prefix, key, fs);
    case Local(path) => res := LocalStore.Get(path, key, fs);
    case Cache(By, Of) => res := CacheGet(By, Of, key, fs);
  }

  /** Remote.Write, dispatched on the backend. */
  method Write(r: Remote, key: Key, value: Bytes, fs: FileSystem) returns (res: Outcome<Error>)
    modifies fs
    ensures (fs.State(), res) == Store(r, key, value, old(fs.State()))
    decreases r, 1
  {
    match r
    case FS(root, prefix) => res := FileStore.Write(root, prefix, key, value, fs);
    case Local(path) => res := LocalStore.Write(path, key, value, fs);
    case Cache(By, Of) => res := CacheWrite(By, Of, key, value, fs);
  }

  /** Cache.Get: a hit in `By` is returned at once; any `By` error is a miss, served by
      `Of` and then stored in `By`, and a failure to store fails the whole Get. */
  method CacheGet(By: Remote, Of: Remote, key: Key, fs: FileSystem) returns (res: Result<Bytes, Error>)
    modifies fs
    ensures (fs.State(), res) == Fetch(Cache(By, Of), key, old(fs.State()))
    decreases Cache(By, Of), 0
  {
    var cached := Get(By, key, fs);
    if cached.Ok? {
      return cached;
    }
    var content := Get(Of, key, fs);
    if content.Err? {
      return content;
    }
    var w := Write(By, key, content.value, fs);
    if w.Fail? {
      return Err(w.error);
    }
    res := content;
  }

  /** Cache.Write: `Of` first, and `By` only once `Of` succeeded. */
  method CacheWrite(By: Remote, Of: Remote, key: Key, value: Bytes, fs: FileSystem) returns (res: Outcome<Error>)
    modifies fs
    ensures (fs.State(), res) == Store(Cache(By, Of), key, value, old(fs.State()))
    decreases Cache(By, Of), 0
  {
    var w := Write(Of, key, value, fs);
    if w.Fail? {
      return w;
    }
    res := Write(By, key, value, fs);
  }

  /** Content addressing: whatever r already stores under key is value. */
  ghost predicate Agrees(r: Remote, key: Key, value: Bytes, d: Disk) {
    forall p :: p in Paths(r, key) ==> Lookup(d, p) == None || Lookup(d, p) == Some(value)
  }

  /** Every path of r for key holds value. */
  ghost predicate Holds(r: Remote, key: Key, value: Bytes, d: Disk) {
    forall p :: p in Paths(r, key) ==> Lookup(d, p) == Some(value)
  }

  /** No path of r for key is refused by the file system. */
  predicate Readable(r: Remote, key: Key, d: Disk) {
    Paths(r, key) !! d.denied
  }

  /** A successful Write leaves value at every path of the key, given content addressing. */
  lemma {:induction false} StoreFills(r: Remote, key: Key, value: Bytes, d: Disk)
    requires Agrees(r, key, value, d)
    requires Store(r, key, value, d).1 == Pass
    ensures Holds(r, key, value, Store(r, key, value, d).0)
    decreases r
  {
    match r
    case FS(_, _) =>
    case Local(_) =>
    case Cache(By, Of) =>
      var d1 := Store(Of, key, value, d).0;
      StoreFills(Of, key, value, d);
      assert Agrees(By, key, value, d1);
      StoreFills(By, key, value, d1);
  }

  /** When every path of the key holds value and is readable, Get returns value and changes nothing. */
  lemma {:induction false} FetchHeld(r: Remote, key: Key, value: Bytes, d: Disk)
    requires Holds(r, key, value, d) && Readable(r, key, d)
    ensures Fetch(r, key, d) == (d, Ok(value))
    decreases r
  {
    match r
    case FS(root, prefix) =>
      assert FileStore.KeyPath(root, prefix, key) in Paths(r, key);
    case Local(path) =>
      assert LocalStore.BlobPath(path, key) in Paths(r, key);
    case Cache(By, Of) =>
      FetchHeld(By, key, value, d);
  }

  /** A Remote's Get returns what its successful Write stored. */
  lemma WriteThenGet(r: Remote, key: Key, value: Bytes, d: Disk)
    requires Agrees(r, key, value, d) && Readable(r, key, d)
    requires Store(r, key, value, d).1 == Pass
    ensures var d1 := Store(r, key, value, d).0; Fetch(r, key, d1) == (d1, Ok(value))
  {
    var d1 := Store(r, key, value, d).0;
    StoreFills(r, key, value, d);
    FetchHeld(r, key, value, d1);
  }

  /** On a hit in `By`, Get returns By's bytes, and the origin is never consulted:
      any other origin gives the same state and result. */
  lemma CacheHitIgnoresOrigin(By: Remote, Of: Remote, other: Remote, key: Key, d: Disk)
    requires Fetch(By, key, d).1.Ok?
    ensures Fetch(Cache(By, Of), key, d) == Fetch(By, key, d)
    ensures Fetch(Cache(By, other), key, d) == Fetch(Cache(By, Of), key, d)
  {
  }

  /** Any `By` error is a miss: the origin's error is returned as is and `By` is not written;
      the origin's content is returned exactly when storing it in `By` succeeds. */
  lemma CacheMiss(By: Remote, Of: Remote, key: Key, d: Disk)
    requires Fetch(By, key, d).1.Err?
    ensures var d1 := Fetch(By, key, d).0;
      var (d2, content) := Fetch(Of, key, d1);
      var (d3, got) := Fetch(Cache(By, Of), key, d);
      && (content.Err? ==> (d3, got) == (d2, content))
      && (content.Ok? ==> (d3 == Store(By, key, content.value, d2).0 &&
                          (got.Ok? <==> Store(By, key, content.value, d2).1 == Pass) &&
                          (got.Ok? ==> got == content)))
  {
  }

  /** Cache.Write writes `Of` first: when that fails, its error is the result and nothing outside
      Of's paths changes, so `By` is not touched. */
  lemma CacheWriteOriginFails(By: Remote, Of: Remote, key: Key, value: Bytes, d: Disk)
    requires Store(Of, key, value, d).1.Fail?
    ensures Store(Cache(By, Of), key, value, d).1 == Store(Of, key, value, d).1
    ensures SameOutside(d, Store(Cache(By, Of), key, value, d).0, Paths(Of, key))
  {
  }

  /** Once `Of` is written, a failure of `By` is the result of Cache.Write, although the origin
      already holds the value. */
  lemma CacheWriteCacheFails(By: Remote, Of: Remote, key: Key, value: Bytes, d: Disk)
    requires Agrees(Of, key, value, d)
    requires Store(Of, key, value, d).1 == Pass
    requires Store(By, key, value, Store(Of, key, value, d).0).1.Fail?
    ensures Store(Cache(By, Of), key, value, d).1 == Store(By, key, value, Store(Of, key, value, d).0).1
    ensures Holds(Of, key, value, Store(Cache(By, Of), key, value, d).0)
  {
    StoreFills(Of, key, value, d);
  }

  /** After a successful Cache.Write, Get returns value from `By` without calling any origin. */
  lemma CacheWriteThenGet(By: Remote, Of: Remote, other: Remote, key: Key, value: Bytes, d: Disk)
    requires Agrees(Cache(By, Of), key, value, d) && Readable(By, key, d)
    requires Store(Cache(By, Of), key, value, d).1 == Pass
    ensures var d1 := Store(Cache(By, Of), key, value, d).0;
      Fetch(Cache(By, other), key, d1) == (d1, Ok(value))
  {
    var d1 := Store(Cache(By, Of), key, value, d).0;
    StoreFills(Cache(By, Of), key, value, d);
    FetchHeld(By, key, value, d1);
  }

  /** A Get that misses the cache but hits the origin promotes the blob: `By` alone then serves it. */
  lemma CachePromotes(By: Remote, Of: Remote, key: Key, d: Disk)
    requires !By.Cache?
    requires Readable(By, key, d) && Paths(By, key) !! Paths(Of, key)
    requires Fetch(By, key, d).1.Err?
    requires Fetch(Cache(By, Of), key, d).1.Ok?
    ensures var (d3, got) := Fetch(Cache(By, Of), key, d); Fetch(By, key, d3) == (d3, got)
  {
    var (d2, content) := Fetch(Of, key, d);
    assert Agrees(By, key, content.value, d2) by {
      forall p | p in Paths(By, key) ensures Lookup(d2, p) == None {
        assert Lookup(d2, p) == Lookup(d, p);
      }
    }
    StoreFills(By, key, content.value, d2);
    FetchHeld(By, key, content.value, Store(By, key, content.value, d2).0);
  }
}
