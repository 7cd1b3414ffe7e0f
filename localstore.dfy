/**
 * The local-directory Remote backend of local.go: the blob for a key is the file
 * path/key, and a write overwrites it unconditionally (not write-once).
 */
module LocalStore {
  import opened Base
  import opened Os

  /** Where the blob for key is stored. */
  function BlobPath(path: Path, key: Key): Path {
    Join(path, key)
  }

  /** Distinct keys are stored at distinct paths. */
  lemma {:induction false} BlobPathInjective(path: Path, k1: Key, k2: Key)
    requires BlobPath(path, k1) == BlobPath(path, k2)
    ensures k1 == k2
  {
    if path != [] {
      if k1 != [] && k2 != [] {
        assert k1 == (path + [Slash] + k1)[|path| + 1..];
        assert k2 == (path + [Slash] + k2)[|path| + 1..];
      } else {
        assert |Join(path, k1)| == |Join(path, k2)|;
      }
    }
  }

  /** What Get returns in state d: the stored bytes, or the os error of reading them. */
  function Fetch(path: Path, key: Key, d: Disk): (r: Result<Bytes, Error>)
    ensures r.Ok? <==> BlobPath(path, key) !in d.denied && Lookup(d, BlobPath(path, key)).Some?
    ensures r.Ok? ==> Lookup(d, BlobPath(path, key)) == Some(r.value)
    ensures Lookup(d, BlobPath(path, key)) == None ==> r.Err?
  {
    match Read(d, BlobPath(path, key))
    case Ok(b) => Ok(b)
    case Err(e) => Err(IoError(e))
  }

  /** The state and result of Write in state d. */
  function Store(path: Path, key: Key, value: Bytes, d: Disk): (r: (Disk, Outcome<Error>))
    ensures WritesOnly(d, r.0, {BlobPath(path, key)}, value)
  {
    var (d2, w) := Overwrite(d, BlobPath(path, key), value);
    match w
    case Pass => (d2, Pass)
    case Fail(e) => (d2, Fail(IoError(e)))
  }

  method Get(path: Path, key: Key, fs: FileSystem) returns (r: Result<Bytes, Error>)
    ensures r == Fetch(path, key, fs.State())
  {
    var content := fs.ReadFile(BlobPath(path, key));
    match content
    case Ok(b) => r := Ok(b);
    case Err(e) => r := Err(IoError(e));
  }

  method Write(path: Path, key: Key, value: Bytes, fs: FileSystem) returns (r: Outcome<Error>)
    modifies fs
    ensures (fs.State(), r) == Store(path, key, value, old(fs.State()))
  {
    var w := fs.WriteFile(BlobPath(path, key), value);
    match w
    case Pass => r := Pass;
    case Fail(e) => r := Fail(IoError(e));
  }

  /** Write overwrites: whatever was stored, a successful Write(key, v) makes Get(key) return v. */
  lemma WriteThenGet(path: Path, key: Key, value: Bytes, d: Disk)
    requires Store(path, key, value, d).1 == Pass
    ensures Fetch(path, key, Store(path, key, value, d).0) == Ok(value)
  {
  }

  /** Write fails exactly when the blob's path is refused, and then stores nothing. */
  lemma WriteFailsOnlyWhenRefused(path: Path, key: Key, value: Bytes, d: Disk)
    ensures Store(path, key, value, d).1.Fail? <==> BlobPath(path, key) in d.denied
    ensures Store(path, key, value, d).1.Fail? ==> Store(path, key, value, d).0 == d
  {
  }

  /** Repeating the same Write reaches the same state. */
  lemma WriteIdempotent(path: Path, key: Key, value: Bytes, d: Disk)
    ensures var (d1, r1) := Store(path, key, value, d);
      Store(path, key, value, d1) == (d1, r1)
  {
    var p := BlobPath(path, key);
    if p !in d.denied {
      assert d.files[p := value][p := value] == d.files[p := value];
    }
  }

  /** A write changes what Get returns for no other key. */
  lemma {:induction false} WriteLeavesOtherKeys(path: Path, key: Key, other: Key, value: Bytes, d: Disk)
    requires other != key
    ensures Fetch(path, other, Store(path, key, value, d).0) == Fetch(path, other, d)
  {
    if BlobPath(path, other) == BlobPath(path, key) {
      BlobPathInjective(path, other, key);
    }
  }
}
