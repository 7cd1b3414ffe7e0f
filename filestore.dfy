/**
 * The file-system Remote backend of fs.go: blobs live under root/prefix, and a
 * write creates the blob only if it is absent (write-once). "Already exists"
 * counts as success, because under content addressing the stored bytes are the
 * same.
 */
module FileStore {
  import opened Base
  import opened Os

  /** Where the blob for key is stored. */
  function KeyPath(root: Path, prefix: Path, key: Key): Path {
    Join(Join(root, prefix), key)
  }

  /** Distinct keys are stored at distinct paths. */
  lemma {:induction false} KeyPathInjective(root: Path, prefix: Path, k1: Key, k2: Key)
    requires KeyPath(root, prefix, k1) == KeyPath(root, prefix, k2)
    ensures k1 == k2
  {
    var a := Join(root, prefix);
    if a != [] {
      if k1 != [] && k2 != [] {
        assert k1 == (a + [Slash] + k1)[|a| + 1..];
        assert k2 == (a + [Slash] + k2)[|a| + 1..];
      } else {
        assert |Join(a, k1)| == |Join(a, k2)|;
      }
    }
  }

  /** What Get returns in state d: the stored bytes, or the os error of reading them. */
  function Fetch(root: Path, prefix: Path, key: Key, d: Disk): (r: Result<Bytes, Error>)
    ensures r.Ok? <==> KeyPath(root, prefix, key) !in d.denied && Lookup(d, KeyPath(root, prefix, key)).Some?
    ensures r.Ok? ==> Lookup(d, KeyPath(root, prefix, key)) == Some(r.value)
    ensures Lookup(d, KeyPath(root, prefix, key)) == None ==> r.Err?
  {
    match Read(d, KeyPath(root, prefix, key))
    case Ok(b) => Ok(b)
    case Err(e) => Err(IoError(e))
  }

  /** The state and result of Write in state d. */
  function Store(root: Path, prefix: Path, key: Key, value: Bytes, d: Disk): (r: (Disk, Outcome<Error>))
    ensures WritesOnly(d, r.0, {KeyPath(root, prefix, key)}, value)
  {
    var p := KeyPath(root, prefix, key);
    match MkdirOf(d, Dir(p))
    case Fail(e) => (d, Fail(ParentDirFailed(e)))
    case Pass =>
      var (d2, created) := CreateNew(d, p, value);
      match created
      case Pass => (d2, Pass)
      case Fail(e) => if e.Exist? then (d2, Pass) else (d2, Fail(IoError(e)))
  }

  method Get(root: Path, prefix: Path, key: Key, fs: FileSystem) returns (r: Result<Bytes, Error>)
    ensures r == Fetch(root, prefix, key, fs.State())
  {
    var content := fs.ReadFile(KeyPath(root, prefix, key));
    match content
    case Ok(b) => r := Ok(b);
    case Err(e) => r := Err(IoError(e));
  }

  method Write(root: Path, prefix: Path, key: Key, value: Bytes, fs: FileSystem) returns (r: Outcome<Error>)
    modifies fs
    ensures (fs.State(), r) == Store(root, prefix, key, value, old(fs.State()))
  {
    var p := KeyPath(root, prefix, key);
    var mk := fs.MkdirAll(Dir(p));
    if mk.Fail? {
      return Fail(ParentDirFailed(mk.error));
    }
    var created := fs.CreateExclusive(p, value);
    if created.Fail? {
      if created.error.Exist? {
        return Pass;
      }
      return Fail(IoError(created.error));
    }
    r := Pass;
  }

  /** A write on an absent key stores exactly value, and a later Get returns it. */
  lemma WriteAbsentStores(root: Path, prefix: Path, key: Key, value: Bytes, d: Disk)
    requires KeyPath(root, prefix, key) !in d.files
    requires KeyPath(root, prefix, key) !in d.denied && Dir(KeyPath(root, prefix, key)) !in d.denied
    ensures Store(root, prefix, key, value, d) == (d.(files := d.files[KeyPath(root, prefix, key) := value]), Pass)
    ensures Fetch(root, prefix, key, Store(root, prefix, key, value, d).0) == Ok(value)
  {
  }

  /** Write-once: on an existing key, Write succeeds and leaves every stored byte as it was. */
  lemma WriteExistingKeeps(root: Path, prefix: Path, key: Key, value: Bytes, d: Disk)
    requires KeyPath(root, prefix, key) in d.files
    requires Dir(KeyPath(root, prefix, key)) !in d.denied
    ensures Store(root, prefix, key, value, d) == (d, Pass)
  {
  }

  /** Two writes of the same key and content both succeed; the second changes nothing. */
  lemma WriteTwiceSucceeds(root: Path, prefix: Path, key: Key, value: Bytes, d: Disk)
    requires Store(root, prefix, key, value, d).1 == Pass
    ensures var d1 := Store(root, prefix, key, value, d).0;
      Store(root, prefix, key, value, d1) == (d1, Pass)
  {
  }

  /** A failed write stores nothing. */
  lemma WriteFailureStoresNothing(root: Path, prefix: Path, key: Key, value: Bytes, d: Disk)
    requires Store(root, prefix, key, value, d).1.Fail?
    ensures Store(root, prefix, key, value, d).0 == d
  {
  }

  /** Write fails exactly when the parent directory cannot be created, or when the blob is
      absent and its creation is refused; each case carries its own error. */
  lemma WriteFailsOnlyWhenRefused(root: Path, prefix: Path, key: Key, value: Bytes, d: Disk)
    ensures var p := KeyPath(root, prefix, key);
      Store(root, prefix, key, value, d).1.Fail? <==> Dir(p) in d.denied || (p !in d.files && p in d.denied)
    ensures var p := KeyPath(root, prefix, key);
      Dir(p) in d.denied ==> Store(root, prefix, key, value, d).1 == Fail(ParentDirFailed(Permission(Dir(p))))
    ensures var p := KeyPath(root, prefix, key);
      Dir(p) !in d.denied && p !in d.files && p in d.denied ==>
        Store(root, prefix, key, value, d).1 == Fail(IoError(Permission(p)))
  {
  }

  /** A write changes what Get returns for no other key. */
  lemma {:induction false} WriteLeavesOtherKeys(root: Path, prefix: Path, key: Key, other: Key, value: Bytes, d: Disk)
    requires other != key
    ensures Fetch(root, prefix, other, Store(root, prefix, key, value, d).0) == Fetch(root, prefix, other, d)
  {
    if KeyPath(root, prefix, other) == KeyPath(root, prefix, key) {
      KeyPathInjective(root, prefix, other, key);
    }
  }
}
