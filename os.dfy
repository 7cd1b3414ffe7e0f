/**
 * The operating system's file system, as the core sees it through the os and
 * path/filepath packages. One file system holds the working tree, the ref file
 * and the blobs of the file-based Remote backends.
 *
 * Directories are not modelled: a path whose operations the system refuses
 * (permissions, a full disk, ...) is in the fixed set `denied`.
 */
module Os {
  import opened Base

  datatype Disk = Disk(files: map<Path, Bytes>, denied: set<Path>)

  /** The content stored at p, if any. */
  function Lookup(d: Disk, p: Path): Option<Bytes> {
    if p in d.files then Some(d.files[p]) else None
  }

  /** d2 differs from d at most on the paths in ps, and refuses the same paths. */
  ghost predicate SameOutside(d: Disk, d2: Disk, ps: set<Path>) {
    && d2.denied == d.denied
    && forall p :: p !in ps ==> Lookup(d2, p) == Lookup(d, p)
  }

  /** Every path d2 changed with respect to d is one of ps and now holds v. */
  ghost predicate WritesOnly(d: Disk, d2: Disk, ps: set<Path>, v: Bytes) {
    && d2.denied == d.denied
    && forall p :: Lookup(d2, p) == Lookup(d, p) || (p in ps && Lookup(d2, p) == Some(v))
  }

  /** os.ReadFile */
  function Read(d: Disk, p: Path): Result<Bytes, OsError> {
    if p in d.denied then Err(Permission(p))
    else if p in d.files then Ok(d.files[p])
    else Err(NotExist(p))
  }

  /** os.Stat, the error only */
  function StatOf(d: Disk, p: Path): Outcome<OsError> {
    match Read(d, p)
    case Ok(_) => Pass
    case Err(e) => Fail(e)
  }

  /** os.WriteFile, and os.Create followed by one Write: create or truncate, all or nothing. */
  function Overwrite(d: Disk, p: Path, data: Bytes): (Disk, Outcome<OsError>) {
    if p in d.denied then (d, Fail(Permission(p)))
    else (d.(files := d.files[p := data]), Pass)
  }

  /** os.OpenFile with O_CREATE|O_EXCL followed by one Write, all or nothing. */
  function CreateNew(d: Disk, p: Path, data: Bytes): (Disk, Outcome<OsError>) {
    if p in d.files then (d, Fail(Exist(p)))
    else if p in d.denied then (d, Fail(Permission(p)))
    else (d.(files := d.files[p := data]), Pass)
  }

  /** os.MkdirAll: directories are not modelled, so it changes nothing. */
  function MkdirOf(d: Disk, dir: Path): Outcome<OsError> {
    if dir in d.denied then Fail(Permission(dir)) else Pass
  }

  /** filepath.Join of two elements, without the lexical cleaning Go applies. */
  function Join(a: Path, b: Path): Path {
    if a == [] then b else if b == [] then a else a + [Slash] + b
  }

  /** Index of the last '/' in p, or -1. */
  function LastSlash(p: Path): (i: int)
    ensures -1 <= i < |p|
    ensures i >= 0 ==> p[i] == Slash
    ensures forall k :: i < k < |p| ==> p[k] != Slash
  {
    if p == [] then -1
    else if p[|p| - 1] == Slash then |p| - 1
    else LastSlash(p[..|p| - 1])
  }

  /** filepath.Dir, without the lexical cleaning Go applies: "." when p holds no '/'. */
  function Dir(p: Path): Path {
    var i := LastSlash(p);
    if i < 0 then [Dot] else if i == 0 then [Slash] else p[..i]
  }

  /** The one mutable file system the core works on. */
  class FileSystem {
    var files: map<Path, Bytes>
    const denied: set<Path>

    constructor (files: map<Path, Bytes>, denied: set<Path>)
      ensures State() == Disk(files, denied)
    {
      this.files := files;
      this.denied := denied;
    }

    function State(): Disk
      reads this
    {
      Disk(files, denied)
    }

    method ReadFile(p: Path) returns (r: Result<Bytes, OsError>)
      ensures r == Read(State(), p)
    {
      if p in denied {
        r := Err(Permission(p));
      } else if p in files {
        r := Ok(files[p]);
      } else {
        r := Err(NotExist(p));
      }
    }

    method Stat(p: Path) returns (r: Outcome<OsError>)
      ensures r == StatOf(State(), p)
    {
      if p in denied {
        r := Fail(Permission(p));
      } else if p in files {
        r := Pass;
      } else {
        r := Fail(NotExist(p));
      }
    }

    method WriteFile(p: Path, data: Bytes) returns (r: Outcome<OsError>)
      modifies this
      ensures (State(), r) == Overwrite(old(State()), p, data)
    {
      if p in denied {
        r := Fail(Permission(p));
      } else {
        files := files[p := data];
        r := Pass;
      }
    }

    method CreateExclusive(p: Path, data: Bytes) returns (r: Outcome<OsError>)
      modifies this
      ensures (State(), r) == CreateNew(old(State()), p, data)
    {
      if p in files {
        r := Fail(Exist(p));
      } else if p in denied {
        r := Fail(Permission(p));
      } else {
        files := files[p := data];
        r := Pass;
      }
    }

    method MkdirAll(dir: Path) returns (r: Outcome<OsError>)
      ensures r == MkdirOf(State(), dir)
    {
      r := if dir in denied then Fail(Permission(dir)) else Pass;
    }
  }
}
