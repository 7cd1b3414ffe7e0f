/**
 * The sync engine of main.go: pull, push and diff of one environment, against
 * the working tree, the ref file and the environment's Remote.
 *
 * Each operation is a method over the one FileSystem, proved equal to a
 * function of the old state (Pulled, Pushed, Diffed); the properties the
 * operations promise are proved about those functions in SyncProperties.
 */
module Sync {
  import opened Base
  import opened Os
  import opened Archives
  import Remotes

  /** A declared environment: its Remote, its tracked files in declared order, its ref file. */
  datatype Environ = Environ(remote: Remotes.Remote, files: seq<Path>, ref: Path)

  /** What diff prints, apart from the rendering of a unified diff. */
  datatype Report =
    | RemoteOnly(name: Path)                         // "file ... in remote but not working directory"
    | LocalOnly(name: Path)                          // "file ... in working directory but not remote"
    | Changed(name: Path, remote: Bytes, local: Bytes)  // a unified diff from remote to local bytes

  // ---------------------------------------------------------------- strings.TrimSpace

  /** The ASCII white space TrimSpace removes. */
  predicate IsSpace(b: byte) {
    b == 9 || b == 10 || b == 11 || b == 12 || b == 13 || b == 32
  }

  /** The first index at or after i that holds no white space, or |s|. */
  function SkipLeft(s: Bytes, i: nat): (k: nat)
    requires i <= |s|
    ensures i <= k <= |s|
    ensures forall m :: i <= m < k ==> IsSpace(s[m])
    ensures k < |s| ==> !IsSpace(s[k])
    decreases |s| - i
  {
    if i < |s| && IsSpace(s[i]) then SkipLeft(s, i + 1) else i
  }

  /** The index down to which s[..j] ends in white space, stopping at lo. */
  function SkipRight(s: Bytes, lo: nat, j: nat): (k: nat)
    requires lo <= j <= |s|
    ensures lo <= k <= j
    ensures forall m :: k <= m < j ==> IsSpace(s[m])
    ensures k > lo ==> !IsSpace(s[k - 1])
    decreases j
  {
    if j > lo && IsSpace(s[j - 1]) then SkipRight(s, lo, j - 1) else j
  }

  /** strings.TrimSpace: the slice of s left when its leading and trailing white space is dropped. */
  function TrimSpace(s: Bytes): (r: Bytes)
    ensures exists i, j :: (0 <= i <= j <= |s| && r == s[i..j] &&
      (forall k :: 0 <= k < i ==> IsSpace(s[k])) && (forall k :: j <= k < |s| ==> IsSpace(s[k])))
    ensures r == [] || (!IsSpace(r[0]) && !IsSpace(r[|r| - 1]))
    ensures (s == [] || (!IsSpace(s[0]) && !IsSpace(s[|s| - 1]))) ==> r == s
  {
    var i := SkipLeft(s, 0);
    var j := SkipRight(s, i, |s|);
    assert i < j ==> s[i..j][0] == s[i] && s[i..j][j - i - 1] == s[j - 1];
    s[i..j]
  }

  // ---------------------------------------------------------------- shared helpers

  /** The declared files as a set (the expectedFiles and localFiles maps). */
  function ToSet(files: seq<Path>): set<Path> {
    set j | 0 <= j < |files| :: files[j]
  }

  /** The elements of s that are not in present, in the order of s. */
  function Unlisted(s: seq<Path>, present: set<Path>): (r: seq<Path>)
    ensures |r| <= |s|
    ensures forall x :: x in r <==> x in s && x !in present
  {
    if s == [] then []
    else Unlisted(s[..|s| - 1], present) + (if s[|s| - 1] in present then [] else [s[|s| - 1]])
  }

  /** fileHasChanged: true when the file is absent or holds other bytes; an error other than
      "does not exist" is returned. */
  function HasChanged(d: Disk, name: Path, content: Bytes): (r: Result<bool, OsError>)
    ensures r.Err? <==> name in d.denied
    ensures r == Ok(true) <==> name !in d.denied && Lookup(d, name) != Some(content)
  {
    match Read(d, name)
    case Err(NotExist(_)) => Ok(true)
    case Err(e) => Err(e)
    case Ok(existing) => Ok(existing != content)
  }

  method FileHasChanged(fs: FileSystem, name: Path, content: Bytes) returns (r: Result<bool, OsError>)
    ensures r == HasChanged(fs.State(), name, content)
  {
    var existing := fs.ReadFile(name);
    if existing.Err? {
      if existing.error.NotExist? {
        return Ok(true);
      }
      return Err(existing.error);
    }
    r := Ok(existing.value != content);
  }

  // ---------------------------------------------------------------- pull

  /** Materialise one archive entry: create its directory, then rewrite the file iff it changed. */
  function Rewrite(e: Entry, d: Disk): (r: (Disk, Result<bool, Error>))
    ensures r.1.Ok? ==> (r.1.value <==> Lookup(d, e.name) != Some(e.content))
    ensures r.1 == Ok(false) ==> r.0 == d
    ensures r.1 == Ok(true) ==> r.0 == d.(files := d.files[e.name := e.content])
    ensures r.1.Err? ==> r.0 == d
  {
    var dir := Dir(e.name);
    if dir != [Dot] && MkdirOf(d, dir).Fail? then (d, Err(MkdirFailed(dir, MkdirOf(d, dir).error)))
    else
      match HasChanged(d, e.name, e.content)
      case Err(err) => (d, Err(ChangeCheckFailed(e.name, err)))
      case Ok(false) => (d, Ok(false))
      case Ok(true) =>
        var (d2, w) := Overwrite(d, e.name, e.content);
        match w
        case Fail(err) => (d2, Err(CreateFailed(e.name, err)))
        case Pass => (d2, Ok(true))
  }

  /** The rewrite loop over the entries, in archive order, from `changed` rewrites so far. */
  function Materialize(entries: Archive, d: Disk, changed: nat): (r: (Disk, Result<nat, Error>))
    ensures r.1.Ok? ==> changed <= r.1.value <= changed + |entries|
    ensures r.1.Err? ==> r.1.error.MkdirFailed? || r.1.error.ChangeCheckFailed? || r.1.error.CreateFailed?
    ensures SameOutside(d, r.0, NameSet(entries))
  {
    if entries == [] then (d, Ok(changed))
    else
      NameSetCons(entries);
      match Rewrite(entries[0], d)
      case (d2, Err(e)) => (d2, Err(e))
      case (d2, Ok(ch)) => Materialize(entries[1..], d2, if ch then changed + 1 else changed)
  }

  /** Validate the entry set against the declared files, then materialise the entries: a failed
      name check changes nothing, and the files are written only when the entry names are exactly
      the declared ones. */
  function Extract(files: seq<Path>, entries: Archive, d: Disk): (r: (Disk, Result<nat, Error>))
    ensures r.1.Err? && (r.1.error.MissingFiles? || r.1.error.ExtraneousFiles?) ==> r.0 == d
    ensures r.1.Err? && (r.1.error.MissingFiles? || r.1.error.ExtraneousFiles?) ==> r.1.error.names != []
    ensures r.0 != d ==> NameSet(entries) == ToSet(files)
  {
    var missing := Unlisted(files, NameSet(entries));
    if |missing| > 0 then (d, Err(MissingFiles(missing)))
    else
      var extraneous := Unlisted(Names(entries), ToSet(files));
      if |extraneous| > 0 then (d, Err(ExtraneousFiles(extraneous)))
      else
        assert NameSet(entries) == ToSet(files) by {
          forall i | 0 <= i < |files| ensures files[i] in NameSet(entries) {
            assert files[i] !in missing;
          }
          forall i | 0 <= i < |entries| ensures entries[i].name in ToSet(files) {
            assert entries[i].name in Names(entries) && entries[i].name !in extraneous;
          }
        }
        Materialize(entries, d, 0)
  }

  /** The state and result of pull; Ok carries the number of rewritten files. Pull succeeds only
      from a readable, non-empty ref file whose trimmed key the Remote serves. */
  function Pulled(env: Environ, codec: Codec, d: Disk): (r: (Disk, Result<nat, Error>))
    ensures r.1.Ok? ==> (Read(d, env.ref).Ok? && Read(d, env.ref).value != [] &&
      Remotes.Fetch(env.remote, TrimSpace(Read(d, env.ref).value), d).1.Ok?)
    ensures r.1.Err? ==> || r.1.error.RefUnreadable? || r.1.error.RefEmpty? || r.1.error.DownloadFailed?
                         || r.1.error.BadArchive? || r.1.error.MissingFiles? || r.1.error.ExtraneousFiles?
                         || r.1.error.MkdirFailed? || r.1.error.ChangeCheckFailed? || r.1.error.CreateFailed?
  {
    match Read(d, env.ref)
    case Err(e) => (d, Err(RefUnreadable(env.ref, e)))
    case Ok(raw) =>
      if |raw| == 0 then (d, Err(RefEmpty(env.ref)))
      else
        var key := TrimSpace(raw);
        var (d1, got) := Remotes.Fetch(env.remote, key, d);
        match got
        case Err(e) => (d1, Err(DownloadFailed(key, e)))
        case Ok(blob) =>
          match codec.decode(blob)
          case None => (d1, Err(BadArchive))
          case Some(entries) => Extract(env.files, entries, d1)
  }

  /** The expectedFiles/localFiles map built from the declared files. */
  method CollectFiles(files: seq<Path>) returns (s: set<Path>)
    ensures s == ToSet(files)
  {
    s := {};
    for i := 0 to |files|
      invariant s == set j | 0 <= j < i :: files[j]
    {
      s := s + {files[i]};
    }
  }

  /** The zipFiles map built from the archive's entries. */
  method CollectNames(entries: Archive) returns (s: set<Path>)
    ensures s == NameSet(entries)
  {
    s := {};
    for i := 0 to |entries|
      invariant s == set j | 0 <= j < i :: entries[j].name
    {
      s := s + {entries[i].name};
    }
  }

  /** The missingFiles/extraneousFiles loops: the names of s not in present, in order. */
  method ListUnlisted(s: seq<Path>, present: set<Path>) returns (r: seq<Path>)
    ensures r == Unlisted(s, present)
  {
    r := [];
    for i := 0 to |s|
      invariant r == Unlisted(s[..i], present)
    {
      assert s[..i + 1][..i] == s[..i];
      if s[i] !in present {
        r := r + [s[i]];
      }
    }
    assert s[..|s|] == s;
  }

  /** The rewrite loop of pull; Ok carries the number of files rewritten. */
  method WriteEntries(entries: Archive, fs: FileSystem) returns (r: Result<nat, Error>)
    modifies fs
    ensures (fs.State(), r) == Materialize(entries, old(fs.State()), 0)
  {
    var changedFiles: nat := 0;
    var i := 0;
    while i < |entries|
      invariant 0 <= i <= |entries|
      invariant Materialize(entries[i..], fs.State(), changedFiles) == Materialize(entries, old(fs.State()), 0)
    {
      var file := entries[i];
      assert entries[i..][0] == file && entries[i..][1..] == entries[i + 1..];
      var dir := Dir(file.name);
      if dir != [Dot] {
        var mk := fs.MkdirAll(dir);
        if mk.Fail? {
          return Err(MkdirFailed(dir, mk.error));
        }
      }
      var hasChanged := FileHasChanged(fs, file.name, file.content);
      if hasChanged.Err? {
        return Err(ChangeCheckFailed(file.name, hasChanged.error));
      }
      if hasChanged.value {
        var w := fs.WriteFile(file.name, file.content);
        match w
        case Fail(err) => return Err(CreateFailed(file.name, err));
        case Pass =>
        changedFiles := changedFiles + 1;
      }
      i := i + 1;
    }
    r := Ok(changedFiles);
  }

  method Pull(env: Environ, codec: Codec, fs: FileSystem) returns (r: Result<nat, Error>)
    modifies fs
    ensures (fs.State(), r) == Pulled(env, codec, old(fs.State()))
  {
    var refContent := fs.ReadFile(env.ref);
    if refContent.Err? {
      return Err(RefUnreadable(env.ref, refContent.error));
    }
    if |refContent.value| == 0 {
      return Err(RefEmpty(env.ref));
    }
    var ref := TrimSpace(refContent.value);
    var zipData := Remotes.Get(env.remote, ref, fs);
    if zipData.Err? {
      return Err(DownloadFailed(ref, zipData.error));
    }
    var zipReader := codec.decode(zipData.value);
    if zipReader.None? {
      return Err(BadArchive);
    }
    var entries := zipReader.value;
    var expectedFiles := CollectFiles(env.files);
    var zipFiles := CollectNames(entries);
    var missingFiles := ListUnlisted(env.files, zipFiles);
    if |missingFiles| > 0 {
      return Err(MissingFiles(missingFiles));
    }
    var extraneousFiles := ListUnlisted(Names(entries), expectedFiles);
    if |extraneousFiles| > 0 {
      return Err(ExtraneousFiles(extraneousFiles));
    }
    r := WriteEntries(entries, fs);
  }

  // ---------------------------------------------------------------- push

  /** One declared file's bytes for the archive: a missing file is fatal, and so is any other
      read error. */
  function Track(d: Disk, f: Path): (r: Result<Bytes, Error>)
    ensures r.Ok? <==> Read(d, f).Ok?
    ensures r.Ok? ==> r.value == Read(d, f).value
    ensures r.Err? ==> (r.error == FileDoesNotExist(f) <==> StatOf(d, f) == Fail(NotExist(f)))
    ensures r.Err? && !r.error.FileDoesNotExist? ==> r.error == ReadFailed(f, Read(d, f).error)
  {
    match StatOf(d, f)
    case Fail(NotExist(_)) => Err(FileDoesNotExist(f))
    case _ =>
      match Read(d, f)
      case Ok(c) => Ok(c)
      case Err(e) => Err(ReadFailed(f, e))
  }

  /** Prefix the entries built so far to the result for the remaining files. */
  function Extend(done: Archive, rest: Result<Archive, Error>): Result<Archive, Error> {
    match rest
    case Ok(es) => Ok(done + es)
    case Err(e) => Err(e)
  }

  lemma ExtendExtend(a: Archive, b: Archive, rest: Result<Archive, Error>)
    ensures Extend(a, Extend(b, rest)) == Extend(a + b, rest)
  {
    match rest
    case Ok(es) => assert a + (b + es) == (a + b) + es;
    case Err(_) =>
  }

  /** The archive of the declared files, in declared order, or the first file's error. */
  function BuildEntries(files: seq<Path>, d: Disk): (r: Result<Archive, Error>)
    ensures r.Ok? <==> forall i :: 0 <= i < |files| ==> Read(d, files[i]).Ok?
    ensures r.Ok? ==> (|r.value| == |files| &&
      forall i :: 0 <= i < |files| ==> r.value[i] == Entry(files[i], Read(d, files[i]).value))
    ensures r.Err? ==> (r.error.FileDoesNotExist? || r.error.ReadFailed?) && r.error.name in files
  {
    if files == [] then Ok([])
    else
      match Track(d, files[0])
      case Err(e) => Err(e)
      case Ok(c) =>
        assert forall i :: 1 <= i < |files| ==> files[i] == files[1..][i - 1];
        Extend([Entry(files[0], c)], BuildEntries(files[1..], d))
  }

  /** The fingerprint push stores an archive under. */
  function KeyOf(codec: Codec, entries: Archive): Key {
    codec.fingerprint(codec.encode(entries))
  }

  /** The state and result of push. It fails only on a declared file, the upload or the ref
      update, and a failure to read the declared files changes nothing. */
  function Pushed(env: Environ, codec: Codec, d: Disk): (r: (Disk, Outcome<Error>))
    ensures r.1.Fail? ==> || r.1.error.FileDoesNotExist? || r.1.error.ReadFailed?
                          || r.1.error.UploadFailed? || r.1.error.RefUpdateFailed?
    ensures r.1.Fail? && (r.1.error.FileDoesNotExist? || r.1.error.ReadFailed?) ==> r.0 == d
  {
    match BuildEntries(env.files, d)
    case Err(e) => (d, Fail(e))
    case Ok(entries) =>
      var blob := codec.encode(entries);
      var key := codec.fingerprint(blob);
      if Read(d, env.ref) == Ok(key) then (d, Pass)
      else
        var (d1, w) := Remotes.Store(env.remote, key, blob, d);
        if w.Fail? then (d1, Fail(UploadFailed(w.error)))
        else
          var (d2, u) := Overwrite(d1, env.ref, key);
          if u.Fail? then (d2, Fail(RefUpdateFailed(u.error))) else (d2, Pass)
  }

  /** The loop of push that reads the declared files into archive entries. */
  method ReadTracked(files: seq<Path>, fs: FileSystem) returns (r: Result<Archive, Error>)
    ensures r == BuildEntries(files, fs.State())
  {
    ghost var d := fs.State();
    var entries: Archive := [];
    var i := 0;
    assert files[0..] == files;
    match BuildEntries(files, d) {
      case Ok(es) => assert [] + es == es;
      case Err(_) =>
    }
    while i < |files|
      invariant 0 <= i <= |files|
      invariant BuildEntries(files, d) == Extend(entries, BuildEntries(files[i..], d))
    {
      var file := files[i];
      assert files[i..][0] == file && files[i..][1..] == files[i + 1..];
      var st := fs.Stat(file);
      if st.Fail? && st.error.NotExist? {
        return Err(FileDoesNotExist(file));
      }
      var content := fs.ReadFile(file);
      if content.Err? {
        return Err(ReadFailed(file, content.error));
      }
      ExtendExtend(entries, [Entry(file, content.value)], BuildEntries(files[i + 1..], d));
      entries := entries + [Entry(file, content.value)];
      i := i + 1;
    }
    assert files[i..] == [] && entries + [] == entries;
    r := Ok(entries);
  }

  method Push(env: Environ, codec: Codec, fs: FileSystem) returns (r: Outcome<Error>)
    modifies fs
    ensures (fs.State(), r) == Pushed(env, codec, old(fs.State()))
  {
    var built := ReadTracked(env.files, fs);
    if built.Err? {
      return Fail(built.error);
    }
    var blob := codec.encode(built.value);
    var key := codec.fingerprint(blob);
    var currentRef := fs.ReadFile(env.ref);
    if currentRef.Ok? && currentRef.value == key {
      return Pass;
    }
    var w := Remotes.Write(env.remote, key, blob, fs);
    if w.Fail? {
      return Fail(UploadFailed(w.error));
    }
    var u := fs.WriteFile(env.ref, key);
    if u.Fail? {
      return Fail(RefUpdateFailed(u.error));
    }
    r := Pass;
  }

  // ---------------------------------------------------------------- diff

  /** The first declared file that does not exist locally. */
  function FirstMissing(files: seq<Path>, d: Disk): (r: Option<Path>)
    ensures r.Some? ==> r.value in files && StatOf(d, r.value) == Fail(NotExist(r.value))
    ensures r.Some? ==> exists i :: (0 <= i < |files| && files[i] == r.value &&
      forall j :: 0 <= j < i ==> StatOf(d, files[j]) != Fail(NotExist(files[j])))
    ensures r.None? ==> forall i :: 0 <= i < |files| ==> StatOf(d, files[i]) != Fail(NotExist(files[i]))
  {
    if files == [] then None
    else if StatOf(d, files[0]) == Fail(NotExist(files[0])) then Some(files[0])
    else
      assert forall i :: 1 <= i < |files| ==> files[i] == files[1..][i - 1];
      FirstMissing(files[1..], d)
  }

  /** The "in remote but not working directory" reports, in archive order. */
  function FlagRemoteOnly(names: seq<Path>, local: set<Path>): (out: seq<Report>)
    ensures forall x :: x in out ==> x.RemoteOnly? && x.name in names && x.name !in local
    ensures forall i :: 0 <= i < |names| && names[i] !in local ==> RemoteOnly(names[i]) in out
  {
    if names == [] then []
    else
      var n := names[|names| - 1];
      FlagRemoteOnly(names[..|names| - 1], local) + (if n in local then [] else [RemoteOnly(n)])
  }

  /** Prefix what was printed so far to the result for the remaining files. */
  function After(shown: seq<Report>, rest: (Outcome<Error>, seq<Report>)): (Outcome<Error>, seq<Report>) {
    (rest.0, shown + rest.1)
  }

  /** The comparison loop over the declared files: its result and what it prints. It fails only
      at a file the archive does not hold or the working tree cannot read. */
  function Compare(files: seq<Path>, zipFiles: set<Path>, entries: Archive, d: Disk): (r: (Outcome<Error>, seq<Report>))
    ensures r.0.Fail? ==>
      || (r.0.error.OpenInArchiveFailed? && r.0.error.name !in NameSet(entries))
      || (r.0.error.LocalReadFailed? && Read(d, r.0.error.name).Err?)
  {
    if files == [] then (Pass, [])
    else
      var f := files[0];
      var flag := if f in zipFiles then [] else [LocalOnly(f)];
      match Open(entries, f)
      case None => (Fail(OpenInArchiveFailed(f)), flag)
      case Some(remote) =>
        match Read(d, f)
        case Err(e) => (Fail(LocalReadFailed(f, e)), flag)
        case Ok(local) =>
          var shown := flag + (if remote != local then [Changed(f, remote, local)] else []);
          After(shown, Compare(files[1..], zipFiles, entries, d))
  }

  /** The state, result and printed reports of diff. Every failure before the comparison loop
      prints nothing. */
  function Diffed(env: Environ, codec: Codec, d: Disk): (r: (Disk, Outcome<Error>, seq<Report>))
    ensures r.1.Fail? ==> || r.1.error.RefUnreadable? || r.1.error.DownloadFailed? || r.1.error.FileDoesNotExist?
                          || r.1.error.BadArchive? || r.1.error.OpenInArchiveFailed? || r.1.error.LocalReadFailed?
    ensures r.1.Fail? && !r.1.error.OpenInArchiveFailed? && !r.1.error.LocalReadFailed? ==> r.2 == []
  {
    match Read(d, env.ref)
    case Err(e) => (d, Fail(RefUnreadable(env.ref, e)), [])
    case Ok(raw) =>
      var key := TrimSpace(raw);
      var (d1, got) := Remotes.Fetch(env.remote, key, d);
      match got
      case Err(e) => (d1, Fail(DownloadFailed(key, e)), [])
      case Ok(blob) =>
        match FirstMissing(env.files, d1)
        case Some(f) => (d1, Fail(FileDoesNotExist(f)), [])
        case None =>
          match codec.decode(blob)
          case None => (d1, Fail(BadArchive), [])
          case Some(entries) =>
            // as in main.go:292-295, the "remote" side is built from the declared files too
            var zipFiles := ToSet(env.files);
            var localFiles := ToSet(env.files);
            var (r, compared) := Compare(env.files, zipFiles, entries, d1);
            (d1, r, FlagRemoteOnly(Names(entries), localFiles) + compared)
  }

  /** The existence check of diff over the declared files. */
  method FindMissing(files: seq<Path>, fs: FileSystem) returns (r: Option<Path>)
    ensures r == FirstMissing(files, fs.State())
  {
    for i := 0 to |files|
      invariant FirstMissing(files, fs.State()) == FirstMissing(files[i..], fs.State())
    {
      assert files[i..][0] == files[i] && files[i..][1..] == files[i + 1..];
      var st := fs.Stat(files[i]);
      if st.Fail? && st.error.NotExist? {
        return Some(files[i]);
      }
    }
    assert files[|files|..] == [];
    r := None;
  }

  /** The loop of diff that flags archive entries absent from localFiles. */
  method ListRemoteOnly(entries: Archive, localFiles: set<Path>) returns (out: seq<Report>)
    ensures out == FlagRemoteOnly(Names(entries), localFiles)
  {
    ghost var names := Names(entries);
    out := [];
    for i := 0 to |entries|
      invariant out == FlagRemoteOnly(names[..i], localFiles)
    {
      assert names[..i + 1][..i] == names[..i];
      if entries[i].name !in localFiles {
        out := out + [RemoteOnly(entries[i].name)];
      }
    }
    assert names[..|entries|] == names;
  }

  /** The comparison loop at file i stops there when the archive or the working tree cannot
      provide that file. */
  lemma CompareStops(files: seq<Path>, zipFiles: set<Path>, entries: Archive, d: Disk, i: nat)
    requires i < |files|
    ensures var flag := if files[i] in zipFiles then [] else [LocalOnly(files[i])];
      && (Open(entries, files[i]).None? ==>
            Compare(files[i..], zipFiles, entries, d) == (Fail(OpenInArchiveFailed(files[i])), flag))
      && (Open(entries, files[i]).Some? && Read(d, files[i]).Err? ==>
            Compare(files[i..], zipFiles, entries, d) == (Fail(LocalReadFailed(files[i], Read(d, files[i]).error)), flag))
  {
    assert files[i..][0] == files[i];
  }

  /** The comparison loop at file i, when both sides provide it, prints its flag and diff and
      goes on with the next file. */
  lemma CompareNext(files: seq<Path>, zipFiles: set<Path>, entries: Archive, d: Disk, i: nat)
    requires i < |files| && Open(entries, files[i]).Some? && Read(d, files[i]).Ok?
    ensures var f := files[i];
      var remote := Open(entries, f).value;
      var local := Read(d, f).value;
      Compare(files[i..], zipFiles, entries, d) ==
        After((if f in zipFiles then [] else [LocalOnly(f)]) +
              (if remote != local then [Changed(f, remote, local)] else []),
              Compare(files[i + 1..], zipFiles, entries, d))
  {
    assert files[i..][0] == files[i] && files[i..][1..] == files[i + 1..];
  }

  /** The comparison loop of diff over the declared files. */
  method CompareFiles(files: seq<Path>, zipFiles: set<Path>, entries: Archive, fs: FileSystem)
    returns (r: Outcome<Error>, out: seq<Report>)
    ensures (r, out) == Compare(files, zipFiles, entries, fs.State())
  {
    out := [];
    assert files[0..] == files;
    var whole := Compare(files, zipFiles, entries, fs.State());
    assert [] + whole.1 == whole.1;
    for i := 0 to |files|
      invariant whole == After(out, Compare(files[i..], zipFiles, entries, fs.State()))
    {
      var file := files[i];
      var flag: seq<Report> := [];
      if file !in zipFiles {
        flag := [LocalOnly(file)];
      }
      var zipFile := Open(entries, file);
      if zipFile.None? {
        CompareStops(files, zipFiles, entries, fs.State(), i);
        return Fail(OpenInArchiveFailed(file)), out + flag;
      }
      var localFile := fs.ReadFile(file);
      if localFile.Err? {
        CompareStops(files, zipFiles, entries, fs.State(), i);
        return Fail(LocalReadFailed(file, localFile.error)), out + flag;
      }
      var shown := flag;
      if zipFile.value != localFile.value {
        shown := shown + [Changed(file, zipFile.value, localFile.value)];
      }
      ghost var rest := Compare(files[i + 1..], zipFiles, entries, fs.State());
      CompareNext(files, zipFiles, entries, fs.State(), i);
      assert shown == (if file in zipFiles then [] else [LocalOnly(file)]) +
        (if zipFile.value != localFile.value then [Changed(file, zipFile.value, localFile.value)] else []);
      assert out + (shown + rest.1) == (out + shown) + rest.1;
      out := out + shown;
    }
    assert files[|files|..] == [] && out + [] == out;
    r := Pass;
  }

  method Diff(env: Environ, codec: Codec, fs: FileSystem) returns (r: Outcome<Error>, printed: seq<Report>)
    modifies fs
    ensures (fs.State(), r, printed) == Diffed(env, codec, old(fs.State()))
  {
    var refContent := fs.ReadFile(env.ref);
    if refContent.Err? {
      return Fail(RefUnreadable(env.ref, refContent.error)), [];
    }
    var ref := TrimSpace(refContent.value);
    var zipData := Remotes.Get(env.remote, ref, fs);
    if zipData.Err? {
      return Fail(DownloadFailed(ref, zipData.error)), [];
    }
    var zipFiles := CollectFiles(env.files);
    var localFiles := CollectFiles(env.files);
    var missing := FindMissing(env.files, fs);
    if missing.Some? {
      return Fail(FileDoesNotExist(missing.value)), [];
    }
    var zipReader := codec.decode(zipData.value);
    if zipReader.None? {
      return Fail(BadArchive), [];
    }
    var entries := zipReader.value;
    var flagged := ListRemoteOnly(entries, localFiles);
    var compared;
    r, compared := CompareFiles(env.files, zipFiles, entries, fs);
    printed := flagged + compared;
  }
}
