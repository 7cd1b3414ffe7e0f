/**
 * What pull, push and diff promise, proved about their specification functions
 * Pulled, Pushed and Diffed (and the loops they are made of). The methods of
 * Sync are equal to those functions, so each fact holds of the methods too.
 */
module SyncProperties {
  import opened Base
  import opened Os
  import opened Archives
  import Remotes
  import opened Sync

  // ---------------------------------------------------------------- the ref file

  /** A fingerprint carries no white space at its ends, so pull's TrimSpace keeps it as it is. */
  lemma FingerprintIsTrimmed(k: Key)
    requires IsFingerprint(k)
    ensures TrimSpace(k) == k
  {
    assert IsBase64Url(k[0]) && IsBase64Url(k[|k| - 1]);
  }

  /** pull stops at an unreadable or empty ref file: nothing changes, and no Remote is consulted. */
  lemma PullRefChecks(env: Environ, codec: Codec, d: Disk, other: Remotes.Remote)
    requires Read(d, env.ref).Err? || Read(d, env.ref) == Ok([])
    ensures Pulled(env, codec, d) ==
      (d, Err(if Read(d, env.ref).Err? then RefUnreadable(env.ref, Read(d, env.ref).error) else RefEmpty(env.ref)))
    ensures Pulled(env.(remote := other), codec, d) == Pulled(env, codec, d)
  {
  }

  /** Otherwise pull asks the Remote for the trimmed ref content only: any Remote that answers
      that one Get the same way gives the same pull. */
  lemma PullFetchesTrimmedRef(env: Environ, codec: Codec, d: Disk, other: Remotes.Remote)
    requires Read(d, env.ref).Ok? && Read(d, env.ref).value != []
    requires Remotes.Fetch(other, TrimSpace(Read(d, env.ref).value), d) ==
             Remotes.Fetch(env.remote, TrimSpace(Read(d, env.ref).value), d)
    ensures Pulled(env.(remote := other), codec, d) == Pulled(env, codec, d)
  {
  }

  // ---------------------------------------------------------------- pull: the entry set

  /** `x in s` for a sequence, by index. */
  lemma InSeq(s: seq<Path>, x: Path)
    ensures x in s <==> exists i :: 0 <= i < |s| && s[i] == x
  {
  }

  /** Missing declared files are reported first, all of them in declared order; extraneous entries
      only when none is missing, all of them in archive order; either report changes nothing, and a
      pull that passes both checks
      has exactly the declared names in its archive. */
  lemma {:induction false} ExtractChecksNames(files: seq<Path>, entries: Archive, d: Disk)
    ensures var (d1, r) := Extract(files, entries, d);
      && ((r.Err? && r.error.MissingFiles?) <==> exists i :: 0 <= i < |files| && files[i] !in NameSet(entries))
      && (r.Err? && r.error.MissingFiles? ==> r.error.names == Unlisted(files, NameSet(entries)))
      && (r.Err? && r.error.ExtraneousFiles? ==> r.error.names == Unlisted(Names(entries), ToSet(files)))
      && ((r.Err? && r.error.ExtraneousFiles?) <==>
            (forall i :: 0 <= i < |files| ==> files[i] in NameSet(entries)) &&
            exists i :: 0 <= i < |entries| && entries[i].name !in ToSet(files))
      && (r.Err? && (r.error.MissingFiles? || r.error.ExtraneousFiles?) ==> d1 == d)
      && (r.Ok? ==> NameSet(entries) == ToSet(files))
  {
    var missing := Unlisted(files, NameSet(entries));
    var extraneous := Unlisted(Names(entries), ToSet(files));
    if |missing| > 0 {
      assert missing[0] in missing;
    } else {
      assert forall i :: 0 <= i < |files| ==> files[i] in NameSet(entries);
      if |extraneous| > 0 {
        assert extraneous[0] in extraneous;
        InSeq(Names(entries), extraneous[0]);
      } else {
        forall i | 0 <= i < |entries| ensures entries[i].name in ToSet(files) {
          assert Names(entries)[i] == entries[i].name;
        }
      }
    }
  }

  // ---------------------------------------------------------------- pull: the rewrite loop

  /** Entries that agree on the bytes of every name they share (as those push writes do). */
  ghost predicate Consistent(entries: Archive) {
    forall i, j :: 0 <= i < |entries| && 0 <= j < |entries| && entries[i].name == entries[j].name ==>
      entries[i].content == entries[j].content
  }

  /** Every entry can be written: its name is not refused, nor its directory when one is made. */
  predicate Writable(entries: Archive, d: Disk) {
    forall i :: 0 <= i < |entries| ==>
      entries[i].name !in d.denied && (Dir(entries[i].name) == [Dot] || Dir(entries[i].name) !in d.denied)
  }

  /** No two entries share a name. */
  predicate DistinctNames(entries: Archive) {
    forall i, j :: 0 <= i < j < |entries| ==> entries[i].name != entries[j].name
  }

  /** How many entries differ from what d stores at their name (absent counts as different). */
  function Stale(entries: Archive, d: Disk): (n: nat)
    ensures n <= |entries|
  {
    if entries == [] then 0
    else (if Lookup(d, entries[0].name) != Some(entries[0].content) then 1 else 0) + Stale(entries[1..], d)
  }

  /** After a successful rewrite loop every entry's bytes are on disk at its name. */
  lemma {:induction false} MaterializeWrites(entries: Archive, d: Disk, changed: nat)
    requires Consistent(entries)
    requires Materialize(entries, d, changed).1.Ok?
    ensures forall i :: 0 <= i < |entries| ==>
      Lookup(Materialize(entries, d, changed).0, entries[i].name) == Some(entries[i].content)
    decreases |entries|
  {
    if entries != [] {
      var e := entries[0];
      var rest := entries[1..];
      var (d2, ch) := Rewrite(e, d);
      var c2 := if ch.value then changed + 1 else changed;
      assert Consistent(rest) by {
        forall i, j | 0 <= i < |rest| && 0 <= j < |rest| && rest[i].name == rest[j].name
          ensures rest[i].content == rest[j].content
        {
          assert rest[i] == entries[i + 1] && rest[j] == entries[j + 1];
        }
      }
      MaterializeWrites(rest, d2, c2);
      var final := Materialize(rest, d2, c2).0;
      assert Lookup(d2, e.name) == Some(e.content);
      forall i | 0 <= i < |entries| ensures Lookup(final, entries[i].name) == Some(entries[i].content) {
        if i > 0 {
          assert entries[i] == rest[i - 1];
        } else if e.name in NameSet(rest) {
          var j :| 0 <= j < |rest| && rest[j].name == e.name;
          assert rest[j] == entries[j + 1];
        }
      }
    }
  }

  /** The rewrite loop succeeds when every entry is writable. */
  lemma {:induction false} MaterializeSucceeds(entries: Archive, d: Disk, changed: nat)
    requires Writable(entries, d)
    ensures Materialize(entries, d, changed).1.Ok?
    decreases |entries|
  {
    if entries != [] {
      var (d2, ch) := Rewrite(entries[0], d);
      assert Writable(entries[1..], d2) by {
        forall i | 0 <= i < |entries[1..]| ensures entries[1..][i] == entries[i + 1] { }
      }
      MaterializeSucceeds(entries[1..], d2, if ch.value then changed + 1 else changed);
    }
  }

  /** Stale depends only on what is stored at the entries' names. */
  lemma {:induction false} StaleFrame(entries: Archive, d: Disk, d2: Disk)
    requires forall i :: 0 <= i < |entries| ==> Lookup(d2, entries[i].name) == Lookup(d, entries[i].name)
    ensures Stale(entries, d2) == Stale(entries, d)
    decreases |entries|
  {
    if entries != [] {
      assert forall i :: 0 <= i < |entries[1..]| ==> entries[1..][i] == entries[i + 1];
      StaleFrame(entries[1..], d, d2);
    }
  }

  /** With distinct names, pull's changedFiles is exactly the number of entries that differed. */
  lemma {:induction false} MaterializeCounts(entries: Archive, d: Disk, changed: nat)
    requires DistinctNames(entries)
    requires Materialize(entries, d, changed).1.Ok?
    ensures Materialize(entries, d, changed).1.value == changed + Stale(entries, d)
    decreases |entries|
  {
    if entries != [] {
      var e := entries[0];
      var rest := entries[1..];
      var (d2, ch) := Rewrite(e, d);
      assert DistinctNames(rest) by {
        forall i, j | 0 <= i < j < |rest| ensures rest[i].name != rest[j].name {
          assert rest[i] == entries[i + 1] && rest[j] == entries[j + 1];
        }
      }
      MaterializeCounts(rest, d2, if ch.value then changed + 1 else changed);
      forall i | 0 <= i < |rest| ensures Lookup(d2, rest[i].name) == Lookup(d, rest[i].name) {
        assert rest[i] == entries[i + 1];
      }
      StaleFrame(rest, d, d2);
    }
  }

  /** SameOutside composes. */
  lemma SameOutsideTrans(d: Disk, d1: Disk, d2: Disk, ps: set<Path>, qs: set<Path>)
    requires SameOutside(d, d1, ps) && SameOutside(d1, d2, qs)
    ensures SameOutside(d, d2, ps + qs)
  {
  }

  /** pull changes nothing but the declared files and what the Remote stores under the trimmed ref. */
  lemma {:induction false} PullChangesOnlyDeclared(env: Environ, codec: Codec, d: Disk)
    ensures Read(d, env.ref).Err? ==> Pulled(env, codec, d).0 == d
    ensures Read(d, env.ref).Ok? ==> SameOutside(d, Pulled(env, codec, d).0,
      Remotes.Paths(env.remote, TrimSpace(Read(d, env.ref).value)) + ToSet(env.files))
  {
    match Read(d, env.ref)
    case Err(_) =>
    case Ok(raw) =>
      var key := TrimSpace(raw);
      var ps := Remotes.Paths(env.remote, key) + ToSet(env.files);
      if |raw| > 0 {
        var (d1, got) := Remotes.Fetch(env.remote, key, d);
        if got.Ok? && codec.decode(got.value).Some? {
          var entries := codec.decode(got.value).value;
          PulledShape(env, codec, d, d1, got.value, entries);
          var d2 := Extract(env.files, entries, d1).0;
          if d2 != d1 {
            assert d2 == Materialize(entries, d1, 0).0;
            SameOutsideTrans(d, d1, d2, Remotes.Paths(env.remote, key), NameSet(entries));
          }
        }
      }
  }

  // ---------------------------------------------------------------- push

  /** push fails and changes nothing when a declared file cannot be read, which includes a missing one. */
  lemma PushStopsAtUnreadableFile(env: Environ, codec: Codec, d: Disk, i: nat)
    requires i < |env.files| && Read(d, env.files[i]).Err?
    ensures Pushed(env, codec, d).0 == d
    ensures Pushed(env, codec, d).1.Fail?
    ensures Pushed(env, codec, d).1.error.FileDoesNotExist? || Pushed(env, codec, d).1.error.ReadFailed?
  {
  }

  /** When the raw ref content already equals the key, push changes nothing and never calls the Remote. */
  lemma PushSkipsWhenRefMatches(env: Environ, codec: Codec, d: Disk, other: Remotes.Remote)
    requires BuildEntries(env.files, d).Ok?
    requires Read(d, env.ref) == Ok(KeyOf(codec, BuildEntries(env.files, d).value))
    ensures Pushed(env, codec, d) == (d, Pass)
    ensures Pushed(env.(remote := other), codec, d) == (d, Pass)
  {
  }

  /** push changes only the Remote's paths for the key and the ref file; a successful push leaves
      the ref file holding exactly the key; and the ref file changes only after the Remote's Write
      succeeded. */
  lemma PushRefFollowsUpload(env: Environ, codec: Codec, d: Disk)
    requires BuildEntries(env.files, d).Ok?
    ensures var entries := BuildEntries(env.files, d).value;
      var key := KeyOf(codec, entries);
      var (d2, r) := Pushed(env, codec, d);
      && SameOutside(d, d2, Remotes.Paths(env.remote, key) + {env.ref})
      && (r.Pass? ==> Read(d2, env.ref) == Ok(key))
      && (env.ref !in Remotes.Paths(env.remote, key) && Lookup(d2, env.ref) != Lookup(d, env.ref) ==>
            Remotes.Store(env.remote, key, codec.encode(entries), d).1 == Pass && Lookup(d2, env.ref) == Some(key))
      && (r.Fail? && r.error.UploadFailed? && env.ref !in Remotes.Paths(env.remote, key) ==>
            Lookup(d2, env.ref) == Lookup(d, env.ref))
  {
  }

  /** Reading the declared files depends only on what is stored at them. */
  lemma {:induction false} BuildEntriesFrame(files: seq<Path>, d: Disk, d2: Disk)
    requires d2.denied == d.denied
    requires forall i :: 0 <= i < |files| ==> Lookup(d2, files[i]) == Lookup(d, files[i])
    ensures BuildEntries(files, d2) == BuildEntries(files, d)
    decreases |files|
  {
    if files != [] {
      assert forall i :: 0 <= i < |files[1..]| ==> files[1..][i] == files[i + 1];
      BuildEntriesFrame(files[1..], d, d2);
    }
  }

  /** Pushing twice with unchanged files: the second push changes nothing and never calls the
      Remote, so any other Remote gives the same outcome. */
  lemma {:induction false} PushIdempotent(env: Environ, codec: Codec, d: Disk, other: Remotes.Remote)
    requires BuildEntries(env.files, d).Ok?
    requires Pushed(env, codec, d).1 == Pass
    requires env.ref !in ToSet(env.files)
    requires Remotes.Paths(env.remote, KeyOf(codec, BuildEntries(env.files, d).value)) !! ToSet(env.files)
    ensures var d1 := Pushed(env, codec, d).0; Pushed(env, codec, d1) == (d1, Pass)
    ensures var d1 := Pushed(env, codec, d).0; Pushed(env.(remote := other), codec, d1) == (d1, Pass)
  {
    var key := KeyOf(codec, BuildEntries(env.files, d).value);
    var d1 := Pushed(env, codec, d).0;
    PushRefFollowsUpload(env, codec, d);
    forall i | 0 <= i < |env.files| ensures Lookup(d1, env.files[i]) == Lookup(d, env.files[i]) {
      assert env.files[i] in ToSet(env.files);
    }
    BuildEntriesFrame(env.files, d, d1);
  }

  // ---------------------------------------------------------------- push, then pull

  /** The archive push builds, and the key it stores it under. */
  function PushedArchive(env: Environ, d: Disk): Archive
    requires BuildEntries(env.files, d).Ok?
  {
    BuildEntries(env.files, d).value
  }

  /** A file system that, after a push to d1, kept the ref file and what the Remote stores
      under key, and refuses the same paths. */
  ghost predicate KeptPush(d1: Disk, d2: Disk, env: Environ, key: Key) {
    && d2.denied == d1.denied
    && Lookup(d2, env.ref) == Lookup(d1, env.ref)
    && forall p :: p in Remotes.Paths(env.remote, key) ==> Lookup(d2, p) == Lookup(d1, p)
  }

  /** The Remote holds the pushed blob after a successful push. */
  lemma PushFillsRemote(env: Environ, codec: Codec, d: Disk)
    requires BuildEntries(env.files, d).Ok?
    requires Pushed(env, codec, d).1 == Pass
    requires env.ref !in Remotes.Paths(env.remote, KeyOf(codec, PushedArchive(env, d)))
    requires Remotes.Agrees(env.remote, KeyOf(codec, PushedArchive(env, d)), codec.encode(PushedArchive(env, d)), d)
    requires Read(d, env.ref) == Ok(KeyOf(codec, PushedArchive(env, d))) ==>
      Remotes.Holds(env.remote, KeyOf(codec, PushedArchive(env, d)), codec.encode(PushedArchive(env, d)), d)
    ensures Remotes.Holds(env.remote, KeyOf(codec, PushedArchive(env, d)), codec.encode(PushedArchive(env, d)),
      Pushed(env, codec, d).0)
  {
    var entries := PushedArchive(env, d);
    var blob := codec.encode(entries);
    var key := KeyOf(codec, entries);
    if Read(d, env.ref) != Ok(key) {
      Remotes.StoreFills(env.remote, key, blob, d);
    }
  }

  /** Once pull has fetched and decoded the archive, what remains is the entry checks and the rewrite loop. */
  lemma PulledShape(env: Environ, codec: Codec, d: Disk, d1: Disk, blob: Bytes, entries: Archive)
    requires Read(d, env.ref).Ok? && Read(d, env.ref).value != []
    requires Remotes.Fetch(env.remote, TrimSpace(Read(d, env.ref).value), d) == (d1, Ok(blob))
    requires codec.decode(blob) == Some(entries)
    ensures Pulled(env, codec, d) == Extract(env.files, entries, d1)
  {
  }

  /** Nothing is left over when every element is present. */
  lemma {:induction false} UnlistedEmpty(s: seq<Path>, present: set<Path>)
    requires forall i :: 0 <= i < |s| ==> s[i] in present
    ensures Unlisted(s, present) == []
    decreases |s|
  {
    if s != [] {
      UnlistedEmpty(s[..|s| - 1], present);
    }
  }

  /** An archive whose names are exactly the declared files passes both entry checks. */
  lemma ExtractPasses(files: seq<Path>, entries: Archive, d: Disk)
    requires NameSet(entries) == ToSet(files)
    ensures Extract(files, entries, d) == Materialize(entries, d, 0)
  {
    forall i | 0 <= i < |files| ensures files[i] in NameSet(entries) {
      assert files[i] in ToSet(files);
    }
    UnlistedEmpty(files, NameSet(entries));
    forall i | 0 <= i < |entries| ensures Names(entries)[i] in ToSet(files) {
      assert entries[i].name in NameSet(entries);
    }
    UnlistedEmpty(Names(entries), ToSet(files));
  }

  /** The archive push builds holds the declared files, in order, with their bytes. */
  lemma PushedArchiveNames(env: Environ, d: Disk)
    requires BuildEntries(env.files, d).Ok?
    ensures NameSet(PushedArchive(env, d)) == ToSet(env.files)
    ensures Consistent(PushedArchive(env, d))
  {
    var entries := PushedArchive(env, d);
    forall x | x in NameSet(entries) ensures x in ToSet(env.files) {
      var j :| 0 <= j < |entries| && entries[j].name == x;
      assert env.files[j] == x;
    }
    forall x | x in ToSet(env.files) ensures x in NameSet(entries) {
      var j :| 0 <= j < |env.files| && env.files[j] == x;
      assert entries[j].name == x;
    }
  }

  /** The ref file still holds the key in a file system that kept it after a successful push. */
  lemma KeptPushRef(env: Environ, codec: Codec, d: Disk, d2: Disk)
    requires BuildEntries(env.files, d).Ok?
    requires Pushed(env, codec, d).1 == Pass
    requires KeptPush(Pushed(env, codec, d).0, d2, env, KeyOf(codec, PushedArchive(env, d)))
    ensures Read(d2, env.ref) == Ok(KeyOf(codec, PushedArchive(env, d)))
    ensures d2.denied == d.denied
  {
    PushRefFollowsUpload(env, codec, d);
  }

  /** The Remote still serves the pushed blob in a file system that kept its copy. */
  lemma KeptPushRemote(env: Environ, codec: Codec, d: Disk, d2: Disk)
    requires BuildEntries(env.files, d).Ok?
    requires Pushed(env, codec, d).1 == Pass
    requires env.ref !in Remotes.Paths(env.remote, KeyOf(codec, PushedArchive(env, d)))
    requires Remotes.Readable(env.remote, KeyOf(codec, PushedArchive(env, d)), d)
    requires Remotes.Agrees(env.remote, KeyOf(codec, PushedArchive(env, d)), codec.encode(PushedArchive(env, d)), d)
    requires Read(d, env.ref) == Ok(KeyOf(codec, PushedArchive(env, d))) ==>
      Remotes.Holds(env.remote, KeyOf(codec, PushedArchive(env, d)), codec.encode(PushedArchive(env, d)), d)
    requires KeptPush(Pushed(env, codec, d).0, d2, env, KeyOf(codec, PushedArchive(env, d)))
    ensures Remotes.Fetch(env.remote, KeyOf(codec, PushedArchive(env, d)), d2) ==
      (d2, Ok(codec.encode(PushedArchive(env, d))))
  {
    var blob := codec.encode(PushedArchive(env, d));
    var key := KeyOf(codec, PushedArchive(env, d));
    PushFillsRemote(env, codec, d);
    assert Remotes.Holds(env.remote, key, blob, d2);
    Remotes.FetchHeld(env.remote, key, blob, d2);
  }

  /** Rewriting the pushed archive into any file system that refuses the same paths succeeds and
      puts back every declared file's pushed bytes. */
  lemma RestoreFiles(env: Environ, d: Disk, d2: Disk)
    requires BuildEntries(env.files, d).Ok?
    requires forall i :: 0 <= i < |env.files| ==> Dir(env.files[i]) == [Dot] || Dir(env.files[i]) !in d.denied
    requires d2.denied == d.denied
    ensures Materialize(PushedArchive(env, d), d2, 0).1.Ok?
    ensures forall i :: 0 <= i < |env.files| ==>
      Lookup(Materialize(PushedArchive(env, d), d2, 0).0, env.files[i]) == Lookup(d, env.files[i])
  {
    var entries := PushedArchive(env, d);
    PushedArchiveNames(env, d);
    assert Writable(entries, d2);
    MaterializeSucceeds(entries, d2, 0);
    MaterializeWrites(entries, d2, 0);
    forall i | 0 <= i < |env.files|
      ensures Lookup(Materialize(entries, d2, 0).0, env.files[i]) == Lookup(d, env.files[i])
    {
      assert entries[i] == Entry(env.files[i], Read(d, env.files[i]).value);
    }
  }

  /** A successful push followed by a pull restores every declared file byte for byte, whatever
      happened to the working tree in between, as long as the ref file and the Remote's copy are
      kept, the Remote stores only this blob under its key, and the files can be written. */
  lemma PushThenPullRestores(env: Environ, codec: Codec, d: Disk, d2: Disk)
    requires WellFormed(codec)
    requires BuildEntries(env.files, d).Ok?
    requires Pushed(env, codec, d).1 == Pass
    requires env.ref !in Remotes.Paths(env.remote, KeyOf(codec, PushedArchive(env, d)))
    requires Remotes.Readable(env.remote, KeyOf(codec, PushedArchive(env, d)), d)
    requires Remotes.Agrees(env.remote, KeyOf(codec, PushedArchive(env, d)), codec.encode(PushedArchive(env, d)), d)
    requires Read(d, env.ref) == Ok(KeyOf(codec, PushedArchive(env, d))) ==>
      Remotes.Holds(env.remote, KeyOf(codec, PushedArchive(env, d)), codec.encode(PushedArchive(env, d)), d)
    requires forall i :: 0 <= i < |env.files| ==> Dir(env.files[i]) == [Dot] || Dir(env.files[i]) !in d.denied
    requires KeptPush(Pushed(env, codec, d).0, d2, env, KeyOf(codec, PushedArchive(env, d)))
    ensures Pulled(env, codec, d2).1.Ok?
    ensures forall i :: 0 <= i < |env.files| ==> Lookup(Pulled(env, codec, d2).0, env.files[i]) == Lookup(d, env.files[i])
  {
    var entries := PushedArchive(env, d);
    var blob := codec.encode(entries);
    var key := KeyOf(codec, entries);
    assert Read(d2, env.ref) == Ok(key) && d2.denied == d.denied by {
      KeptPushRef(env, codec, d, d2);
    }
    assert Remotes.Fetch(env.remote, key, d2) == (d2, Ok(blob)) by {
      KeptPushRemote(env, codec, d, d2);
    }
    assert TrimSpace(key) == key && key != [] by {
      assert IsFingerprint(key);
      FingerprintIsTrimmed(key);
    }
    assert codec.decode(blob) == Some(entries);
    assert Pulled(env, codec, d2) == Materialize(entries, d2, 0) by {
      PulledShape(env, codec, d2, d2, blob, entries);
      PushedArchiveNames(env, d);
      ExtractPasses(env.files, entries, d2);
    }
    RestoreFiles(env, d, d2);
  }

  // ---------------------------------------------------------------- diff

  /** The comparison loop reports only on declared files: a LocalOnly flag for a name outside
      zipFiles, and a diff exactly when the archive's bytes differ from the local ones; it fails at
      the first declared file the archive or the working tree cannot provide. */
  lemma {:induction false} CompareReports(files: seq<Path>, zipFiles: set<Path>, entries: Archive, d: Disk)
    ensures var (r, out) := Compare(files, zipFiles, entries, d);
      && (forall x :: x in out ==> !x.RemoteOnly? && x.name in files)
      && (forall x :: x in out && x.LocalOnly? ==> x.name !in zipFiles)
      && (forall x :: x in out && x.Changed? ==>
            Open(entries, x.name) == Some(x.remote) && Read(d, x.name) == Ok(x.local) && x.remote != x.local)
      && (r.Pass? ==> forall i :: 0 <= i < |files| ==>
            && files[i] in NameSet(entries) && Read(d, files[i]).Ok?
            && (Open(entries, files[i]).value != Read(d, files[i]).value ==>
                  Changed(files[i], Open(entries, files[i]).value, Read(d, files[i]).value) in out))
      && (r.Fail? ==>
            || (r.error.OpenInArchiveFailed? && r.error.name in files && r.error.name !in NameSet(entries))
            || (r.error.LocalReadFailed? && r.error.name in files && Read(d, r.error.name).Err?))
  {
    ComparePrints(files, zipFiles, entries, d);
    CompareResult(files, zipFiles, entries, d);
  }

  /** What the comparison loop prints: flags and diffs of declared files only, each diff of bytes
      that really differ. */
  lemma {:induction false} ComparePrints(files: seq<Path>, zipFiles: set<Path>, entries: Archive, d: Disk)
    ensures var out := Compare(files, zipFiles, entries, d).1;
      && (forall x :: x in out ==> !x.RemoteOnly? && x.name in files)
      && (forall x :: x in out && x.LocalOnly? ==> x.name !in zipFiles)
      && (forall x :: x in out && x.Changed? ==>
            Open(entries, x.name) == Some(x.remote) && Read(d, x.name) == Ok(x.local) && x.remote != x.local)
    decreases |files|
  {
    if files != [] {
      assert forall x :: x in files[1..] ==> x in files;
      ComparePrints(files[1..], zipFiles, entries, d);
    }
  }

  /** How the comparison loop ends: it passes only when both sides provide every declared file,
      having printed a diff for each that differs, and fails at a declared file one side lacks. */
  lemma {:induction false} CompareResult(files: seq<Path>, zipFiles: set<Path>, entries: Archive, d: Disk)
    ensures var (r, out) := Compare(files, zipFiles, entries, d);
      && (r.Pass? ==> forall i :: 0 <= i < |files| ==>
            && files[i] in NameSet(entries) && Read(d, files[i]).Ok?
            && (Open(entries, files[i]).value != Read(d, files[i]).value ==>
                  Changed(files[i], Open(entries, files[i]).value, Read(d, files[i]).value) in out))
      && (r.Fail? ==>
            || (r.error.OpenInArchiveFailed? && r.error.name in files)
            || (r.error.LocalReadFailed? && r.error.name in files))
    decreases |files|
  {
    if files != [] {
      assert forall i :: 1 <= i < |files| ==> files[i] == files[1..][i - 1];
      CompareResult(files[1..], zipFiles, entries, d);
    }
  }

  /** Once diff has the archive and every declared file exists, it prints the RemoteOnly flags
      and then what the comparison loop prints. */
  lemma DiffedShape(env: Environ, codec: Codec, d: Disk, d1: Disk, blob: Bytes, entries: Archive)
    requires Read(d, env.ref).Ok?
    requires Remotes.Fetch(env.remote, TrimSpace(Read(d, env.ref).value), d) == (d1, Ok(blob))
    requires FirstMissing(env.files, d1).None?
    requires codec.decode(blob) == Some(entries)
    ensures Diffed(env, codec, d) ==
      (d1, Compare(env.files, ToSet(env.files), entries, d1).0,
       FlagRemoteOnly(Names(entries), ToSet(env.files)) + Compare(env.files, ToSet(env.files), entries, d1).1)
  {
  }

  /** A declared file missing locally stops diff with nothing printed. */
  lemma DiffedStops(env: Environ, codec: Codec, d: Disk, d1: Disk, blob: Bytes)
    requires Read(d, env.ref).Ok?
    requires Remotes.Fetch(env.remote, TrimSpace(Read(d, env.ref).value), d) == (d1, Ok(blob))
    requires FirstMissing(env.files, d1).Some?
    ensures Diffed(env, codec, d) == (d1, Fail(FileDoesNotExist(FirstMissing(env.files, d1).value)), [])
  {
  }

  /** diff changes nothing but what the Remote stores under the trimmed ref (a cache fill). */
  lemma DiffChangesOnlyRemote(env: Environ, codec: Codec, d: Disk)
    ensures Read(d, env.ref).Err? ==> Diffed(env, codec, d).0 == d
    ensures Read(d, env.ref).Ok? ==>
      SameOutside(d, Diffed(env, codec, d).0, Remotes.Paths(env.remote, TrimSpace(Read(d, env.ref).value)))
  {
    if Read(d, env.ref).Ok? {
      var (d1, got) := Remotes.Fetch(env.remote, TrimSpace(Read(d, env.ref).value), d);
      if got.Ok? {
        if FirstMissing(env.files, d1).Some? {
          DiffedStops(env, codec, d, d1, got.value);
        } else if codec.decode(got.value).Some? {
          DiffedShape(env, codec, d, d1, got.value, codec.decode(got.value).value);
        }
      }
    }
  }

  /** A declared file missing locally fails diff before the archive is read, and nothing is printed. */
  lemma DiffStopsAtMissingFile(env: Environ, codec: Codec, d: Disk, d1: Disk, blob: Bytes, i: nat)
    requires Read(d, env.ref).Ok?
    requires Remotes.Fetch(env.remote, TrimSpace(Read(d, env.ref).value), d) == (d1, Ok(blob))
    requires i < |env.files| && StatOf(d1, env.files[i]) == Fail(NotExist(env.files[i]))
    ensures Diffed(env, codec, d).1.Fail? && Diffed(env, codec, d).1.error.FileDoesNotExist?
    ensures Diffed(env, codec, d).2 == []
  {
    assert FirstMissing(env.files, d1).Some?;
    DiffedStops(env, codec, d, d1, blob);
  }

  /** What diff's output promises about the archive `entries` and the working tree d1: every archive
      entry outside the declared files is flagged; the "not remote" flag is never printed, because
      the remote-side set is built from the declared files; a diff is printed for a declared file
      exactly when its archive and local bytes differ; and a declared file absent from the archive
      makes diff fail. */
  ghost predicate FaithfulReports(files: seq<Path>, entries: Archive, d1: Disk, r: Outcome<Error>, out: seq<Report>) {
    && (forall x :: x in out ==> !x.LocalOnly?)
    && (forall x :: x in out && x.RemoteOnly? ==> x.name in Names(entries) && x.name !in ToSet(files))
    && (r.Pass? || r.error.OpenInArchiveFailed? || r.error.LocalReadFailed? ==>
          forall i :: 0 <= i < |entries| && entries[i].name !in ToSet(files) ==> RemoteOnly(entries[i].name) in out)
    && (forall x :: x in out && x.Changed? ==>
          x.name in files && Open(entries, x.name) == Some(x.remote) && Read(d1, x.name) == Ok(x.local) &&
          x.remote != x.local)
    && (r.Pass? ==> forall i :: 0 <= i < |files| ==>
          && files[i] in NameSet(entries) && Read(d1, files[i]).Ok?
          && (Changed(files[i], Open(entries, files[i]).value, Read(d1, files[i]).value) in out <==>
              Open(entries, files[i]).value != Read(d1, files[i]).value))
    && ((exists i :: 0 <= i < |files| && files[i] !in NameSet(entries)) ==> r.Fail?)
  }

  /** The RemoteOnly flags followed by the comparison loop's output are faithful reports. */
  lemma {:induction false} ComparedReports(files: seq<Path>, entries: Archive, d1: Disk)
    ensures var (r, compared) := Compare(files, ToSet(files), entries, d1);
      FaithfulReports(files, entries, d1, r, FlagRemoteOnly(Names(entries), ToSet(files)) + compared)
  {
    var flagged := FlagRemoteOnly(Names(entries), ToSet(files));
    var (r, compared) := Compare(files, ToSet(files), entries, d1);
    var out := flagged + compared;
    CompareReports(files, ToSet(files), entries, d1);
    forall i | 0 <= i < |entries| && entries[i].name !in ToSet(files) ensures RemoteOnly(entries[i].name) in out {
      assert Names(entries)[i] == entries[i].name;
      assert RemoteOnly(entries[i].name) in flagged;
    }
    if r.Pass? {
      forall i | 0 <= i < |files|
        ensures Changed(files[i], Open(entries, files[i]).value, Read(d1, files[i]).value) in out <==>
                Open(entries, files[i]).value != Read(d1, files[i]).value
      {
        var c := Changed(files[i], Open(entries, files[i]).value, Read(d1, files[i]).value);
        if c in out {
          assert c !in flagged;
          assert c in compared;
        }
      }
    }
  }

  /** Once diff has fetched and decoded the archive, its state is the fetched one and its output
      is faithful. */
  lemma DiffReports(env: Environ, codec: Codec, d: Disk, d1: Disk, blob: Bytes, entries: Archive)
    requires Read(d, env.ref).Ok?
    requires Remotes.Fetch(env.remote, TrimSpace(Read(d, env.ref).value), d) == (d1, Ok(blob))
    requires codec.decode(blob) == Some(entries)
    ensures Diffed(env, codec, d).0 == d1
    ensures FaithfulReports(env.files, entries, d1, Diffed(env, codec, d).1, Diffed(env, codec, d).2)
  {
    if FirstMissing(env.files, d1).Some? {
      DiffedStops(env, codec, d, d1, blob);
    } else {
      DiffedShape(env, codec, d, d1, blob, entries);
      ComparedReports(env.files, entries, d1);
    }
  }
}
