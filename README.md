# environ sync engine, in Dafny

`environ` keeps named *environments* in sync between a working tree and a
remote blob store. An environment is declared by name. It has a Remote, an
ordered list of tracked files and a ref file.

- **push** bundles the tracked files into an archive. The archive's
  fingerprint is the base64url SHA-256 of its bytes, and that fingerprint is
  the blob's key. Push uploads the archive under that key and records the key
  in the ref file. When the ref file already holds the key, push does nothing.
- **pull** reads and trims the ref file and downloads that blob. The archive's
  entry set must equal the declared files. Pull then rewrites only the files
  whose bytes differ.
- **diff** downloads the same blob and reports what differs from the working
  tree.
- **pullAll**, **pushAll** and **diffAll** run one operation over a list of
  names, in order. They stop at the first unknown name or failure.

Remotes come in these forms:

- a write-once file-system store (`fs`): an existing key counts as success;
- a local directory that overwrites (`local`);
- a `Cache(By, Of)` decorator: reads go through the cache `By`, and writes go
  first to the origin `Of`, then to `By`.

How the model is built:

- **State.** The whole machine state is one `Os.FileSystem` object. Its
  `files` map holds, path by path, the working tree, the ref files and every
  backend's blob files. Its fixed `denied` set stands for paths on which the
  operating system refuses access.
- **Methods proved against functions.** Every operation is an imperative
  method on that object, proved equal to a function of the old state:
  `Sync.Pulled`, `Sync.Pushed`, `Sync.Diffed`, `Remotes.Fetch`,
  `Remotes.Store` and `Environs.Batch`. The promised properties are lemmas
  about those functions.
- **Loops.** Each loop of the source is a method with its invariants:
  - `CollectFiles`, `CollectNames`, `ListUnlisted` and `WriteEntries` (pull);
  - `ReadTracked` (push);
  - `FindMissing`, `ListRemoteOnly` and `CompareFiles` (diff);
  - the three batch drivers.
- **Remote.** The Go `Remote` interface is the datatype `Remotes.Remote`, one
  constructor per backend. `Get` and `Write` dispatch on it.
- **Archive codec.** The ZIP writer/reader, SHA-256 and base64url are a
  `Codec` value with three functions. `Archives.WellFormed` states the two
  facts the engine relies on:
  - decoding an encoded archive gives back its entries;
  - fingerprints are 43 base64url characters.
- **Diff output.** What diff prints is a sequence of `Sync.Report` values:
  a missing-side flag, or the pair of byte strings whose unified diff is
  printed.

## Behaviour of the code worth knowing

- **diff's "not remote" flag never prints.** `zipFiles` in diff is built from
  the declared files, not from the archive (main.go:292-295). So the "in
  working directory but not remote" flag cannot print. A declared file missing
  from the archive fails at `zipReader.Open` instead (main.go:323-326).
  `SyncProperties.DiffReports` proves that no `LocalOnly` report is produced.
- **diff's order is the code's order.** diff walks the archive's entries, then
  the declared files, each in its own order (main.go:313-349).
- **pull's rewrite loop is not atomic.** The structural checks abort the
  whole pull before anything is written (main.go:164-182). But a failure
  inside the rewrite loop leaves the files rewritten before it in place
  (main.go:184-222). `Sync.Materialize` models this as written.

## Model

| member | source | states |
|---|---|---|
| FileStore.KeyPathInjective | fs.go:41-43 | distinct keys are stored at distinct paths under root/prefix |
| FileStore.Fetch | fs.go:45-47 | Get succeeds iff the blob path exists and is readable, and then returns exactly the stored bytes; an absent blob is an error |
| FileStore.Get | fs.go:45-47 | the method returns what Fetch gives for the current state and changes nothing |
| FileStore.Store | fs.go:51-70 | Write changes at most the key's blob path, and only to the value written |
| FileStore.Write | fs.go:51-70 | the method's new state and result are those of Store on the old state |
| FileStore.WriteAbsentStores | fs.go:53-69 | on an absent, writable key, Write stores exactly the value, and Get then returns it |
| FileStore.WriteExistingKeeps | fs.go:57-62 | write-once: on an existing key Write succeeds and leaves everything unchanged |
| FileStore.WriteTwiceSucceeds | fs.go:49-62 | writing the same key twice succeeds both times, and the second write changes nothing |
| FileStore.WriteFailureStoresNothing | fs.go:53-64 | a failed Write leaves the state unchanged |
| FileStore.WriteFailsOnlyWhenRefused | fs.go:53-64 | Write fails exactly when MkdirAll of the parent is refused (a parent-directory error) or the blob is absent and its exclusive create is refused (that os error); an existing blob is success |
| FileStore.WriteLeavesOtherKeys | fs.go:41-57 | a Write does not change what Get returns for any other key |
| LocalStore.BlobPathInjective | local.go:32-38 | distinct keys are stored at distinct paths under the directory |
| LocalStore.Fetch | local.go:32-34 | Get succeeds iff the blob exists and is readable, and then returns exactly the stored bytes |
| LocalStore.Get | local.go:32-34 | the method returns what Fetch gives for the current state |
| LocalStore.Store | local.go:36-38 | Write changes at most the key's path, and only to the value written |
| LocalStore.Write | local.go:36-38 | the method's new state and result are those of Store on the old state |
| LocalStore.WriteThenGet | local.go:32-38 | overwrite semantics: after a successful Write, Get returns the new value whatever was stored before |
| LocalStore.WriteFailsOnlyWhenRefused | local.go:36-38 | Write fails exactly when the path is refused, and a failure stores nothing |
| LocalStore.WriteIdempotent | local.go:36-38 | repeating a Write reaches the same state and result |
| LocalStore.WriteLeavesOtherKeys | local.go:32-38 | a Write does not change what Get returns for any other key |
| Remotes.Fetch | cache.go:25-37 | Get on any Remote, Cache included, changes nothing outside the paths the key maps to |
| Remotes.Store | cache.go:39-44 | Write on any Remote writes only the value, and only at the key's paths |
| Remotes.Get | main.go:28-30 | the interface dispatch of Get equals Fetch on the old state |
| Remotes.Write | main.go:28-30 | the interface dispatch of Write equals Store on the old state |
| Remotes.CacheGet | cache.go:25-37 | the Cache decorator's Get equals Fetch of the Cache remote on the old state |
| Remotes.CacheWrite | cache.go:39-44 | the Cache decorator's Write equals Store of the Cache remote on the old state |
| Remotes.StoreFills | cache.go:39-44 | under content addressing, a successful Write leaves the value at every path of the key, through any nesting of caches |
| Remotes.FetchHeld | cache.go:25-28 | when every path of the key holds the value, Get returns it and changes nothing |
| Remotes.WriteThenGet | cache.go:25-44 | for every Remote, Get returns what a successful Write stored |
| Remotes.CacheHitIgnoresOrigin | cache.go:26-28 | on a hit in By, Get returns By's bytes, and any other origin gives the same state and result |
| Remotes.CacheMiss | cache.go:29-36 | on a By error, the origin's error is returned unchanged; otherwise the origin's content is returned exactly when storing it in By succeeds |
| Remotes.CacheWriteOriginFails | cache.go:40-42 | when the origin's Write fails, that error is the result, and nothing outside the origin's paths changes |
| Remotes.CacheWriteCacheFails | cache.go:43 | after the origin succeeded, By's failure is the result, while the origin keeps the value |
| Remotes.CacheWriteThenGet | cache.go:25-44 | after a successful Cache Write, Get is served from By with any origin |
| Remotes.CachePromotes | cache.go:29-36 | a Get that misses By and hits the origin leaves the blob in By, which then serves it alone |
| Archives.Names | main.go:175-179 | one name per entry, and a name occurs in the sequence exactly when some entry carries it |
| Archives.Open | main.go:323-330 | opening a name succeeds iff the archive has an entry of that name, and returns that entry's bytes |
| Sync.TrimSpace | main.go:142 | the result is a slice s[i..j] of the input with only white space before i and after j; it neither starts nor ends with white space, and a string without such white space is kept as is |
| Sync.Unlisted | main.go:164-182 | the names of the sequence not in the set, and only those |
| Sync.HasChanged | main.go:122-131 | fileHasChanged is an error iff the file cannot be read for a reason other than absence, and true iff the file is absent or holds other bytes |
| Sync.FileHasChanged | main.go:122-131 | the method returns HasChanged of the current state |
| Sync.Rewrite | main.go:186-221 | one entry is rewritten iff its bytes differ on disk; the file then holds the entry's bytes, and otherwise nothing changes |
| Sync.Materialize | main.go:184-222 | the rewrite loop counts at most one rewrite per entry, fails only on mkdir, change-check or create, and changes only entry paths |
| Sync.CollectFiles | main.go:154-157 | the expectedFiles map is the set of declared files |
| Sync.CollectNames | main.go:159-162 | the zipFiles map is the set of entry names |
| Sync.ListUnlisted | main.go:164-182 | the missing and extraneous loops list exactly the names not in the other set, in order |
| Sync.WriteEntries | main.go:184-222 | the rewrite loop's new state and count equal Materialize from zero |
| Sync.Extract | main.go:164-222 | a failed name check changes nothing and lists at least one name; whenever the state changes, the entry names are exactly the declared files |
| Sync.Pulled | main.go:133-228 | pull succeeds only from a readable, non-empty ref file whose trimmed key the Remote serves, and fails only with the error kinds of main.go:133-228 |
| Sync.Pull | main.go:133-228 | pull's new state and result equal Pulled on the old state |
| Sync.Track | main.go:234-247 | one file's bytes are read exactly when the file is readable; a file that does not exist gives FileDoesNotExist, any other read error ReadFailed |
| Sync.Pushed | main.go:230-278 | push fails only on a declared file, the upload or the ref update, and a failure on a declared file changes nothing |
| Sync.BuildEntries | main.go:234-253 | the archive is built iff every declared file is readable; it then has one entry per file, in order and with its bytes; otherwise the error names a declared file |
| Sync.ReadTracked | main.go:234-253 | the method returns BuildEntries of the current state |
| Sync.Push | main.go:230-278 | push's new state and result equal Pushed on the old state |
| Sync.FirstMissing | main.go:302-306 | a declared file that does not exist and before which every declared file exists, or none exactly when every declared file exists |
| Sync.FindMissing | main.go:302-306 | the method returns FirstMissing of the current state |
| Sync.FlagRemoteOnly | main.go:313-317 | exactly the archive names outside localFiles are flagged |
| Sync.ListRemoteOnly | main.go:313-317 | the method's flags equal FlagRemoteOnly over the entry names |
| Sync.Compare | main.go:319-349 | the comparison loop fails only at a file the archive does not hold or the working tree cannot read |
| Sync.CompareStops | main.go:323-335 | at a file one side cannot provide, the loop stops with that file's error after printing only its flag |
| Sync.CompareNext | main.go:319-348 | at a file both sides provide, the loop prints the file's flag and diff and goes on with the next file |
| Sync.CompareFiles | main.go:319-349 | the method's result and reports equal Compare on the current state |
| Sync.Diffed | main.go:280-352 | diff fails only with the error kinds of main.go:280-352, and every failure before the comparison loop prints nothing |
| Sync.Diff | main.go:280-352 | diff's new state, result and reports equal Diffed on the old state |
| Environs.Register | main.go:110-119 | declaring a name fails iff it is already declared, keeping the registry; otherwise it adds exactly that name and keeps the others |
| Environs.Registry.Declare | main.go:110-119 | the environ builtin updates the registry as Register does |
| Environs.Step | main.go:354-391 | only diff prints reports; pull and push print none |
| Environs.Named | main.go:355-363 | an unknown name fails with EnvironNotFound and changes nothing; an operation failure is wrapped with the operation and the name |
| Environs.Batch | main.go:354-391 | a batch fails only with an unknown listed name or a wrapped failure of a known listed name, and passes only if every name is known |
| Environs.RunStep | main.go:360 | running one operation equals Step on the old state |
| Environs.RunNamed | main.go:355-363 | the loop body for one name equals Named on the old state |
| Environs.PullAll | main.go:354-365 | pullAll equals Batch of pull over the names, on the old state |
| Environs.PushAll | main.go:367-378 | pushAll equals Batch of push over the names, on the old state |
| Environs.DiffAll | main.go:380-391 | diffAll equals Batch of diff over the names, on the old state |
| Environs.BatchAppend | main.go:354-365 | running first ++ second is running first, then, unless it failed, second from the state it left |
| Environs.BatchStopsAtFailure | main.go:360-362 | names after a failure are never run |
| Environs.BatchStopsAtUnknown | main.go:356-359 | an unknown name ends the batch where it stands, after the names before it ran |
| SyncProperties.FingerprintIsTrimmed | main.go:259-261 | a fingerprint has no white space to trim, so the key push writes is the key pull reads |
| SyncProperties.PullRefChecks | main.go:134-140 | an unreadable or empty ref file fails pull before the remote is touched |
| SyncProperties.PullFetchesTrimmedRef | main.go:142-147 | pull depends on the remote only through its Get of the trimmed ref |
| SyncProperties.ExtractChecksNames | main.go:164-182 | missing files are reported iff a declared file has no entry, and with the full list; extraneous files iff all are present but some entry is undeclared; both change nothing; each error carries the full list, missing files in declared order and extraneous ones in archive order; on success the entry set equals the declared set |
| SyncProperties.MaterializeWrites | main.go:184-222 | after a successful rewrite loop, every entry's file holds that entry's bytes |
| SyncProperties.MaterializeSucceeds | main.go:185-221 | when every name and needed directory is writable, the rewrite loop succeeds |
| SyncProperties.MaterializeCounts | main.go:209-221 | with distinct names, the count is exactly the number of entries that differed on disk |
| SyncProperties.PullChangesOnlyDeclared | main.go:133-228 | pull changes nothing besides the declared files and the remote's paths for the ref key |
| SyncProperties.PushStopsAtUnreadableFile | main.go:234-247 | a declared file that cannot be read fails push, changing nothing |
| SyncProperties.PushSkipsWhenRefMatches | main.go:263-265 | when the ref file already holds the key, push succeeds without touching the remote or any state |
| SyncProperties.PushRefFollowsUpload | main.go:263-274 | push changes only the remote's paths and the ref file; on success the ref holds the key; the ref changes only after a successful upload; a failed upload leaves it alone |
| SyncProperties.PushIdempotent | main.go:259-265 | a second push with unchanged files succeeds, changes nothing and never calls the Remote (any other Remote gives the same outcome), when neither the ref file nor the blob paths are tracked files |
| SyncProperties.PushFillsRemote | main.go:267-270 | after a successful push, every path of the remote for the key holds the archive bytes |
| SyncProperties.PushedArchiveNames | main.go:234-253 | the pushed archive's names are the declared files, and same-named entries carry the same bytes |
| SyncProperties.PushThenPullRestores | main.go:133-278 | round trip: a pull from any state that kept the ref file and the blob succeeds and restores every declared file to its bytes at push time |
| SyncProperties.CompareReports | main.go:319-349 | the comparison loop reports only declared files; it reports a diff exactly for differing bytes; it fails at a file the archive or the working tree cannot provide |
| SyncProperties.ComparePrints | main.go:319-348 | everything the comparison loop prints is about a declared file: a flag never for a file in zipFiles, a diff only of bytes that really differ |
| SyncProperties.CompareResult | main.go:323-335 | the comparison loop passes only when both sides provide every declared file, having printed a diff for each difference, and fails only at a declared file |
| SyncProperties.DiffChangesOnlyRemote | main.go:280-352 | diff changes nothing besides what the remote's Get changes for the ref key |
| SyncProperties.DiffStopsAtMissingFile | main.go:302-306 | a declared file that does not exist fails diff before anything is printed |
| SyncProperties.DiffedStops | main.go:302-306 | diff fails with the first declared file that does not exist, printing nothing |
| SyncProperties.ComparedReports | main.go:313-349 | for any archive and state, the RemoteOnly flags followed by the comparison loop's reports satisfy FaithfulReports, the property stated in the next row |
| SyncProperties.DiffReports | main.go:292-349 | diff prints a RemoteOnly flag exactly for undeclared archive entries, a Changed report exactly for declared files whose bytes differ, and never the "not remote" flag; a declared file absent from the archive fails diff |

## Left out

- The Starlark configuration layer (the `fs`, `local`, `cache`, `gcs`, `s3`
  and `environ` builtins' argument unpacking, `~/` expansion, and the
  backends' `String`, `Type`, `Freeze`, `Truth` and `Hash` methods) is not
  modelled. It is configuration, not sync logic. The duplicate-name check of
  `environ` is modelled.
- The constructors' `MkdirAll` of the base directory (fs.go:27, local.go:20)
  runs at configuration time and is not modelled.
- The `main`/`usage` flow and command-line parsing are left out. So is the
  order in which `usage` lists the environments, which is Go's map order.
- The GCS and S3 backends (gcs.go, s3.go) talk to the network and are not
  part of this model.
- The ZIP format, SHA-256 and base64url are the abstract `Codec`:
  - no byte layout is modelled;
  - the failures of `zipWriter.Create`, `zipFile.Write` and `zipWriter.Close`
    (main.go:239-257) cannot occur in the model. Writing into memory does not
    fail, and `Codec.encode` accepts every entry name, including one longer
    than 65535 bytes, which `zipWriter.Create` refuses.
- Sync.Materialize: `Codec.decode` yields either no archive or every entry's
  bytes. So an entry that `zip.NewReader` accepts but that cannot be read
  later is not modelled. Examples are an unknown compression method, which
  `file.Open` rejects, and a checksum mismatch, which `io.ReadAll` reports
  at the end. The errors of main.go:193-202 in pull's loop, which would
  strike after earlier entries were rewritten, are therefore left out.
- Sync.Compare: for the same reason, diff's `io.ReadAll` failure on an archive
  entry (main.go:327-330) is left out.
- Archives.Open: `zipReader.Open` rejects names that are not valid `fs`
  paths (absolute, with `..` or empty elements), even when an entry carries
  them. The model treats a name as openable exactly when an entry has it.
  When several entries share a name, the model reads the first; which one Go
  picks is not modelled.
- The patience line diff and the unified-diff rendering (main.go:337-347) are
  left out. A `Changed` report carries the two byte strings the diff is
  computed from.
- The log lines of pull and push are left out.
- Os.Join and Os.Dir model `filepath.Join` and `filepath.Dir` on clean,
  relative, slash-separated paths. `filepath.Clean`'s handling of `..`,
  repeated slashes and absolute paths is not modelled.
- Sync.TrimSpace trims ASCII white space only. Go's `strings.TrimSpace` also
  trims Unicode spaces such as U+0085 and U+00A0.
- Directories are not modelled as separate objects. `MkdirAll` fails exactly
  on a refused directory. A file standing where a directory is needed is not
  modelled.
- Writes are atomic in the model. A partial write followed by an error
  (`localFile.Write`, `fp.Write`, `os.WriteFile`) is not modelled.
- Sync.Rewrite: once the change check has read a file, its create cannot fail
  in the model. Readable and writable are the same `denied` test. So the
  create-failure error is modelled but unreachable.
- Remotes.CachePromotes is stated for a cache `By` that is a plain backend
  and stores the key at paths disjoint from the origin's. Nested caches and
  shared storage are not covered by that lemma.
- All backends share one file system, instead of being separate stores. The
  lemmas that need them apart say so in their preconditions, for example that
  the ref file is not one of the remote's blob paths.
- Concurrency between processes, timeouts and cancellation are left out. The
  engine is sequential.
