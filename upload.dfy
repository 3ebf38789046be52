/** `uploadFile` and `uploadDirRecursive` of deploy.js. A file upload first ensures the
    remote parent directory, then puts the file (or, in a dry run, only logs). A
    directory upload walks a local listing in order: it recurses into directories,
    uploads files and ignores every other kind of entry. */
module Upload {
  import opened Paths
  import opened Remote
  import opened EnsureDir

  /** One entry of a local directory listing, as `readdirSync(dir, { withFileTypes: true })`
      classifies it: a regular file, a directory with its own listing, or anything
      else (a symbolic link, a socket, ...). */
  datatype Entry = File(name: string) | Dir(name: string, children: seq<Entry>) | Other(name: string)

  /** `path.join(dir, name)` on the local side. */
  function LocalJoin(dir: string, name: string): string {
    dir + "/" + name
  }

  /** What `uploadFile(localFile, remoteFile)` does. */
  function UploadFileSpec(s: State, f: Faults, localFile: string, remoteFile: string, dry: bool): Run {
    var ensured := Ensure(s, f, Dirname(remoteFile), dry);
    if dry then Run(LogStep(ensured, DryPut(localFile, remoteFile)), Ok)
    else
      var put := PutStep(ensured, f, localFile, remoteFile);
      if remoteFile in f.put then Run(put, Failed(PutFailed(localFile, remoteFile)))
      else Run(LogStep(put, Uploaded(localFile, remoteFile)), Ok)
  }

  /** What one step of the loop of `uploadDirRecursive(localDir, remoteDir)` does. */
  function UploadEntry(s: State, f: Faults, localDir: string, remoteDir: string, e: Entry, dry: bool): Run
    decreases e
  {
    match e
    case Dir(name, children) =>
      UploadEntries(s, f, LocalJoin(localDir, name), PosixJoin([remoteDir, name]), children, dry)
    case File(name) =>
      UploadFileSpec(s, f, LocalJoin(localDir, name), PosixJoin([remoteDir, name]), dry)
    case Other(_) => Run(s, Ok)
  }

  /** What `uploadDirRecursive(localDir, remoteDir)` does with the listing `entries`:
      the entries one after the other, stopping at the first error. */
  function UploadEntries(s: State, f: Faults, localDir: string, remoteDir: string, entries: seq<Entry>, dry: bool): Run
    decreases entries
  {
    if entries == [] then Run(s, Ok)
    else
      var r := UploadEntry(s, f, localDir, remoteDir, entries[0], dry);
      if r.outcome.Failed? then r else UploadEntries(r.state, f, localDir, remoteDir, entries[1..], dry)
  }

  /** A listing is its first entry followed, unless that one failed, by the rest. */
  lemma UploadEntriesCons(s: State, f: Faults, localDir: string, remoteDir: string, entries: seq<Entry>, dry: bool)
    requires entries != []
    ensures var r := UploadEntry(s, f, localDir, remoteDir, entries[0], dry);
      UploadEntries(s, f, localDir, remoteDir, entries, dry)
        == if r.outcome.Failed? then r else UploadEntries(r.state, f, localDir, remoteDir, entries[1..], dry)
  {
  }

  /** The (local, remote) pairs of the regular files below one entry, in listing order:
      the reference for what a directory upload transfers. */
  function FilesOfEntry(localDir: string, remoteDir: string, e: Entry): seq<(string, string)>
    decreases e
  {
    match e
    case File(name) => [(LocalJoin(localDir, name), PosixJoin([remoteDir, name]))]
    case Dir(name, children) => FilesOf(LocalJoin(localDir, name), PosixJoin([remoteDir, name]), children)
    case Other(_) => []
  }

  function FilesOf(localDir: string, remoteDir: string, entries: seq<Entry>): seq<(string, string)>
    decreases entries
  {
    if entries == [] then [] else FilesOfEntry(localDir, remoteDir, entries[0]) + FilesOf(localDir, remoteDir, entries[1..])
  }

  /** The transfers among `evs`, in order: every `fastPut`, and every dry-run notice
      of a put that was skipped. */
  function Transfers(evs: seq<Event>): seq<(string, string)> {
    if evs == [] then []
    else
      var e := evs[0];
      (if e.Put? then [(e.local, e.remote)]
       else if e.Log? && e.message.DryPut? then [(e.message.local, e.message.remote)]
       else []) + Transfers(evs[1..])
  }

  lemma {:induction false} TransfersAppend(a: seq<Event>, b: seq<Event>)
    ensures Transfers(a + b) == Transfers(a) + Transfers(b)
  {
    if a == [] {
      assert a + b == b;
    } else {
      assert (a + b)[0] == a[0] && (a + b)[1..] == a[1..] + b;
      TransfersAppend(a[1..], b);
    }
  }

  lemma {:induction false} TransfersOfProbes(evs: seq<Event>)
    requires Probes(evs)
    ensures Transfers(evs) == []
  {
    if evs != [] {
      assert evs[0] in evs;
      assert forall e :: e in evs[1..] ==> e in evs;
      TransfersOfProbes(evs[1..]);
    }
  }

  /** How a walk over `files` went, seen through the transfers `t` it issued: `t` is a
      prefix of `files`; a successful walk transferred them all and no put was refused;
      a failed walk stopped at its last transfer, a real put that the server refused,
      after putting the earlier ones. */
  predicate WalkReport(t: seq<(string, string)>, files: seq<(string, string)>, outcome: Outcome, f: Faults, dry: bool) {
    && t <= files
    && (outcome.Ok? ==> t == files)
    && (forall k :: 0 <= k < |t| && (outcome.Ok? || k < |t| - 1) ==> dry || t[k].1 !in f.put)
    && (outcome.Failed? ==>
          !dry && |t| > 0 && outcome.error == PutFailed(t[|t| - 1].0, t[|t| - 1].1) && t[|t| - 1].1 in f.put)
  }

  lemma WalkReportThen(t1: seq<(string, string)>, files1: seq<(string, string)>,
                       t2: seq<(string, string)>, files2: seq<(string, string)>,
                       o2: Outcome, f: Faults, dry: bool)
    requires WalkReport(t1, files1, Ok, f, dry) && WalkReport(t2, files2, o2, f, dry)
    ensures WalkReport(t1 + t2, files1 + files2, o2, f, dry)
  {
    var t := t1 + t2;
    forall k | 0 <= k < |t| && (o2.Ok? || k < |t| - 1) ensures dry || t[k].1 !in f.put {
      if k >= |t1| {
        assert t[k] == t2[k - |t1|];
      }
    }
    if o2.Failed? {
      assert t[|t| - 1] == t2[|t2| - 1];
    }
  }

  lemma WalkReportStop(t: seq<(string, string)>, files: seq<(string, string)>,
                       more: seq<(string, string)>, o: Outcome, f: Faults, dry: bool)
    requires o.Failed? && WalkReport(t, files, o, f, dry)
    ensures WalkReport(t, files + more, o, f, dry)
  {
  }

  lemma WalkReportOk(t: seq<(string, string)>, files: seq<(string, string)>, o: Outcome, f: Faults, dry: bool)
    requires WalkReport(t, files, o, f, dry)
    ensures o.Ok? <==> dry || forall p :: p in files ==> p.1 !in f.put
  {
    if o.Failed? {
      var k := |t| - 1;
      assert t == files[..|t|];
      assert t[k] == files[k];
      assert files[k] in files;
    } else if !dry {
      forall p | p in files ensures p.1 !in f.put {
        var k :| 0 <= k < |files| && files[k] == p;
        assert t[k] == files[k];
      }
    }
  }

  /** `uploadFile`: the stat and mkdir calls of `ensureRemoteDir(dirname(remoteFile))`
      all come first, and they visit exactly the prefixes of the parent; then comes
      the put (with its confirmation line when it succeeds), or in a dry run only the
      dry-run notice. Only a refused put fails the call. When the server accepts the
      mkdir calls, every prefix of the parent is a directory when the put is issued. */
  lemma UploadFileParentFirst(s: State, f: Faults, localFile: string, remoteFile: string, dry: bool)
    ensures var run := UploadFileSpec(s, f, localFile, remoteFile, dry);
      var evs := NewEvents(s, run.state);
      && Extends(s, run.state)
      && (exists k :: 0 <= k <= |evs|
            && Probes(evs[..k]) && Visited(evs[..k]) == Prefixes(Dirname(remoteFile))
            && evs[k..] == FileTail(f, localFile, remoteFile, dry))
      && run.outcome == (if !dry && remoteFile in f.put then Failed(PutFailed(localFile, remoteFile)) else Ok)
      && (!dry ==> forall p :: p in Prefixes(Dirname(remoteFile)) && p !in f.mkdir && p !in s.files ==> p in run.state.dirs)
  {
    var run := UploadFileSpec(s, f, localFile, remoteFile, dry);
    var ensured := Ensure(s, f, Dirname(remoteFile), dry);
    EnsureVisitsPrefixes(s, f, Dirname(remoteFile), dry);
    EnsureStepsDirs(s, f, Prefixes(Dirname(remoteFile)), dry);
    var tail := FileTail(f, localFile, remoteFile, dry);
    assert run.state.trace == ensured.trace + tail;
    AppendExtends(ensured, run.state, tail);
    ExtendsTrans(s, ensured, run.state);
    var evs := NewEvents(s, run.state);
    var k := |NewEvents(s, ensured)|;
    assert evs[..k] == NewEvents(s, ensured) && evs[k..] == tail;
  }

  /** A dry `uploadFile` succeeds, changes nothing remote, issues no mkdir and no put,
      and ends with the dry-run notice. */
  lemma UploadFileDry(s: State, f: Faults, localFile: string, remoteFile: string)
    ensures var run := UploadFileSpec(s, f, localFile, remoteFile, true);
      && run.outcome == Ok
      && run.state.dirs == s.dirs && run.state.files == s.files
      && Extends(s, run.state) && ReadOnly(NewEvents(s, run.state))
      && run.state.trace[|run.state.trace| - 1] == Log(DryPut(localFile, remoteFile))
  {
    var run := UploadFileSpec(s, f, localFile, remoteFile, true);
    var ensured := Ensure(s, f, Dirname(remoteFile), true);
    EnsureDryOnlyStats(s, f, Dirname(remoteFile));
    AppendExtends(ensured, run.state, [Log(DryPut(localFile, remoteFile))]);
    ExtendsTrans(s, ensured, run.state);
  }

  /** The events of `uploadFile` after `ensureRemoteDir`: the put with its confirmation
      line, the refused put alone, or the dry-run notice. */
  function FileTail(f: Faults, localFile: string, remoteFile: string, dry: bool): seq<Event> {
    if dry then [Log(DryPut(localFile, remoteFile))]
    else if remoteFile in f.put then [Put(localFile, remoteFile)]
    else [Put(localFile, remoteFile), Log(Uploaded(localFile, remoteFile))]
  }

  lemma FileTailTransfers(f: Faults, localFile: string, remoteFile: string, dry: bool)
    ensures Transfers(FileTail(f, localFile, remoteFile, dry)) == [(localFile, remoteFile)]
  {
    var tail := FileTail(f, localFile, remoteFile, dry);
    assert Transfers(tail[1..]) == [] by {
      if |tail| == 2 {
        assert tail[1..][1..] == [];
      }
    }
  }

  lemma UploadFileTrace(s: State, f: Faults, localFile: string, remoteFile: string, dry: bool)
    ensures var run := UploadFileSpec(s, f, localFile, remoteFile, dry);
      var ensured := Ensure(s, f, Dirname(remoteFile), dry);
      && Extends(s, ensured) && Extends(s, run.state)
      && NewEvents(s, run.state) == NewEvents(s, ensured) + FileTail(f, localFile, remoteFile, dry)
  {
    var run := UploadFileSpec(s, f, localFile, remoteFile, dry);
    var ensured := Ensure(s, f, Dirname(remoteFile), dry);
    EnsureStepsFrame(s, f, Prefixes(Dirname(remoteFile)), dry);
    AppendExtends(ensured, run.state, FileTail(f, localFile, remoteFile, dry));
    ExtendsTrans(s, ensured, run.state);
  }

  /** The transfers of a file upload: exactly the one file, reported as `WalkReport` says. */
  lemma UploadFileReport(s: State, f: Faults, localFile: string, remoteFile: string, dry: bool)
    ensures var run := UploadFileSpec(s, f, localFile, remoteFile, dry);
      && Extends(s, run.state)
      && WalkReport(Transfers(NewEvents(s, run.state)), [(localFile, remoteFile)], run.outcome, f, dry)
  {
    var ensured := Ensure(s, f, Dirname(remoteFile), dry);
    UploadFileTrace(s, f, localFile, remoteFile, dry);
    EnsureStepsFrame(s, f, Prefixes(Dirname(remoteFile)), dry);
    TransfersAppend(NewEvents(s, ensured), FileTail(f, localFile, remoteFile, dry));
    TransfersOfProbes(NewEvents(s, ensured));
    FileTailTransfers(f, localFile, remoteFile, dry);
  }

  /** `uploadDirRecursive` transfers exactly the regular files of the listing, in
      listing order, each to `posixJoin(remoteDir, name)` one level per directory, and
      stops at the first put the server refuses; no directory and no other entry is
      ever transferred. */
  lemma {:induction false} UploadEntryReport(s: State, f: Faults, localDir: string, remoteDir: string, e: Entry, dry: bool)
    ensures var run := UploadEntry(s, f, localDir, remoteDir, e, dry);
      && Extends(s, run.state)
      && WalkReport(Transfers(NewEvents(s, run.state)), FilesOfEntry(localDir, remoteDir, e), run.outcome, f, dry)
    decreases e
  {
    match e
    case Dir(name, children) =>
      UploadEntriesReport(s, f, LocalJoin(localDir, name), PosixJoin([remoteDir, name]), children, dry);
    case File(name) =>
      UploadFileReport(s, f, LocalJoin(localDir, name), PosixJoin([remoteDir, name]), dry);
    case Other(_) =>
      AppendExtends(s, s, []);
  }

  lemma {:induction false} UploadEntriesReport(s: State, f: Faults, localDir: string, remoteDir: string, entries: seq<Entry>, dry: bool)
    ensures var run := UploadEntries(s, f, localDir, remoteDir, entries, dry);
      && Extends(s, run.state)
      && WalkReport(Transfers(NewEvents(s, run.state)), FilesOf(localDir, remoteDir, entries), run.outcome, f, dry)
    decreases entries
  {
    var run := UploadEntries(s, f, localDir, remoteDir, entries, dry);
    if entries == [] {
      AppendExtends(s, s, []);
    } else {
      var first := UploadEntry(s, f, localDir, remoteDir, entries[0], dry);
      UploadEntryReport(s, f, localDir, remoteDir, entries[0], dry);
      var t1 := Transfers(NewEvents(s, first.state));
      var files1 := FilesOfEntry(localDir, remoteDir, entries[0]);
      var more := FilesOf(localDir, remoteDir, entries[1..]);
      if first.outcome.Failed? {
        WalkReportStop(t1, files1, more, first.outcome, f, dry);
      } else {
        UploadEntriesReport(first.state, f, localDir, remoteDir, entries[1..], dry);
        ExtendsTrans(s, first.state, run.state);
        TransfersAppend(NewEvents(s, first.state), NewEvents(first.state, run.state));
        WalkReportThen(t1, files1, Transfers(NewEvents(first.state, run.state)), more, run.outcome, f, dry);
      }
    }
  }

  /** A directory upload succeeds exactly when it runs dry or the server accepts the
      put of every regular file below it; then it has transferred all of them. */
  lemma UploadDirSucceeds(s: State, f: Faults, localDir: string, remoteDir: string, entries: seq<Entry>, dry: bool)
    ensures UploadEntries(s, f, localDir, remoteDir, entries, dry).outcome.Ok? <==>
      dry || forall p :: p in FilesOf(localDir, remoteDir, entries) ==> p.1 !in f.put
    ensures var run := UploadEntries(s, f, localDir, remoteDir, entries, dry);
      run.outcome.Ok? ==> Transfers(NewEvents(s, run.state)) == FilesOf(localDir, remoteDir, entries)
  {
    var run := UploadEntries(s, f, localDir, remoteDir, entries, dry);
    UploadEntriesReport(s, f, localDir, remoteDir, entries, dry);
    WalkReportOk(Transfers(NewEvents(s, run.state)), FilesOf(localDir, remoteDir, entries), run.outcome, f, dry);
  }

  /** The remote files after storing the transfers `t` in order over `files`: each
      remote path maps to the local file last put there. */
  function Stored(files: map<string, string>, t: seq<(string, string)>): map<string, string>
    decreases |t|
  {
    if t == [] then files else Stored(files[t[0].1 := t[0].0], t[1..])
  }

  lemma {:induction false} StoredAppend(files: map<string, string>, a: seq<(string, string)>, b: seq<(string, string)>)
    ensures Stored(files, a + b) == Stored(Stored(files, a), b)
    decreases |a|
  {
    if a == [] {
      assert a + b == b;
    } else {
      assert (a + b)[0] == a[0] && (a + b)[1..] == a[1..] + b;
      StoredAppend(files[a[0].1 := a[0].0], a[1..], b);
    }
  }

  /** Storing keeps every earlier remote file and adds exactly the transferred paths;
      the last transfer to a path decides what it holds. */
  lemma {:induction false} StoredKeys(files: map<string, string>, t: seq<(string, string)>)
    ensures Stored(files, t).Keys == files.Keys + (set p | p in t :: p.1)
    ensures |t| > 0 ==> Stored(files, t)[t[|t| - 1].1] == t[|t| - 1].0
    decreases |t|
  {
    if t != [] {
      StoredKeys(files[t[0].1 := t[0].0], t[1..]);
      assert (set p | p in t :: p.1) == {t[0].1} + (set p | p in t[1..] :: p.1) by {
        assert forall p :: p in t <==> p == t[0] || p in t[1..];
      }
      if |t| == 1 {
        assert t[1..] == [];
      } else {
        assert t[|t| - 1] == t[1..][|t[1..]| - 1];
      }
    }
  }

  /** A real file upload that succeeds stores the local file at the remote path and
      touches no other remote file. */
  lemma UploadFileStores(s: State, f: Faults, localFile: string, remoteFile: string)
    ensures var run := UploadFileSpec(s, f, localFile, remoteFile, false);
      run.outcome.Ok? ==> run.state.files == Stored(s.files, [(localFile, remoteFile)])
  {
    EnsureStepsFrame(s, f, Prefixes(Dirname(remoteFile)), false);
    assert [(localFile, remoteFile)][1..] == [];
  }

  /** A real directory upload that succeeds stores every regular file of the listing,
      in listing order. */
  lemma {:induction false} UploadEntryStores(s: State, f: Faults, localDir: string, remoteDir: string, e: Entry)
    ensures var run := UploadEntry(s, f, localDir, remoteDir, e, false);
      run.outcome.Ok? ==> run.state.files == Stored(s.files, FilesOfEntry(localDir, remoteDir, e))
    decreases e
  {
    match e
    case Dir(name, children) =>
      UploadEntriesStores(s, f, LocalJoin(localDir, name), PosixJoin([remoteDir, name]), children);
    case File(name) =>
      UploadFileStores(s, f, LocalJoin(localDir, name), PosixJoin([remoteDir, name]));
    case Other(_) =>
  }

  lemma {:induction false} UploadEntriesStores(s: State, f: Faults, localDir: string, remoteDir: string, entries: seq<Entry>)
    ensures var run := UploadEntries(s, f, localDir, remoteDir, entries, false);
      run.outcome.Ok? ==> run.state.files == Stored(s.files, FilesOf(localDir, remoteDir, entries))
    decreases entries
  {
    if entries != [] {
      var first := UploadEntry(s, f, localDir, remoteDir, entries[0], false);
      UploadEntryStores(s, f, localDir, remoteDir, entries[0]);
      if first.outcome.Ok? {
        UploadEntriesStores(first.state, f, localDir, remoteDir, entries[1..]);
        StoredAppend(s.files, FilesOfEntry(localDir, remoteDir, entries[0]), FilesOf(localDir, remoteDir, entries[1..]));
      }
    }
  }

  /** A dry directory upload succeeds, changes nothing remote and issues no mkdir and
      no put. */
  lemma {:induction false} UploadEntryDry(s: State, f: Faults, localDir: string, remoteDir: string, e: Entry)
    ensures var run := UploadEntry(s, f, localDir, remoteDir, e, true);
      && run.outcome == Ok && run.state.dirs == s.dirs && run.state.files == s.files
      && Extends(s, run.state) && ReadOnly(NewEvents(s, run.state))
    decreases e
  {
    match e
    case Dir(name, children) =>
      UploadEntriesDry(s, f, LocalJoin(localDir, name), PosixJoin([remoteDir, name]), children);
    case File(name) =>
      UploadFileDry(s, f, LocalJoin(localDir, name), PosixJoin([remoteDir, name]));
    case Other(_) =>
      AppendExtends(s, s, []);
  }

  lemma {:induction false} UploadEntriesDry(s: State, f: Faults, localDir: string, remoteDir: string, entries: seq<Entry>)
    ensures var run := UploadEntries(s, f, localDir, remoteDir, entries, true);
      && run.outcome == Ok && run.state.dirs == s.dirs && run.state.files == s.files
      && Extends(s, run.state) && ReadOnly(NewEvents(s, run.state))
    decreases entries
  {
    var run := UploadEntries(s, f, localDir, remoteDir, entries, true);
    if entries == [] {
      AppendExtends(s, s, []);
    } else {
      var first := UploadEntry(s, f, localDir, remoteDir, entries[0], true);
      UploadEntryDry(s, f, localDir, remoteDir, entries[0]);
      UploadEntriesDry(first.state, f, localDir, remoteDir, entries[1..]);
      ExtendsTrans(s, first.state, run.state);
    }
  }

  /** The only events an upload issues: stat, mkdir and put calls and the two put
      notices; never a connect, an end or any other console line. */
  predicate UploadEvent(e: Event) {
    e.Stat? || e.Mkdir? || e.Put? || (e.Log? && (e.message.DryPut? || e.message.Uploaded?))
  }

  predicate UploadEvents(evs: seq<Event>) {
    forall e :: e in evs ==> UploadEvent(e)
  }

  lemma UploadEventsAppend(a: seq<Event>, b: seq<Event>)
    requires UploadEvents(a) && UploadEvents(b)
    ensures UploadEvents(a + b)
  {
  }

  lemma UploadFileEvents(s: State, f: Faults, localFile: string, remoteFile: string, dry: bool)
    ensures var run := UploadFileSpec(s, f, localFile, remoteFile, dry);
      Extends(s, run.state) && UploadEvents(NewEvents(s, run.state))
  {
    var ensured := Ensure(s, f, Dirname(remoteFile), dry);
    var tail := FileTail(f, localFile, remoteFile, dry);
    UploadFileTrace(s, f, localFile, remoteFile, dry);
    EnsureStepsFrame(s, f, Prefixes(Dirname(remoteFile)), dry);
    assert UploadEvents(NewEvents(s, ensured));
    assert UploadEvents(tail);
    UploadEventsAppend(NewEvents(s, ensured), tail);
  }

  lemma {:induction false} UploadEntryEvents(s: State, f: Faults, localDir: string, remoteDir: string, e: Entry, dry: bool)
    ensures var run := UploadEntry(s, f, localDir, remoteDir, e, dry);
      Extends(s, run.state) && UploadEvents(NewEvents(s, run.state))
    decreases e
  {
    match e
    case Dir(name, children) =>
      UploadEntriesEvents(s, f, LocalJoin(localDir, name), PosixJoin([remoteDir, name]), children, dry);
    case File(name) =>
      UploadFileEvents(s, f, LocalJoin(localDir, name), PosixJoin([remoteDir, name]), dry);
    case Other(_) =>
      AppendExtends(s, s, []);
  }

  lemma {:induction false} UploadEntriesEvents(s: State, f: Faults, localDir: string, remoteDir: string, entries: seq<Entry>, dry: bool)
    ensures var run := UploadEntries(s, f, localDir, remoteDir, entries, dry);
      Extends(s, run.state) && UploadEvents(NewEvents(s, run.state))
    decreases entries
  {
    var run := UploadEntries(s, f, localDir, remoteDir, entries, dry);
    if entries == [] {
      AppendExtends(s, s, []);
    } else {
      var first := UploadEntry(s, f, localDir, remoteDir, entries[0], dry);
      UploadEntryEvents(s, f, localDir, remoteDir, entries[0], dry);
      if first.outcome.Ok? {
        UploadEntriesEvents(first.state, f, localDir, remoteDir, entries[1..], dry);
        ExtendsTrans(s, first.state, run.state);
      }
    }
  }

  /** `uploadFile(localFile, remoteFile)`. */
  method UploadFile(w: World, dry: bool, localFile: string, remoteFile: string) returns (res: Outcome)
    modifies w
    ensures Run(w.Current(), res) == UploadFileSpec(old(w.Current()), w.faults, localFile, remoteFile, dry)
  {
    EnsureRemoteDir(w, dry, Dirname(remoteFile));
    if dry {
      w.Log(DryPut(localFile, remoteFile));
      return Ok;
    }
    var ok := w.FastPut(localFile, remoteFile);
    if !ok {
      return Failed(PutFailed(localFile, remoteFile));
    }
    w.Log(Uploaded(localFile, remoteFile));
    res := Ok;
  }

  /** `uploadDirRecursive(localDir, remoteDir)`, with `entries` the listing of `localDir`. */
  method UploadDirRecursive(w: World, dry: bool, localDir: string, remoteDir: string, entries: seq<Entry>)
    returns (res: Outcome)
    modifies w
    ensures Run(w.Current(), res) == UploadEntries(old(w.Current()), w.faults, localDir, remoteDir, entries, dry)
    decreases entries
  {
    ghost var goal := UploadEntries(w.Current(), w.faults, localDir, remoteDir, entries, dry);
    var i := 0;
    while i < |entries|
      invariant 0 <= i <= |entries|
      invariant UploadEntries(w.Current(), w.faults, localDir, remoteDir, entries[i..], dry) == goal
    {
      var ent := entries[i];
      var localPath := LocalJoin(localDir, ent.name);
      var remotePath := PosixJoin([remoteDir, ent.name]);
      ghost var before := w.Current();
      ghost var step := UploadEntry(before, w.faults, localDir, remoteDir, ent, dry);
      UploadEntriesCons(before, w.faults, localDir, remoteDir, entries[i..], dry);
      assert entries[i..][0] == ent && entries[i..][1..] == entries[i + 1..];
      if ent.Dir? {
        var r := UploadDirRecursive(w, dry, localPath, remotePath, ent.children);
        assert Run(w.Current(), r) == step;
        if r.Failed? {
          return r;
        }
      } else if ent.File? {
        var r := UploadFile(w, dry, localPath, remotePath);
        assert Run(w.Current(), r) == step;
        if r.Failed? {
          return r;
        }
      }
      assert w.Current() == step.state && step.outcome.Ok?;
      i := i + 1;
    }
    res := Ok;
  }
}
