/** `main` of deploy.js: build the connection options from the configuration, connect,
    push each item of the fixed SYNC list (a directory recursively, anything else as
    one file), close the session whatever happened, and report "Done." on success. */
module Deploy {
  import opened Paths
  import opened Remote
  import opened EnsureDir
  import opened Upload

  datatype Result<T> = Success(value: T) | Failure(error: Error)

  /** The fields of deploy.json the script reads; an absent `remoteRoot` behaves like "". */
  datatype Config = Config(
    host: string,
    port: Option<int>,
    username: string,
    password: Option<string>,
    privateKeyPath: Option<string>,
    passphrase: Option<string>,
    remoteRoot: string)

  /** One entry of SYNC: a path relative to the working directory and its remote name. */
  datatype SyncItem = SyncItem(local: string, remote: string)

  const Sync: seq<SyncItem> := [
    SyncItem(".htaccess", ".htaccess"),
    SyncItem("404.html", "404.html"),
    SyncItem("config.json", "config.json"),
    SyncItem("favicon.ico", "favicon.ico"),
    SyncItem("index.php", "index.php")
  ]

  /** JavaScript truthiness of an optional string: present and not empty. */
  predicate Truthy(o: Option<string>) {
    o.Some? && o.value != ""
  }

  /** `path.resolve(p)` against the working directory `cwd`. */
  function Resolve(cwd: string, p: string): string {
    if |p| > 0 && p[0] == '/' then p else cwd + "/" + p
  }

  /** The options object `main` builds; `keyFiles` maps the readable local files to
      their contents. */
  function ConnectOptionsFor(cfg: Config, keyFiles: map<string, string>, cwd: string): Result<ConnectOptions> {
    var base := ConnectOptions(cfg.host, if cfg.port.Some? then cfg.port.value else 22, cfg.username, None, None, None);
    var withPassword := if Truthy(cfg.password) then base.(password := cfg.password) else base;
    if !Truthy(cfg.privateKeyPath) then Success(withPassword)
    else
      var keyPath := Resolve(cwd, cfg.privateKeyPath.value);
      if keyPath !in keyFiles then Failure(KeyUnreadable(keyPath))
      else Success(withPassword.(privateKey := Some(keyFiles[keyPath]),
                                 passphrase := if Truthy(cfg.passphrase) then cfg.passphrase else None))
  }

  /** Field by field: port 22 only when no port is configured (a configured 0 stays 0);
      a password only when one is configured and not empty; a key exactly when a key
      path is configured, and a passphrase only together with it; building fails
      exactly when the key file cannot be read. */
  lemma ConnectOptionsFields(cfg: Config, keyFiles: map<string, string>, cwd: string)
    ensures var r := ConnectOptionsFor(cfg, keyFiles, cwd);
      && (r.Failure? <==> Truthy(cfg.privateKeyPath) && Resolve(cwd, cfg.privateKeyPath.value) !in keyFiles)
      && (r.Failure? ==> r.error == KeyUnreadable(Resolve(cwd, cfg.privateKeyPath.value)))
      && (r.Success? ==>
            && r.value.host == cfg.host && r.value.username == cfg.username
            && (cfg.port.None? ==> r.value.port == 22)
            && (cfg.port.Some? ==> r.value.port == cfg.port.value)
            && (r.value.password.Some? <==> Truthy(cfg.password))
            && (r.value.password.Some? ==> r.value.password == cfg.password)
            && (r.value.privateKey.Some? <==> Truthy(cfg.privateKeyPath))
            && (r.value.privateKey.Some? ==> r.value.privateKey.value == keyFiles[Resolve(cwd, cfg.privateKeyPath.value)])
            && (r.value.passphrase.Some? <==> Truthy(cfg.privateKeyPath) && Truthy(cfg.passphrase))
            && (r.value.passphrase.Some? ==> r.value.passphrase == cfg.passphrase))
  {
  }

  /** The console line `main` prints for one item before acting on it. */
  function Decision(root: string, local: map<string, Entry>, cwd: string, item: SyncItem): Message {
    var localPath := Resolve(cwd, item.local);
    var remotePath := PosixJoin([root, item.remote]);
    if localPath !in local then SkipMissing(item.local)
    else if local[localPath].Dir? then DirItem(item.local, if item.remote == "." then root else remotePath)
    else FileItem(item.local, remotePath)
  }

  /** What one pass of the SYNC loop does; `local` maps each existing local path to
      what is there. */
  function DeployItem(s: State, f: Faults, root: string, local: map<string, Entry>, cwd: string,
                      item: SyncItem, dry: bool): Run
  {
    var localPath := Resolve(cwd, item.local);
    var m := Decision(root, local, cwd, item);
    var logged := LogStep(s, m);
    if localPath !in local then Run(logged, Ok)
    else if m.DirItem? then UploadEntries(logged, f, localPath, m.remote, local[localPath].children, dry)
    else UploadFileSpec(logged, f, localPath, m.remote, dry)
  }

  /** The SYNC loop: the items one after the other, stopping at the first error. */
  function DeployItems(s: State, f: Faults, root: string, local: map<string, Entry>, cwd: string,
                       items: seq<SyncItem>, dry: bool): Run
    decreases items
  {
    if items == [] then Run(s, Ok)
    else
      var r := DeployItem(s, f, root, local, cwd, items[0], dry);
      if r.outcome.Failed? then r else DeployItems(r.state, f, root, local, cwd, items[1..], dry)
  }

  /** A list of items is its first item followed, unless that one failed, by the rest. */
  lemma DeployItemsCons(s: State, f: Faults, root: string, local: map<string, Entry>, cwd: string,
                        items: seq<SyncItem>, dry: bool)
    requires items != []
    ensures var r := DeployItem(s, f, root, local, cwd, items[0], dry);
      DeployItems(s, f, root, local, cwd, items, dry)
        == if r.outcome.Failed? then r else DeployItems(r.state, f, root, local, cwd, items[1..], dry)
  {
  }

  /** What `main` does. A key that cannot be read fails before anything is printed or
      sent. After a successful connect the session is ended on every path; an error
      from `end()` replaces whatever error the loop raised. */
  function DeploySpec(s: State, f: Faults, cfg: Config, keyFiles: map<string, string>,
                      local: map<string, Entry>, cwd: string, items: seq<SyncItem>, dry: bool): Run
  {
    match ConnectOptionsFor(cfg, keyFiles, cwd)
    case Failure(e) => Run(s, Failed(e))
    case Success(options) =>
      var connected := ConnectStep(LogStep(s, Banner(dry, cfg.host, options.port)), options);
      if f.connect then Run(connected, Failed(ConnectFailed))
      else
        var body := DeployItems(connected, f, cfg.remoteRoot, local, cwd, items, dry);
        var closed := EndStep(body.state);
        if f.end then Run(closed, Failed(EndFailed))
        else if body.outcome.Failed? then Run(closed, body.outcome)
        else Run(LogStep(closed, Done), Ok)
  }

  /** The per-item console lines among `evs`, in order. */
  function Decisions(evs: seq<Event>): seq<Message> {
    if evs == [] then []
    else
      var e := evs[0];
      (if e.Log? && (e.message.SkipMissing? || e.message.DirItem? || e.message.FileItem?) then [e.message] else [])
      + Decisions(evs[1..])
  }

  lemma {:induction false} DecisionsAppend(a: seq<Event>, b: seq<Event>)
    ensures Decisions(a + b) == Decisions(a) + Decisions(b)
  {
    if a == [] {
      assert a + b == b;
    } else {
      assert (a + b)[0] == a[0] && (a + b)[1..] == a[1..] + b;
      DecisionsAppend(a[1..], b);
    }
  }

  lemma {:induction false} DecisionsOfUpload(evs: seq<Event>)
    requires UploadEvents(evs)
    ensures Decisions(evs) == []
  {
    if evs != [] {
      assert evs[0] in evs;
      assert forall e :: e in evs[1..] ==> e in evs;
      DecisionsOfUpload(evs[1..]);
    }
  }

  /** The reference plan of the loop: one console line per item, in SYNC order. */
  function Planned(root: string, local: map<string, Entry>, cwd: string, items: seq<SyncItem>): seq<Message> {
    seq(|items|, k requires 0 <= k < |items| => Decision(root, local, cwd, items[k]))
  }

  /** The plan of a non-empty list is the first item's line, then the plan of the rest. */
  lemma PlannedCons(root: string, local: map<string, Entry>, cwd: string, items: seq<SyncItem>)
    requires items != []
    ensures Planned(root, local, cwd, items) == [Decision(root, local, cwd, items[0])] + Planned(root, local, cwd, items[1..])
  {
  }

  /** The reference list of transfers: the regular files below each directory item, and
      every other existing item as one file, in SYNC order. */
  function PlannedTransfers(root: string, local: map<string, Entry>, cwd: string, items: seq<SyncItem>): seq<(string, string)>
    decreases items
  {
    if items == [] then []
    else ItemTransfers(root, local, cwd, items[0]) + PlannedTransfers(root, local, cwd, items[1..])
  }

  function ItemTransfers(root: string, local: map<string, Entry>, cwd: string, item: SyncItem): seq<(string, string)> {
    var localPath := Resolve(cwd, item.local);
    var m := Decision(root, local, cwd, item);
    if localPath !in local then []
    else if m.DirItem? then FilesOf(localPath, m.remote, local[localPath].children)
    else [(localPath, m.remote)]
  }

  /** The events one item adds: its console line first, then only upload events. */
  predicate ItemEvents(evs: seq<Event>) {
    forall e :: e in evs ==> UploadEvent(e) || (e.Log? && (e.message.SkipMissing? || e.message.DirItem? || e.message.FileItem?))
  }

  /** A console line that is not a dry-run upload, followed by upload events that
      report `t`: the line comes first, and the transfers are still `t`. */
  lemma LoggedItem(s: State, m: Message, end: State, t: seq<(string, string)>, o: Outcome, f: Faults, dry: bool)
    requires !m.DryPut?
    requires Extends(LogStep(s, m), end) && UploadEvents(NewEvents(LogStep(s, m), end))
    requires WalkReport(Transfers(NewEvents(LogStep(s, m), end)), t, o, f, dry)
    ensures Extends(s, end)
    ensures |NewEvents(s, end)| >= 1 && NewEvents(s, end)[..1] == [Log(m)]
    ensures UploadEvents(NewEvents(s, end)[1..])
    ensures WalkReport(Transfers(NewEvents(s, end)), t, o, f, dry)
  {
    var logged := LogStep(s, m);
    var rest := NewEvents(logged, end);
    AppendExtends(s, logged, [Log(m)]);
    ExtendsTrans(s, logged, end);
    var evs := NewEvents(s, end);
    assert evs == [Log(m)] + rest;
    assert evs[..1] == [Log(m)] && evs[1..] == rest;
    TransfersAppend([Log(m)], rest);
    assert Transfers([Log(m)]) == [] by {
      assert [Log(m)][1..] == [];
    }
  }

  lemma DeployItemShape(s: State, f: Faults, root: string, local: map<string, Entry>, cwd: string,
                        item: SyncItem, dry: bool)
    ensures var run := DeployItem(s, f, root, local, cwd, item, dry);
      && Extends(s, run.state)
      && |NewEvents(s, run.state)| >= 1
      && NewEvents(s, run.state)[..1] == [Log(Decision(root, local, cwd, item))]
      && UploadEvents(NewEvents(s, run.state)[1..])
      && WalkReport(Transfers(NewEvents(s, run.state)), ItemTransfers(root, local, cwd, item), run.outcome, f, dry)
  {
    var run := DeployItem(s, f, root, local, cwd, item, dry);
    var localPath := Resolve(cwd, item.local);
    var m := Decision(root, local, cwd, item);
    var logged := LogStep(s, m);
    var t := ItemTransfers(root, local, cwd, item);
    if localPath !in local {
      assert run == Run(logged, Ok) && t == [];
      AppendExtends(logged, logged, []);
      assert Transfers([]) == [];
    } else if m.DirItem? {
      var children := local[localPath].children;
      assert run == UploadEntries(logged, f, localPath, m.remote, children, dry);
      assert t == FilesOf(localPath, m.remote, children);
      UploadEntriesEvents(logged, f, localPath, m.remote, children, dry);
      UploadEntriesReport(logged, f, localPath, m.remote, children, dry);
    } else {
      assert run == UploadFileSpec(logged, f, localPath, m.remote, dry);
      assert t == [(localPath, m.remote)];
      UploadFileEvents(logged, f, localPath, m.remote, dry);
      UploadFileReport(logged, f, localPath, m.remote, dry);
    }
    LoggedItem(s, m, run.state, t, run.outcome, f, dry);
  }

  /** One item prints its planned line and nothing else of that kind. */
  lemma DeployItemDecisions(s: State, f: Faults, root: string, local: map<string, Entry>, cwd: string,
                            item: SyncItem, dry: bool)
    ensures var run := DeployItem(s, f, root, local, cwd, item, dry);
      && Extends(s, run.state)
      && ItemEvents(NewEvents(s, run.state))
      && Decisions(NewEvents(s, run.state)) == [Decision(root, local, cwd, item)]
  {
    var run := DeployItem(s, f, root, local, cwd, item, dry);
    DeployItemShape(s, f, root, local, cwd, item, dry);
    var evs := NewEvents(s, run.state);
    assert evs == evs[..1] + evs[1..];
    DecisionsAppend(evs[..1], evs[1..]);
    DecisionsOfUpload(evs[1..]);
    assert Decisions(evs[..1][1..]) == [];
  }

  /** The SYNC loop transfers a prefix of the planned files, as `WalkReport` says. */
  lemma {:induction false} DeployItemsReport(s: State, f: Faults, root: string, local: map<string, Entry>, cwd: string,
                                             items: seq<SyncItem>, dry: bool)
    ensures var run := DeployItems(s, f, root, local, cwd, items, dry);
      && Extends(s, run.state)
      && WalkReport(Transfers(NewEvents(s, run.state)), PlannedTransfers(root, local, cwd, items), run.outcome, f, dry)
    decreases items
  {
    var run := DeployItems(s, f, root, local, cwd, items, dry);
    if items == [] {
      AppendExtends(s, s, []);
    } else {
      var first := DeployItem(s, f, root, local, cwd, items[0], dry);
      DeployItemShape(s, f, root, local, cwd, items[0], dry);
      var t1 := Transfers(NewEvents(s, first.state));
      var files1 := ItemTransfers(root, local, cwd, items[0]);
      var more := PlannedTransfers(root, local, cwd, items[1..]);
      if first.outcome.Failed? {
        WalkReportStop(t1, files1, more, first.outcome, f, dry);
      } else {
        DeployItemsReport(first.state, f, root, local, cwd, items[1..], dry);
        var evs2 := NewEvents(first.state, run.state);
        ExtendsTrans(s, first.state, run.state);
        TransfersAppend(NewEvents(s, first.state), evs2);
        WalkReportThen(t1, files1, Transfers(evs2), more, run.outcome, f, dry);
      }
    }
  }

  /** The SYNC loop issues only per-item lines and upload events. */
  lemma {:induction false} DeployItemsEvents(s: State, f: Faults, root: string, local: map<string, Entry>, cwd: string,
                                             items: seq<SyncItem>, dry: bool)
    ensures var run := DeployItems(s, f, root, local, cwd, items, dry);
      Extends(s, run.state) && ItemEvents(NewEvents(s, run.state))
    decreases items
  {
    var run := DeployItems(s, f, root, local, cwd, items, dry);
    if items == [] {
      AppendExtends(s, s, []);
    } else {
      var first := DeployItem(s, f, root, local, cwd, items[0], dry);
      DeployItemDecisions(s, f, root, local, cwd, items[0], dry);
      if first.outcome.Ok? {
        assert run == DeployItems(first.state, f, root, local, cwd, items[1..], dry);
        DeployItemsEvents(first.state, f, root, local, cwd, items[1..], dry);
        ExtendsTrans(s, first.state, run.state);
      } else {
        assert run == first;
      }
    }
  }

  /** When nothing failed, the SYNC loop has printed exactly the planned line of every
      item, in order. */
  lemma {:induction false} DeployItemsDecisions(s: State, f: Faults, root: string, local: map<string, Entry>, cwd: string,
                                                items: seq<SyncItem>, dry: bool)
    ensures var run := DeployItems(s, f, root, local, cwd, items, dry);
      run.outcome.Ok? ==> Decisions(NewEvents(s, run.state)) == Planned(root, local, cwd, items)
    decreases items
  {
    var run := DeployItems(s, f, root, local, cwd, items, dry);
    if items == [] {
      AppendExtends(s, s, []);
    } else {
      var first := DeployItem(s, f, root, local, cwd, items[0], dry);
      if first.outcome.Ok? {
        var rest := DeployItems(first.state, f, root, local, cwd, items[1..], dry);
        assert run == rest;
        DeployItemDecisions(s, f, root, local, cwd, items[0], dry);
        DeployItemsEvents(first.state, f, root, local, cwd, items[1..], dry);
        DeployItemsDecisions(first.state, f, root, local, cwd, items[1..], dry);
        ExtendsTrans(s, first.state, rest.state);
        DecisionsAppend(NewEvents(s, first.state), NewEvents(first.state, rest.state));
        PlannedCons(root, local, cwd, items);
      }
    }
  }

  /** The SYNC loop over `a + b` is the loop over `a` followed, unless it failed, by the
      loop over `b`: an error stops every later item, a skipped item stops nothing. */
  lemma {:induction false} DeployItemsAppend(s: State, f: Faults, root: string, local: map<string, Entry>, cwd: string,
                                             a: seq<SyncItem>, b: seq<SyncItem>, dry: bool)
    ensures DeployItems(s, f, root, local, cwd, a + b, dry) ==
      var r := DeployItems(s, f, root, local, cwd, a, dry);
      if r.outcome.Failed? then r else DeployItems(r.state, f, root, local, cwd, b, dry)
    decreases a
  {
    if a == [] {
      assert a + b == b;
    } else {
      assert (a + b)[0] == a[0] && (a + b)[1..] == a[1..] + b;
      var first := DeployItem(s, f, root, local, cwd, a[0], dry);
      if first.outcome.Ok? {
        DeployItemsAppend(first.state, f, root, local, cwd, a[1..], b, dry);
      }
    }
  }

  /** Items whose local path does not exist only print their warning, one after the
      other, and never fail. */
  lemma {:induction false} MissingItemsOnlyWarn(s: State, f: Faults, root: string, local: map<string, Entry>, cwd: string,
                                                items: seq<SyncItem>, dry: bool)
    requires forall k :: 0 <= k < |items| ==> Resolve(cwd, items[k].local) !in local
    ensures DeployItems(s, f, root, local, cwd, items, dry) ==
      Run(s.(trace := s.trace + seq(|items|, k requires 0 <= k < |items| => Log(SkipMissing(items[k].local)))), Ok)
    decreases items
  {
    var warnings := seq(|items|, k requires 0 <= k < |items| => Log(SkipMissing(items[k].local)));
    if items == [] {
      assert s.(trace := s.trace + warnings) == s;
    } else {
      var first := LogStep(s, SkipMissing(items[0].local));
      MissingItemsOnlyWarn(first, f, root, local, cwd, items[1..], dry);
      var rest := seq(|items[1..]|, k requires 0 <= k < |items[1..]| => Log(SkipMissing(items[1..][k].local)));
      assert warnings == [Log(SkipMissing(items[0].local))] + rest;
      assert first.trace + rest == s.trace + warnings;
    }
  }

  /** A dry SYNC loop succeeds, changes nothing remote and issues no mkdir and no put. */
  lemma {:induction false} DeployItemsDry(s: State, f: Faults, root: string, local: map<string, Entry>, cwd: string,
                                          items: seq<SyncItem>)
    ensures var run := DeployItems(s, f, root, local, cwd, items, true);
      && run.outcome == Ok && run.state.dirs == s.dirs && run.state.files == s.files
      && Extends(s, run.state) && ReadOnly(NewEvents(s, run.state))
    decreases items
  {
    var run := DeployItems(s, f, root, local, cwd, items, true);
    if items == [] {
      AppendExtends(s, s, []);
    } else {
      var item := items[0];
      var localPath := Resolve(cwd, item.local);
      var m := Decision(root, local, cwd, item);
      var logged := LogStep(s, m);
      var first := DeployItem(s, f, root, local, cwd, item, true);
      AppendExtends(s, logged, [Log(m)]);
      if localPath in local {
        if m.DirItem? {
          UploadEntriesDry(logged, f, localPath, m.remote, local[localPath].children);
        } else {
          UploadFileDry(logged, f, localPath, m.remote);
        }
        ExtendsTrans(s, logged, first.state);
      }
      DeployItemsDry(first.state, f, root, local, cwd, items[1..]);
      ExtendsTrans(s, first.state, run.state);
    }
  }

  /** Events that carry no transfer and no per-item line. */
  predicate FramingEvents(evs: seq<Event>) {
    forall e :: e in evs ==> e.Connect? || e.End? || (e.Log? && (e.message.Banner? || e.message.Done?))
  }

  lemma {:induction false} FramingQuiet(evs: seq<Event>)
    requires FramingEvents(evs)
    ensures Transfers(evs) == [] && Decisions(evs) == []
  {
    if evs != [] {
      assert evs[0] in evs;
      assert forall e :: e in evs[1..] ==> e in evs;
      FramingQuiet(evs[1..]);
    }
  }

  /** After a successful connect, the events of `main` are the banner, the connect, the
      events of the loop, the end, and "Done." when everything succeeded. */
  lemma DeployTrace(s: State, f: Faults, cfg: Config, keyFiles: map<string, string>,
                    local: map<string, Entry>, cwd: string, items: seq<SyncItem>, dry: bool)
    requires ConnectOptionsFor(cfg, keyFiles, cwd).Success? && !f.connect
    ensures var options := ConnectOptionsFor(cfg, keyFiles, cwd).value;
      var connected := ConnectStep(LogStep(s, Banner(dry, cfg.host, options.port)), options);
      var body := DeployItems(connected, f, cfg.remoteRoot, local, cwd, items, dry);
      var run := DeploySpec(s, f, cfg, keyFiles, local, cwd, items, dry);
      && Extends(connected, body.state) && Extends(s, run.state)
      && NewEvents(s, run.state) ==
           [Log(Banner(dry, cfg.host, options.port)), Connect(options)] + NewEvents(connected, body.state)
           + [End] + (if run.outcome.Ok? then [Log(Done)] else [])
      && (run.outcome.Ok? <==> !f.end && body.outcome.Ok?)
      && (!f.end && body.outcome.Failed? ==> run.outcome == body.outcome)
  {
    var options := ConnectOptionsFor(cfg, keyFiles, cwd).value;
    var connected := ConnectStep(LogStep(s, Banner(dry, cfg.host, options.port)), options);
    var body := DeployItems(connected, f, cfg.remoteRoot, local, cwd, items, dry);
    var run := DeploySpec(s, f, cfg, keyFiles, local, cwd, items, dry);
    DeployItemsEvents(connected, f, cfg.remoteRoot, local, cwd, items, dry);
    var mid := NewEvents(connected, body.state);
    var tail: seq<Event> := [End] + (if run.outcome.Ok? then [Log(Done)] else []);
    var pre: seq<Event> := [Log(Banner(dry, cfg.host, options.port)), Connect(options)];
    assert connected.trace == s.trace + pre;
    assert body.state.trace == connected.trace + mid;
    assert run.state.trace == body.state.trace + tail;
    assert run.state.trace == s.trace + (pre + mid + tail);
    AppendExtends(s, run.state, pre + mid + tail);
  }

  /** A key file that cannot be read stops `main` before it prints or sends anything. */
  lemma DeployKeyUnreadable(s: State, f: Faults, cfg: Config, keyFiles: map<string, string>,
                            local: map<string, Entry>, cwd: string, items: seq<SyncItem>, dry: bool)
    requires Truthy(cfg.privateKeyPath) && Resolve(cwd, cfg.privateKeyPath.value) !in keyFiles
    ensures DeploySpec(s, f, cfg, keyFiles, local, cwd, items, dry) ==
      Run(s, Failed(KeyUnreadable(Resolve(cwd, cfg.privateKeyPath.value))))
  {
    ConnectOptionsFields(cfg, keyFiles, cwd);
  }

  /** A refused connect ends the run after the banner and the connect, without `end()`. */
  lemma DeployConnectRefused(s: State, f: Faults, cfg: Config, keyFiles: map<string, string>,
                             local: map<string, Entry>, cwd: string, items: seq<SyncItem>, dry: bool)
    requires ConnectOptionsFor(cfg, keyFiles, cwd).Success? && f.connect
    ensures var options := ConnectOptionsFor(cfg, keyFiles, cwd).value;
      var run := DeploySpec(s, f, cfg, keyFiles, local, cwd, items, dry);
      && Extends(s, run.state)
      && NewEvents(s, run.state) == [Log(Banner(dry, cfg.host, options.port)), Connect(options)]
  {
    var options := ConnectOptionsFor(cfg, keyFiles, cwd).value;
    var run := DeploySpec(s, f, cfg, keyFiles, local, cwd, items, dry);
    AppendExtends(s, run.state, [Log(Banner(dry, cfg.host, options.port)), Connect(options)]);
  }

  /** After an accepted connect, the banner comes first and the connect second; `end()`
      is then called exactly once, after every other remote call, whether the loop
      failed or not, and only "Done." can follow it. */
  lemma DeploySession(s: State, f: Faults, cfg: Config, keyFiles: map<string, string>,
                      local: map<string, Entry>, cwd: string, items: seq<SyncItem>, dry: bool)
    requires ConnectOptionsFor(cfg, keyFiles, cwd).Success? && !f.connect
    ensures var options := ConnectOptionsFor(cfg, keyFiles, cwd).value;
      var run := DeploySpec(s, f, cfg, keyFiles, local, cwd, items, dry);
      var evs := NewEvents(s, run.state);
      var n := if run.outcome.Ok? then |evs| - 2 else |evs| - 1;
      && Extends(s, run.state)
      && 2 <= n < |evs| && evs[0] == Log(Banner(dry, cfg.host, options.port)) && evs[1] == Connect(options)
      && evs[n] == End
      && (forall j :: 2 <= j < |evs| && j != n ==> !evs[j].End? && !evs[j].Connect?)
      && evs[n + 1..] == (if run.outcome.Ok? then [Log(Done)] else [])
  {
    var options := ConnectOptionsFor(cfg, keyFiles, cwd).value;
    var run := DeploySpec(s, f, cfg, keyFiles, local, cwd, items, dry);
    var connected := ConnectStep(LogStep(s, Banner(dry, cfg.host, options.port)), options);
    var body := DeployItems(connected, f, cfg.remoteRoot, local, cwd, items, dry);
    DeployTrace(s, f, cfg, keyFiles, local, cwd, items, dry);
    DeployItemsEvents(connected, f, cfg.remoteRoot, local, cwd, items, dry);
    DeployItemsDecisions(connected, f, cfg.remoteRoot, local, cwd, items, dry);
    SessionShape(NewEvents(s, run.state), NewEvents(connected, body.state), run.outcome.Ok?);
  }

  /** Which error `main` reports: the unreadable key, else the refused connect, else a
      refused `end()` (which replaces any error of the loop, as the `finally` block
      does), else the first refused put. */
  lemma DeployErrors(s: State, f: Faults, cfg: Config, keyFiles: map<string, string>,
                     local: map<string, Entry>, cwd: string, items: seq<SyncItem>, dry: bool)
    ensures var built := ConnectOptionsFor(cfg, keyFiles, cwd);
      var run := DeploySpec(s, f, cfg, keyFiles, local, cwd, items, dry);
      && (built.Failure? ==> run.outcome == Failed(built.error) && run.outcome.error.KeyUnreadable?)
      && (built.Success? && f.connect ==> run.outcome == Failed(ConnectFailed))
      && (built.Success? && !f.connect && f.end ==> run.outcome == Failed(EndFailed))
      && (built.Success? && !f.connect && !f.end && run.outcome.Failed? ==> run.outcome.error.PutFailed?)
  {
    ConnectOptionsFields(cfg, keyFiles, cwd);
    var built := ConnectOptionsFor(cfg, keyFiles, cwd);
    if built.Success? && !f.connect {
      var options := built.value;
      var connected := ConnectStep(LogStep(s, Banner(dry, cfg.host, options.port)), options);
      DeployItemsReport(connected, f, cfg.remoteRoot, local, cwd, items, dry);
    }
  }

  lemma SessionShape(evs: seq<Event>, mid: seq<Event>, done: bool)
    requires |evs| >= 2 && ItemEvents(mid)
    requires evs == evs[..2] + mid + [End] + (if done then [Log(Done)] else [])
    ensures var n := if done then |evs| - 2 else |evs| - 1;
      && 2 <= n && evs[n] == End
      && (forall j :: 2 <= j < |evs| && j != n ==> !evs[j].End? && !evs[j].Connect?)
      && evs[n + 1..] == (if done then [Log(Done)] else [])
  {
    var n := if done then |evs| - 2 else |evs| - 1;
    assert n == 2 + |mid|;
    forall j | 2 <= j < |evs| && j != n ensures !evs[j].End? && !evs[j].Connect? {
      if j < n {
        assert evs[j] == mid[j - 2];
        assert mid[j - 2] in mid;
      }
    }
  }

  /** `main` succeeds exactly when the key is readable, the server accepts the
      connection and the end of the session, and the run is dry or every planned put is
      accepted. */
  lemma DeploySucceeds(s: State, f: Faults, cfg: Config, keyFiles: map<string, string>,
                       local: map<string, Entry>, cwd: string, items: seq<SyncItem>, dry: bool)
    ensures DeploySpec(s, f, cfg, keyFiles, local, cwd, items, dry).outcome.Ok? <==>
      && ConnectOptionsFor(cfg, keyFiles, cwd).Success? && !f.connect && !f.end
      && (dry || forall p :: p in PlannedTransfers(cfg.remoteRoot, local, cwd, items) ==> p.1 !in f.put)
  {
    if ConnectOptionsFor(cfg, keyFiles, cwd).Success? && !f.connect {
      var options := ConnectOptionsFor(cfg, keyFiles, cwd).value;
      var connected := ConnectStep(LogStep(s, Banner(dry, cfg.host, options.port)), options);
      var body := DeployItems(connected, f, cfg.remoteRoot, local, cwd, items, dry);
      DeployTrace(s, f, cfg, keyFiles, local, cwd, items, dry);
      DeployItemsReport(connected, f, cfg.remoteRoot, local, cwd, items, dry);
      WalkReportOk(Transfers(NewEvents(connected, body.state)), PlannedTransfers(cfg.remoteRoot, local, cwd, items), body.outcome, f, dry);
    }
  }

  /** The framing events around the loop add no transfer and no per-item line. */
  lemma FramedQuiet(head: seq<Event>, mid: seq<Event>, tail: seq<Event>)
    requires FramingEvents(head) && FramingEvents(tail)
    ensures Transfers(head + mid + tail) == Transfers(mid)
    ensures Decisions(head + mid + tail) == Decisions(mid)
  {
    FramingQuiet(head);
    FramingQuiet(tail);
    TransfersAppend(head, mid);
    TransfersAppend(head + mid, tail);
    DecisionsAppend(head, mid);
    DecisionsAppend(head + mid, tail);
  }

  /** A successful run printed exactly the planned per-item lines and transferred
      exactly the planned files, in order. */
  lemma DeployOkReport(s: State, f: Faults, cfg: Config, keyFiles: map<string, string>,
                       local: map<string, Entry>, cwd: string, items: seq<SyncItem>, dry: bool)
    requires DeploySpec(s, f, cfg, keyFiles, local, cwd, items, dry).outcome.Ok?
    ensures var run := DeploySpec(s, f, cfg, keyFiles, local, cwd, items, dry);
      && Extends(s, run.state)
      && Transfers(NewEvents(s, run.state)) == PlannedTransfers(cfg.remoteRoot, local, cwd, items)
      && Decisions(NewEvents(s, run.state)) == Planned(cfg.remoteRoot, local, cwd, items)
  {
    var run := DeploySpec(s, f, cfg, keyFiles, local, cwd, items, dry);
    DeploySucceeds(s, f, cfg, keyFiles, local, cwd, items, dry);
    var options := ConnectOptionsFor(cfg, keyFiles, cwd).value;
    var connected := ConnectStep(LogStep(s, Banner(dry, cfg.host, options.port)), options);
    var body := DeployItems(connected, f, cfg.remoteRoot, local, cwd, items, dry);
    DeployTrace(s, f, cfg, keyFiles, local, cwd, items, dry);
    var head: seq<Event> := [Log(Banner(dry, cfg.host, options.port)), Connect(options)];
    var mid := NewEvents(connected, body.state);
    var tail: seq<Event> := [End, Log(Done)];
    assert NewEvents(s, run.state) == head + mid + tail;
    assert body.outcome.Ok?;
    DeployItemsReport(connected, f, cfg.remoteRoot, local, cwd, items, dry);
    DeployItemsEvents(connected, f, cfg.remoteRoot, local, cwd, items, dry);
    DeployItemsDecisions(connected, f, cfg.remoteRoot, local, cwd, items, dry);
    FramedQuiet(head, mid, tail);
  }

  /** A real SYNC loop that succeeds stores every planned file, in order. */
  lemma {:induction false} DeployItemsStore(s: State, f: Faults, root: string, local: map<string, Entry>, cwd: string,
                                            items: seq<SyncItem>)
    ensures var run := DeployItems(s, f, root, local, cwd, items, false);
      run.outcome.Ok? ==> run.state.files == Stored(s.files, PlannedTransfers(root, local, cwd, items))
    decreases items
  {
    if items != [] {
      var item := items[0];
      var localPath := Resolve(cwd, item.local);
      var m := Decision(root, local, cwd, item);
      var logged := LogStep(s, m);
      var first := DeployItem(s, f, root, local, cwd, item, false);
      if localPath in local {
        if m.DirItem? {
          UploadEntriesStores(logged, f, localPath, m.remote, local[localPath].children);
        } else {
          UploadFileStores(logged, f, localPath, m.remote);
        }
      }
      if first.outcome.Ok? {
        DeployItemsStore(first.state, f, root, local, cwd, items[1..]);
        StoredAppend(s.files, ItemTransfers(root, local, cwd, item), PlannedTransfers(root, local, cwd, items[1..]));
      }
    }
  }

  /** A successful real `main` leaves the remote files as storing the planned
      transfers in order makes them: every planned remote path holds the local file
      last planned for it, and no other remote file changes. */
  lemma DeployStores(s: State, f: Faults, cfg: Config, keyFiles: map<string, string>,
                     local: map<string, Entry>, cwd: string, items: seq<SyncItem>)
    ensures var run := DeploySpec(s, f, cfg, keyFiles, local, cwd, items, false);
      run.outcome.Ok? ==> run.state.files == Stored(s.files, PlannedTransfers(cfg.remoteRoot, local, cwd, items))
  {
    if ConnectOptionsFor(cfg, keyFiles, cwd).Success? && !f.connect {
      var options := ConnectOptionsFor(cfg, keyFiles, cwd).value;
      var connected := ConnectStep(LogStep(s, Banner(false, cfg.host, options.port)), options);
      DeployItemsStore(connected, f, cfg.remoteRoot, local, cwd, items);
    }
  }

  /** A dry `main` changes nothing remote and issues no mkdir and no put; it fails only
      on an unreadable key or when the server refuses the connection or its end. */
  lemma DeployDry(s: State, f: Faults, cfg: Config, keyFiles: map<string, string>,
                  local: map<string, Entry>, cwd: string, items: seq<SyncItem>)
    ensures var run := DeploySpec(s, f, cfg, keyFiles, local, cwd, items, true);
      && run.state.dirs == s.dirs && run.state.files == s.files
      && Extends(s, run.state) && ReadOnly(NewEvents(s, run.state))
      && (run.outcome.Ok? <==> ConnectOptionsFor(cfg, keyFiles, cwd).Success? && !f.connect && !f.end)
  {
    var run := DeploySpec(s, f, cfg, keyFiles, local, cwd, items, true);
    match ConnectOptionsFor(cfg, keyFiles, cwd)
    case Failure(_) =>
      AppendExtends(s, s, []);
    case Success(options) =>
      var head: seq<Event> := [Log(Banner(true, cfg.host, options.port)), Connect(options)];
      if f.connect {
        assert run.state.trace == s.trace + head;
        AppendExtends(s, run.state, head);
      } else {
        var connected := ConnectStep(LogStep(s, Banner(true, cfg.host, options.port)), options);
        DeployItemsDry(connected, f, cfg.remoteRoot, local, cwd, items);
        DeployTrace(s, f, cfg, keyFiles, local, cwd, items, true);
      }
  }

  /** A dry run prints the same per-item lines and announces the same transfers, in
      the same order, as any successful real run on the same configuration and local
      tree, whatever the remote side held. */
  lemma DryRunMatchesRealRun(s: State, f: Faults, sDry: State, fDry: Faults, cfg: Config, keyFiles: map<string, string>,
                             local: map<string, Entry>, cwd: string, items: seq<SyncItem>)
    requires DeploySpec(s, f, cfg, keyFiles, local, cwd, items, false).outcome.Ok?
    requires DeploySpec(sDry, fDry, cfg, keyFiles, local, cwd, items, true).outcome.Ok?
    ensures var realRun := DeploySpec(s, f, cfg, keyFiles, local, cwd, items, false);
      var dryRun := DeploySpec(sDry, fDry, cfg, keyFiles, local, cwd, items, true);
      && Transfers(NewEvents(sDry, dryRun.state)) == Transfers(NewEvents(s, realRun.state))
      && Decisions(NewEvents(sDry, dryRun.state)) == Decisions(NewEvents(s, realRun.state))
  {
    DeployOkReport(s, f, cfg, keyFiles, local, cwd, items, false);
    DeployOkReport(sDry, fDry, cfg, keyFiles, local, cwd, items, true);
  }

  /** An item whose remote name is a plain segment other than "." is skipped exactly
      when its local path is missing. Otherwise it lands directly below the normalised
      root, and the parent that `uploadFile` ensures has the same running prefixes as
      that root; below a root without a trailing slash that parent is the root itself.
      An empty root leaves the bare name. */
  lemma DecisionUnderRoot(root: string, local: map<string, Entry>, cwd: string, item: SyncItem)
    requires PlainSegment(item.remote) && item.remote != "."
    ensures var m := Decision(root, local, cwd, item);
      var d := PosixJoin([root]);
      && (m.SkipMissing? <==> Resolve(cwd, item.local) !in local)
      && (!m.SkipMissing? && d == "" ==> m.remote == item.remote)
      && (!m.SkipMissing? && d != "" ==>
            && m.remote == (if d[|d| - 1] == '/' then d + item.remote else d + "/" + item.remote)
            && Prefixes(Dirname(m.remote)) == Prefixes(d))
      && (!m.SkipMissing? && d != "" && d[|d| - 1] != '/' ==> Dirname(m.remote) == d)
  {
    var m, d := Decision(root, local, cwd, item), PosixJoin([root]);
    assert !m.SkipMissing? ==> m.remote == PosixJoin([root, item.remote]);
    if d == "" {
      PosixJoinFacts([root]);
      assert root == "";
      ChildOfEmptyJoin(item.remote);
    } else {
      ChildOfAnyJoin(root, item.remote);
      if d[|d| - 1] != '/' {
        ChildOfJoin(root, item.remote);
      }
    }
  }

  /** Every SYNC item has such a remote name. */
  lemma SyncNamesArePlain()
    ensures forall k :: 0 <= k < |Sync| ==> PlainSegment(Sync[k].remote) && Sync[k].remote != "."
  {
    forall k | 0 <= k < |Sync| ensures PlainSegment(Sync[k].remote) && Sync[k].remote != "." {
      var name := Sync[k].remote;
      assert name == [".htaccess", "404.html", "config.json", "favicon.ico", "index.php"][k];
      assert forall i :: 0 <= i < |name| ==> name[i] != '/' && name[i] != '\\';
    }
  }

  /** The connection options of `main`, built as it builds them. */
  method BuildConnectOptions(cfg: Config, keyFiles: map<string, string>, cwd: string) returns (r: Result<ConnectOptions>)
    ensures r == ConnectOptionsFor(cfg, keyFiles, cwd)
  {
    var options := ConnectOptions(cfg.host, 22, cfg.username, None, None, None);
    if cfg.port.Some? {
      options := options.(port := cfg.port.value);
    }
    if Truthy(cfg.password) {
      options := options.(password := cfg.password);
    }
    if Truthy(cfg.privateKeyPath) {
      var keyPath := Resolve(cwd, cfg.privateKeyPath.value);
      if keyPath !in keyFiles {
        return Failure(KeyUnreadable(keyPath));
      }
      options := options.(privateKey := Some(keyFiles[keyPath]));
      if Truthy(cfg.passphrase) {
        options := options.(passphrase := cfg.passphrase);
      }
    }
    r := Success(options);
  }

  /** One pass of the SYNC loop: print the item's line, then skip it when the local
      path is missing, or upload the directory or the file. */
  method SyncItemStep(w: World, root: string, local: map<string, Entry>, cwd: string, item: SyncItem, dry: bool)
    returns (r: Outcome)
    modifies w
    ensures Run(w.Current(), r) == DeployItem(old(w.Current()), w.faults, root, local, cwd, item, dry)
  {
    var localPath := Resolve(cwd, item.local);
    if localPath !in local {
      w.Log(SkipMissing(item.local));
      return Ok;
    }
    var remotePath := PosixJoin([root, item.remote]);
    if local[localPath].Dir? {
      var target := if item.remote == "." then root else remotePath;
      w.Log(DirItem(item.local, target));
      r := UploadDirRecursive(w, dry, localPath, target, local[localPath].children);
    } else {
      w.Log(FileItem(item.local, remotePath));
      r := UploadFile(w, dry, localPath, remotePath);
    }
  }

  /** The `try` block of `main`: the SYNC loop, which ends at the first error and
      hands it on. */
  method SyncLoop(w: World, root: string, local: map<string, Entry>, cwd: string, dry: bool)
    returns (error: Option<Error>)
    modifies w
    ensures var body := DeployItems(old(w.Current()), w.faults, root, local, cwd, Sync, dry);
      && w.Current() == body.state
      && (error.None? <==> body.outcome.Ok?)
      && (error.Some? ==> body.outcome == Failed(error.value))
  {
    ghost var body := DeployItems(w.Current(), w.faults, root, local, cwd, Sync, dry);
    error := None;
    var i := 0;
    while i < |Sync| && error.None?
      invariant 0 <= i <= |Sync|
      invariant error.None? ==> DeployItems(w.Current(), w.faults, root, local, cwd, Sync[i..], dry) == body
      invariant error.Some? ==> Run(w.Current(), Failed(error.value)) == body
    {
      DeployItemsCons(w.Current(), w.faults, root, local, cwd, Sync[i..], dry);
      assert Sync[i..][0] == Sync[i] && Sync[i..][1..] == Sync[i + 1..];
      var r := SyncItemStep(w, root, local, cwd, Sync[i], dry);
      if r.Failed? {
        error := Some(r.error);
      }
      i := i + 1;
    }
  }

  /** `main`, over the SYNC list; the `finally` block is the call of `End` after the
      loop, which runs whether the loop ended normally or by an error. */
  method RunDeploy(w: World, cfg: Config, keyFiles: map<string, string>, local: map<string, Entry>,
                   cwd: string, dry: bool) returns (res: Outcome)
    modifies w
    ensures Run(w.Current(), res) == DeploySpec(old(w.Current()), w.faults, cfg, keyFiles, local, cwd, Sync, dry)
  {
    var built := BuildConnectOptions(cfg, keyFiles, cwd);
    if built.Failure? {
      return Failed(built.error);
    }
    var options := built.value;
    w.Log(Banner(dry, cfg.host, options.port));
    var connected := w.Connect(options);
    if !connected {
      return Failed(ConnectFailed);
    }
    var error := SyncLoop(w, cfg.remoteRoot, local, cwd, dry);
    var ended := w.End();
    if !ended {
      return Failed(EndFailed);
    }
    if error.Some? {
      return Failed(error.value);
    }
    w.Log(Done);
    res := Ok;
  }
}
