/** `ensureRemoteDir` of deploy.js: stat every running prefix of a remote directory,
    left to right, and `mkdir` the ones that are missing unless running dry. A failing
    `mkdir` is swallowed, so the operation has no error result. */
module EnsureDir {
  import opened Paths
  import opened Remote

  /** Visit `paths` in order: stat each one and, when the stat finds nothing and the
      run is not dry, issue a `mkdir` for it. */
  function EnsureSteps(s: State, f: Faults, paths: seq<string>, dry: bool): State
    decreases |paths|
  {
    if paths == [] then s
    else
      var p := paths[0];
      EnsureSteps(EnsureStep(s, f, p, dry), f, paths[1..], dry)
  }

  /** The state after `ensureRemoteDir(dir)`. */
  function Ensure(s: State, f: Faults, dir: string, dry: bool): State {
    EnsureSteps(s, f, Prefixes(dir), dry)
  }

  /** The directories a visit of `paths` creates: none in a dry run, otherwise every
      path the server does not refuse and that is not already a file. */
  function Created(s: State, f: Faults, paths: seq<string>, dry: bool): set<string> {
    if dry then {} else set p | p in paths && p !in f.mkdir && p !in s.files
  }

  /** The stat calls of a dry visit: one per path, against the unchanged state. */
  function DryStats(s: State, paths: seq<string>): seq<Event> {
    seq(|paths|, i requires 0 <= i < |paths| => Stat(paths[i], Exists(s, paths[i])))
  }

  /** A visit only appends stat and mkdir calls, one stat per path in order; it never
      touches files. */
  lemma {:induction false} EnsureStepsFrame(s: State, f: Faults, paths: seq<string>, dry: bool)
    ensures var r := EnsureSteps(s, f, paths, dry);
      && Extends(s, r) && r.files == s.files
      && Probes(NewEvents(s, r))
      && Visited(NewEvents(s, r)) == paths
    decreases |paths|
  {
    var r := EnsureSteps(s, f, paths, dry);
    if paths == [] {
      AppendExtends(s, r, []);
    } else {
      var p := paths[0];
      var next := EnsureStep(s, f, p, dry);
      var step := StepEvents(s, f, p, dry);
      AppendExtends(s, next, step);
      EnsureStepsFrame(next, f, paths[1..], dry);
      ExtendsTrans(s, next, r);
      var rest := NewEvents(next, r);
      VisitedAppend(step, rest);
      assert Visited(step) == [p];
      assert paths == [p] + paths[1..];
    }
  }

  /** One path of a visit: the stat, and the mkdir when it is due. */
  function EnsureStep(s: State, f: Faults, p: string, dry: bool): State {
    var probed := StatStep(s, p);
    if Exists(s, p) || dry then probed else MkdirStep(probed, f, p)
  }

  /** The events of one path of a visit. */
  function StepEvents(s: State, f: Faults, p: string, dry: bool): (evs: seq<Event>)
    ensures EnsureStep(s, f, p, dry).trace == s.trace + evs
  {
    if Exists(s, p) || dry then [Stat(p, Exists(s, p))] else [Stat(p, false), Mkdir(p)]
  }

  lemma MkdirsConcat(a: seq<Event>, b: seq<Event>)
    requires MkdirsFollowFailedStats(a) && MkdirsFollowFailedStats(b)
    ensures MkdirsFollowFailedStats(a + b)
  {
    forall j | 0 <= j < |a + b| && (a + b)[j].Mkdir?
      ensures j > 0 && (a + b)[j - 1] == Stat((a + b)[j].path, false)
    {
      if j >= |a| {
        assert (a + b)[j] == b[j - |a|];
        if j - |a| > 0 {
          assert (a + b)[j - 1] == b[j - 1 - |a|];
        }
      }
    }
  }

  /** Every mkdir of a visit comes straight after a stat of the same path that found
      nothing. */
  lemma {:induction false} EnsureStepsMkdirs(s: State, f: Faults, paths: seq<string>, dry: bool)
    ensures MkdirsFollowFailedStats(NewEvents(s, EnsureSteps(s, f, paths, dry)))
    decreases |paths|
  {
    var r := EnsureSteps(s, f, paths, dry);
    if paths != [] {
      var next := EnsureStep(s, f, paths[0], dry);
      var step := StepEvents(s, f, paths[0], dry);
      AppendExtends(s, next, step);
      EnsureStepsFrame(next, f, paths[1..], dry);
      EnsureStepsMkdirs(next, f, paths[1..], dry);
      ExtendsTrans(s, next, r);
      MkdirsConcat(step, NewEvents(next, r));
    }
  }

  /** A visit adds exactly the directories in `Created` and nothing else. */
  lemma {:induction false} EnsureStepsDirs(s: State, f: Faults, paths: seq<string>, dry: bool)
    ensures EnsureSteps(s, f, paths, dry).dirs == s.dirs + Created(s, f, paths, dry)
    decreases |paths|
  {
    if paths != [] {
      var p := paths[0];
      var next := EnsureStep(s, f, p, dry);
      EnsureStepsDirs(next, f, paths[1..], dry);
      EnsureStepsFrame(next, f, paths[1..], dry);
      assert next.files == s.files;
      assert forall q :: q in paths <==> q == p || q in paths[1..];
      assert Created(s, f, paths, dry)
          == Created(s, f, [p], dry) + Created(next, f, paths[1..], dry);
    }
  }

  /** In a dry run nothing changes except the trace, which gains exactly one stat per
      path: no mkdir is issued. */
  lemma {:induction false} EnsureStepsDry(s: State, f: Faults, paths: seq<string>)
    ensures EnsureSteps(s, f, paths, true) == s.(trace := s.trace + DryStats(s, paths))
    decreases |paths|
  {
    if paths == [] {
      assert s.trace + DryStats(s, paths) == s.trace;
    } else {
      var probed := StatStep(s, paths[0]);
      EnsureStepsDry(probed, f, paths[1..]);
      assert DryStats(s, paths) == DryStats(s, [paths[0]]) + DryStats(probed, paths[1..]);
    }
  }

  /** When every path already exists, a visit only stats them, each one found. */
  lemma {:induction false} EnsureStepsAllExist(s: State, f: Faults, paths: seq<string>, dry: bool)
    requires forall p :: p in paths ==> Exists(s, p)
    ensures EnsureSteps(s, f, paths, dry) == s.(trace := s.trace + DryStats(s, paths))
    ensures forall e :: e in DryStats(s, paths) ==> e.Stat? && e.found
    decreases |paths|
  {
    if paths == [] {
      assert s.trace + DryStats(s, paths) == s.trace;
    } else {
      var probed := StatStep(s, paths[0]);
      assert forall p :: p in paths[1..] ==> p in paths;
      EnsureStepsAllExist(probed, f, paths[1..], dry);
      assert DryStats(s, paths) == DryStats(s, [paths[0]]) + DryStats(probed, paths[1..]);
    }
  }

  /** `ensureRemoteDir(dir)` stats exactly the prefixes of `dir`, one per non-empty
      segment, in order, and issues mkdir only right after a stat that found nothing;
      it never touches remote files and issues nothing but stat and mkdir. */
  lemma EnsureVisitsPrefixes(s: State, f: Faults, dir: string, dry: bool)
    ensures var r := Ensure(s, f, dir, dry);
      && Extends(s, r) && r.files == s.files
      && Visited(NewEvents(s, r)) == Prefixes(dir)
      && |Visited(NewEvents(s, r))| == |Segments(dir)|
      && Probes(NewEvents(s, r))
      && MkdirsFollowFailedStats(NewEvents(s, r))
  {
    EnsureStepsFrame(s, f, Prefixes(dir), dry);
    EnsureStepsMkdirs(s, f, Prefixes(dir), dry);
    PrefixesShape(dir);
  }

  /** With the empty string, "/" or any slash-only path there is nothing to visit: no
      stat, no mkdir. */
  lemma EnsureRootIsNoOp(s: State, f: Faults, dir: string, dry: bool)
    requires forall i :: 0 <= i < |dir| ==> dir[i] == '/'
    ensures Ensure(s, f, dir, dry) == s
    ensures Ensure(s, f, "", dry) == s && Ensure(s, f, "/", dry) == s
  {
    RootHasNoPrefixes(dir);
  }

  /** A dry `ensureRemoteDir` issues only stat calls, one per prefix, and changes
      neither directories nor files. */
  lemma EnsureDryOnlyStats(s: State, f: Faults, dir: string)
    ensures var r := Ensure(s, f, dir, true);
      && r.dirs == s.dirs && r.files == s.files
      && r.trace == s.trace + DryStats(s, Prefixes(dir))
      && ReadOnly(NewEvents(s, r))
      && forall e :: e in NewEvents(s, r) ==> e.Stat?
  {
    var r := Ensure(s, f, dir, true);
    EnsureStepsDry(s, f, Prefixes(dir));
    AppendExtends(s, r, DryStats(s, Prefixes(dir)));
  }

  /** A real run where the server accepts the mkdir calls leaves every prefix of `dir`
      present as a directory, unless it is already a remote file. */
  lemma EnsureCreatesAll(s: State, f: Faults, dir: string)
    requires forall p :: p in Prefixes(dir) ==> p !in f.mkdir
    ensures var r := Ensure(s, f, dir, false);
      forall p :: p in Prefixes(dir) ==> p in r.dirs || p in s.files
  {
    EnsureStepsDirs(s, f, Prefixes(dir), false);
  }

  /** Ensuring the same directory twice leaves the same remote tree as ensuring it once. */
  lemma EnsureIdempotent(s: State, f: Faults, dir: string, dry: bool)
    ensures var once := Ensure(s, f, dir, dry);
      var twice := Ensure(once, f, dir, dry);
      twice.dirs == once.dirs && twice.files == once.files
  {
    var once := Ensure(s, f, dir, dry);
    EnsureStepsDirs(s, f, Prefixes(dir), dry);
    EnsureStepsFrame(s, f, Prefixes(dir), dry);
    EnsureStepsDirs(once, f, Prefixes(dir), dry);
    EnsureStepsFrame(once, f, Prefixes(dir), dry);
  }

  /** After a real run in which every mkdir was accepted, a second `ensureRemoteDir`
      of the same directory issues no mkdir: its stats all find their path. */
  lemma EnsureSecondCallNoMkdir(s: State, f: Faults, dir: string)
    requires forall p :: p in Prefixes(dir) ==> p !in f.mkdir
    ensures var once := Ensure(s, f, dir, false);
      var twice := Ensure(once, f, dir, false);
      && twice == once.(trace := once.trace + DryStats(once, Prefixes(dir)))
      && forall e :: e in NewEvents(once, twice) ==> e.Stat? && e.found
  {
    var once := Ensure(s, f, dir, false);
    EnsureCreatesAll(s, f, dir);
    EnsureStepsFrame(s, f, Prefixes(dir), false);
    EnsureStepsAllExist(once, f, Prefixes(dir), false);
    AppendExtends(once, Ensure(once, f, dir, false), DryStats(once, Prefixes(dir)));
  }

  /** One step of the running prefix: from the previous prefix (or the start value
      "/" or "") and the next segment to the next prefix. */
  lemma PrefixNext(dir: string, i: nat, cur: string)
    requires i < |Segments(dir)|
    requires i == 0 ==> cur == "/" || cur == ""
    requires i > 0 ==> i - 1 < |Prefixes(dir)| && cur == Prefixes(dir)[i - 1]
    ensures i < |Prefixes(dir)|
    ensures (if cur == "/" then "/" + Segments(dir)[i] else cur + "/" + Segments(dir)[i])
      == Prefixes(dir)[i]
  {
    PrefixesShape(dir);
  }

  /** A visit is its first step followed by the visit of the rest. */
  lemma EnsureStepsCons(s: State, f: Faults, paths: seq<string>, dry: bool)
    requires paths != []
    ensures EnsureSteps(s, f, paths, dry) == EnsureSteps(EnsureStep(s, f, paths[0], dry), f, paths[1..], dry)
  {
  }

  /** `ensureRemoteDir(remoteDir)`: split into segments, build the running prefix
      `cur` (which starts at "/" or "" and becomes "/" + segment on the first step
      either way), stat it, and mkdir it when the stat fails and the run is not dry,
      ignoring whether the mkdir succeeds. */
  method EnsureRemoteDir(w: World, dry: bool, remoteDir: string)
    modifies w
    ensures w.Current() == Ensure(old(w.Current()), w.faults, remoteDir, dry)
  {
    var parts := Compact(Split(remoteDir));
    var cur := if |remoteDir| > 0 && remoteDir[0] == '/' then "/" else "";
    ghost var goal := Ensure(w.Current(), w.faults, remoteDir, dry);
    ghost var ps := Prefixes(remoteDir);
    var i := 0;
    while i < |parts|
      invariant 0 <= i <= |parts| == |ps|
      invariant i == 0 ==> cur == "/" || cur == ""
      invariant i > 0 ==> cur == ps[i - 1]
      invariant EnsureSteps(w.Current(), w.faults, ps[i..], dry) == goal
    {
      PrefixNext(remoteDir, i, cur);
      var part := parts[i];
      cur := if cur == "/" then "/" + part else cur + "/" + part;
      ghost var before := w.Current();
      EnsureStepsCons(before, w.faults, ps[i..], dry);
      assert ps[i..][0] == cur && ps[i..][1..] == ps[i + 1..];
      var found := w.Stat(cur);
      if !found && !dry {
        var created := w.Mkdir(cur);
      }
      assert w.Current() == EnsureStep(before, w.faults, cur, dry);
      i := i + 1;
    }
  }
}
