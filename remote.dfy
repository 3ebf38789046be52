/** The SFTP session that deploy.js drives, as an abstract remote state: the set of
    remote directories, the remote files (each mapped to the local file last put
    there) and the trace of everything observable the script does, remote calls and
    console lines interleaved in the order they happen. Which calls fail is fixed in
    advance by a `Faults` value, so every operation is a function of the state. */
module Remote {

  datatype Option<+T> = None | Some(value: T)

  /** The options object handed to `sftp.connect`. */
  datatype ConnectOptions = ConnectOptions(
    host: string,
    port: int,
    username: string,
    password: Option<string>,
    privateKey: Option<string>,
    passphrase: Option<string>)

  /** The console lines of the script, by kind. */
  datatype Message =
    | Banner(dry: bool, host: string, port: int)
    | SkipMissing(local: string)
    | DirItem(local: string, remote: string)
    | FileItem(local: string, remote: string)
    | DryPut(local: string, remote: string)
    | Uploaded(local: string, remote: string)
    | Done

  /** One observable step: a call on the session (a `stat` records whether the path
      was found) or a console line. */
  datatype Event =
    | Connect(options: ConnectOptions)
    | Stat(path: string, found: bool)
    | Mkdir(path: string)
    | Put(local: string, remote: string)
    | End
    | Log(message: Message)

  /** The errors that can end a run. */
  datatype Error =
    | KeyUnreadable(path: string)
    | ConnectFailed
    | PutFailed(local: string, remote: string)
    | EndFailed

  datatype Outcome = Ok | Failed(error: Error)

  datatype State = State(dirs: set<string>, files: map<string, string>, trace: seq<Event>)

  /** Which calls the server rejects: `connect`, `mkdir` of the listed paths, `fastPut`
      to the listed remote paths, and `end`. A `mkdir` of a path that already exists
      is rejected as well. */
  datatype Faults = Faults(connect: bool, mkdir: set<string>, put: set<string>, end: bool)

  /** The state after an operation that can fail, with how it ended. */
  datatype Run = Run(state: State, outcome: Outcome)

  /** What `stat` reports: the path names a directory or a file. */
  predicate Exists(s: State, path: string) {
    path in s.dirs || path in s.files
  }

  predicate MkdirSucceeds(s: State, f: Faults, path: string) {
    path !in f.mkdir && !Exists(s, path)
  }

  function StatStep(s: State, path: string): State {
    s.(trace := s.trace + [Stat(path, Exists(s, path))])
  }

  function MkdirStep(s: State, f: Faults, path: string): State {
    s.(dirs := if MkdirSucceeds(s, f, path) then s.dirs + {path} else s.dirs,
       trace := s.trace + [Mkdir(path)])
  }

  function PutStep(s: State, f: Faults, local: string, remote: string): State {
    s.(files := if remote !in f.put then s.files[remote := local] else s.files,
       trace := s.trace + [Put(local, remote)])
  }

  function ConnectStep(s: State, options: ConnectOptions): State {
    s.(trace := s.trace + [Connect(options)])
  }

  function EndStep(s: State): State {
    s.(trace := s.trace + [End])
  }

  function LogStep(s: State, m: Message): State {
    s.(trace := s.trace + [Log(m)])
  }

  /** The trace of `after` continues the trace of `before`. */
  predicate Extends(before: State, after: State) {
    |before.trace| <= |after.trace| && after.trace[..|before.trace|] == before.trace
  }

  /** The events that `after` has added to the trace of `before`. */
  function NewEvents(before: State, after: State): seq<Event> {
    if |before.trace| <= |after.trace| then after.trace[|before.trace|..] else []
  }

  lemma ExtendsTrans(a: State, b: State, c: State)
    requires Extends(a, b) && Extends(b, c)
    ensures Extends(a, c)
    ensures NewEvents(a, c) == NewEvents(a, b) + NewEvents(b, c)
  {
    assert c.trace[..|b.trace|][..|a.trace|] == c.trace[..|a.trace|];
    assert c.trace[|a.trace|..] == c.trace[|a.trace|..|b.trace|] + c.trace[|b.trace|..];
    assert c.trace[|a.trace|..|b.trace|] == b.trace[|a.trace|..];
  }

  lemma AppendExtends(s: State, t: State, evs: seq<Event>)
    requires t.trace == s.trace + evs
    ensures Extends(s, t) && NewEvents(s, t) == evs
  {
    assert t.trace[..|s.trace|] == s.trace;
  }

  /** The paths of the `stat` calls among `evs`, in order. */
  function Visited(evs: seq<Event>): seq<string> {
    if evs == [] then []
    else (if evs[0].Stat? then [evs[0].path] else []) + Visited(evs[1..])
  }

  lemma {:induction false} VisitedAppend(a: seq<Event>, b: seq<Event>)
    ensures Visited(a + b) == Visited(a) + Visited(b)
  {
    if a == [] {
      assert a + b == b;
    } else {
      assert (a + b)[0] == a[0] && (a + b)[1..] == a[1..] + b;
      VisitedAppend(a[1..], b);
    }
  }

  /** Only `stat` and `mkdir` calls. */
  predicate Probes(evs: seq<Event>) {
    forall e :: e in evs ==> e.Stat? || e.Mkdir?
  }

  /** Nothing that changes the remote side: no `mkdir`, no `fastPut`. */
  predicate ReadOnly(evs: seq<Event>) {
    forall e :: e in evs ==> !e.Mkdir? && !e.Put?
  }

  /** Every `mkdir` comes straight after a `stat` of the same path that found nothing. */
  predicate MkdirsFollowFailedStats(evs: seq<Event>) {
    forall j :: 0 <= j < |evs| && evs[j].Mkdir? ==> j > 0 && evs[j - 1] == Stat(evs[j].path, false)
  }

  /** The client object of `ssh2-sftp-client` together with the console: remote state,
      and the trace of calls and printed lines. */
  class World {
    var dirs: set<string>
    var files: map<string, string>
    var trace: seq<Event>
    const faults: Faults

    function Current(): State
      reads this
    {
      State(dirs, files, trace)
    }

    constructor (dirs0: set<string>, files0: map<string, string>, faults0: Faults)
      ensures Current() == State(dirs0, files0, []) && faults == faults0
    {
      dirs, files, trace := dirs0, files0, [];
      faults := faults0;
    }

    /** `sftp.connect(options)`: resolves unless the server rejects the connection. */
    method Connect(options: ConnectOptions) returns (ok: bool)
      modifies this
      ensures Current() == ConnectStep(old(Current()), options)
      ensures ok == !faults.connect
    {
      trace := trace + [Event.Connect(options)];
      ok := !faults.connect;
    }

    /** `sftp.stat(path)`: resolves exactly when the path exists. */
    method Stat(path: string) returns (found: bool)
      modifies this
      ensures Current() == StatStep(old(Current()), path)
      ensures found == Exists(old(Current()), path)
    {
      found := path in dirs || path in files;
      trace := trace + [Event.Stat(path, found)];
    }

    /** `sftp.mkdir(path)`: creates the directory, or rejects when the path exists
        or the server refuses it. */
    method Mkdir(path: string) returns (ok: bool)
      modifies this
      ensures Current() == MkdirStep(old(Current()), faults, path)
      ensures ok == MkdirSucceeds(old(Current()), faults, path)
    {
      ok := path !in faults.mkdir && path !in dirs && path !in files;
      if ok {
        dirs := dirs + {path};
      }
      trace := trace + [Event.Mkdir(path)];
    }

    /** `sftp.fastPut(local, remote)`: stores the file, or rejects. */
    method FastPut(local: string, remote: string) returns (ok: bool)
      modifies this
      ensures Current() == PutStep(old(Current()), faults, local, remote)
      ensures ok == (remote !in faults.put)
    {
      ok := remote !in faults.put;
      if ok {
        files := files[remote := local];
      }
      trace := trace + [Put(local, remote)];
    }

    /** `sftp.end()`: closes the session, or rejects. */
    method End() returns (ok: bool)
      modifies this
      ensures Current() == EndStep(old(Current()))
      ensures ok == !faults.end
    {
      trace := trace + [Event.End];
      ok := !faults.end;
    }

    /** `console.log` / `console.warn`. */
    method Log(m: Message)
      modifies this
      ensures Current() == LogStep(old(Current()), m)
    {
      trace := trace + [Event.Log(m)];
    }
  }
}
