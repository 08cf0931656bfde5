/** The launcher's `main` as one deterministic run: fall back to the plain
    tool when the worker executable is missing, resolve the project root,
    start the worker when the session has no token, send one request,
    relay the response, and turn the `status` file into the exit code.
    Everything outside the process is a parameter: the environment, the
    directories holding a `Gemfile`, the session files, and what the
    worker does in answer. */
module Launcher {
  import opened Options
  import opened Paths
  import ProjectRoot
  import CacheKey
  import IntParse
  import Request
  import opened Session

  /** The files the run reads and writes, by path, with their text. */
  type Files = map<Path, string>

  datatype Invocation = Invocation(
    home: Option<Path>,   // HOME split into components; None when unset
    cwd: Path,            // the current directory
    env: map<string, string>,
    argv: seq<string>,    // including the program name
    stdin: string)

  datatype Host = Host(
    daemonOnPath: bool,   // `which("rubocop-daemon")` succeeds
    spawnable: set<string>, // program names `Command::new` can start
    marked: set<Path>,    // directories that hold a Gemfile
    files: Files)

  /** The other side: the fallback tool's exit code (None when killed by a
      signal), what `rubocop-daemon start` writes to `token` and `port`,
      the response body, and what the worker writes to `status`. */
  datatype Worker = Worker(
    fallbackCode: Option<int>,
    startToken: Option<string>,
    startPort: Option<string>,
    response: string,
    status: Option<string>)

  datatype Event =
    | FallbackRun(program: string, args: seq<string>)
    | WorkerStarted(program: string, args: seq<string>, env: seq<(string, Path)>)
    | StatusCleared(path: Path)
    | RequestSent(frame: string)
    | ResponseRelayed(body: string)
    | StatusRead(path: Path)
    | StatusRemoved(path: Path)

  /** How the process ends: `process::exit`, a panic, or `main` returning an
      error through `?`. */
  datatype Ending = Exited(code: int) | Panicked(message: string) | ReturnedErr(what: string)
  {
    /** The status the process ends with: Rust exits 101 on a panic and 1
        when `main` returns an error. */
    function ExitCode(): int {
      match this
      case Exited(c) => c
      case Panicked(_) => 101
      case ReturnedErr(_) => 1
    }
  }

  datatype Outcome = Outcome(events: seq<Event>, stdout: string, stderr: string, ending: Ending, files: Files)

  const StatusDiagnostic := "rubocop-daemon-wrapper: server did not write status to $STATUS_PATH!\n"

  datatype StatusResult = StatusResult(ending: Ending, stderr: string, files: Files, consumed: bool)

  /** `exit_with_status`: a missing file is an error out of `main`; text that
      parses as an i32 removes the file and exits with that value; anything
      else prints the diagnostic and exits 1, leaving the file in place. */
  function ExitWithStatus(files: Files, path: Path): (r: StatusResult)
    ensures r.consumed <==> path in files && IntParse.ParseI32(files[path]).Some?
    ensures r.consumed ==> r.ending == Exited(IntParse.ParseI32(files[path]).value)
    ensures r.consumed ==> r.files == files - {path} && r.stderr == ""
    ensures !r.consumed ==> r.files == files
    ensures path !in files ==> r.ending.ReturnedErr? && r.stderr == ""
    ensures path in files && !r.consumed ==> r.ending == Exited(1) && r.stderr == StatusDiagnostic
  {
    if path !in files then StatusResult(ReturnedErr("reading status"), "", files, false)
    else
      match IntParse.ParseI32(files[path])
      case Some(n) => StatusResult(Exited(n), "", files - {path}, true)
      case None => StatusResult(Exited(1), StatusDiagnostic, files, false)
  }

  /** Every i32 the worker writes in decimal is the exit code, exactly. */
  lemma StatusRoundTrip(files: Files, path: Path, n: int)
    requires IntParse.MinI32 <= n <= IntParse.MaxI32
    ensures ExitWithStatus(files[path := IntParse.Render(n)], path).ending == Exited(n)
    ensures ExitWithStatus(files[path := IntParse.Render(n)], path).files == files - {path}
  {
    IntParse.I32RoundTrip(n);
    assert files[path := IntParse.Render(n)] - {path} == files - {path};
  }

  /** A status with a trailing newline is not a status. */
  lemma StatusWithNewlineRejected(files: Files, path: Path)
    ensures ExitWithStatus(files[path := "0\n"], path).ending == Exited(1)
    ensures ExitWithStatus(files[path := "0\n"], path).stderr == StatusDiagnostic
  {
    IntParse.TrailingNonDigitRejected("0", '\n', true, IntParse.MinI32, IntParse.MaxI32);
    assert "0" + ['\n'] == "0\n";
  }

  /** The resolved root as text: the nearest Gemfile directory, or the
      current directory. */
  function RootText(inv: Invocation, host: Host): (text: string)
    ensures |text| > 0 && text[0] == '/'
    ensures inv.cwd in host.marked ==> text == PathString(inv.cwd)
    ensures ProjectRoot.NoMarkedAncestor(inv.cwd, host.marked) ==> text == PathString(inv.cwd)
  {
    PathString(ProjectRoot.EffectiveRoot(inv.cwd, host.marked))
  }

  /** The session of the resolved root: its files are distinct and lie in
      `$HOME/.cache/rubocop-daemon`, in the subdirectory named by the root's
      key. */
  function SessionOf(inv: Invocation, host: Host): (l: Layout)
    requires inv.home.Some?
    ensures FilesDistinct(l)
    ensures l.cacheDir == CacheDir(inv.home.value)
    ensures l.projectCacheDir == Join(l.cacheDir, CacheKey.Key(RootText(inv, host)))
  {
    var key := CacheKey.Key(RootText(inv, host));
    SessionFilesDistinct(CacheDir(inv.home.value), key);
    SessionLayout(CacheDir(inv.home.value), key)
  }

  /** What the request carries besides the token: the root text, the
      arguments, and the payload `stdin_content` chose. */
  datatype Query = Query(root: string, argv: seq<string>, payload: string) {
    function FrameWith(token: string): string {
      Request.Frame(token, root, argv, payload)
    }
  }

  function QueryOf(inv: Invocation, host: Host): (q: Query)
    ensures |q.root| > 0 && q.root[0] == '/' && q.argv == inv.argv
    ensures Request.StdinContentVar in inv.env ==> q.payload == inv.env[Request.StdinContentVar]
    ensures Request.StdinContentVar !in inv.env && Request.HasStdinFlag(inv.argv) ==> q.payload == inv.stdin
    ensures Request.StdinContentVar !in inv.env && !Request.HasStdinFlag(inv.argv) ==> q.payload == ""
  {
    Query(RootText(inv, host), inv.argv, Request.StdinContent(inv.env, inv.argv, inv.stdin))
  }

  /** The worker start `main` performs when the session has no token: `None`
      when the program cannot be spawned, which makes
      `.expect("rubocop failed")` panic. */
  function StartOf(inv: Invocation, host: Host): (start: Option<Event>)
    requires inv.home.Some?
    ensures start.Some? <==> DaemonCommand(inv.env) in host.spawnable
    ensures start.Some? ==> start.value.WorkerStarted? && start.value.args == ["start"]
  {
    if DaemonCommand(inv.env) in host.spawnable then
      Some(WorkerStarted(DaemonCommand(inv.env), ["start"],
                         SpawnEnv(CacheDir(inv.home.value), CacheKey.Key(RootText(inv, host)))))
    else None
  }

  /** The session files after `rubocop-daemon start` returned. */
  function AfterStart(files: Files, l: Layout, worker: Worker): Files {
    var f := if worker.startToken.Some? then files[l.token := worker.startToken.value] else files;
    if worker.startPort.Some? then f[l.port := worker.startPort.value] else f
  }

  /** The start writes what the worker put in `token` and `port`, and leaves
      every other file as it was. */
  lemma AfterStartWrites(files: Files, l: Layout, worker: Worker)
    ensures var after := AfterStart(files, l, worker);
      && (forall p :: p != l.token && p != l.port ==> (p in after <==> p in files))
      && (forall p :: p != l.token && p != l.port && p in files ==> after[p] == files[p])
      && (worker.startPort.Some? ==> l.port in after && after[l.port] == worker.startPort.value)
      && (l.token != l.port && worker.startPort.None? ==> (l.port in after <==> l.port in files))
      && (l.token != l.port && worker.startToken.Some? ==> l.token in after && after[l.token] == worker.startToken.value)
      && (l.token != l.port && worker.startToken.None? ==> (l.token in after <==> l.token in files))
  {
  }

  /** The files once `running.lock` is gone and the worker, if it had to be
      started, has returned. The lock file is created and at once removed
      again, because the guard meant to remove it at exit is dropped on the
      spot. */
  function FilesAfterStart(l: Layout, files: Files, worker: Worker): Files {
    var base := files - {l.lock};
    if l.token !in files then AfterStart(base, l, worker) else base
  }

  /** After the start the lock file is gone; the token is the one found or
      the one the start wrote; no file but the token, the port and the lock
      has changed. */
  lemma FilesAfterStartShape(l: Layout, files: Files, worker: Worker)
    requires FilesDistinct(l)
    ensures var after := FilesAfterStart(l, files, worker);
      && l.lock !in after
      && (forall p :: p != l.token && p != l.port && p != l.lock ==>
            (p in after <==> p in files) && (p in after ==> after[p] == files[p]))
      && (l.token in files ==> l.token in after && after[l.token] == files[l.token])
      && (l.token !in files ==> (l.token in after <==> worker.startToken.Some?))
      && (l.token !in files && worker.startToken.Some? ==> after[l.token] == worker.startToken.value)
  {
    AfterStartWrites(files - {l.lock}, l, worker);
  }

  /** The request and its answer: clear the stale status, send the frame,
      relay the response to EOF, then read the status the worker wrote. */
  function Exchange(frame: string, st: Path, files: Files, worker: Worker): (o: Outcome)
    ensures |o.events| >= 4
    ensures o.events[..4] == [StatusCleared(st), RequestSent(frame), ResponseRelayed(worker.response), StatusRead(st)]
    ensures |o.events| == 4 || (|o.events| == 5 && o.events[4] == StatusRemoved(st))
    ensures o.stdout == worker.response
  {
    var cleared := files - {st};
    var written := if worker.status.Some? then cleared[st := worker.status.value] else cleared;
    var relay := ExitWithStatus(written, st);
    var events :=
      [StatusCleared(st), RequestSent(frame), ResponseRelayed(worker.response), StatusRead(st)]
      + (if relay.consumed then [StatusRemoved(st)] else []);
    Outcome(events, worker.response, relay.stderr, relay.ending, relay.files)
  }

  /** Read the token and the port, then run the exchange. A missing token or
      port file is an error out of `main` and a port that is not a `u16` is a
      panic; none of them sends anything or changes a file. */
  function Connect(l: Layout, files: Files, q: Query, worker: Worker): (o: Outcome)
    ensures l.token !in files ==> o.ending.ReturnedErr? && o.events == [] && o.files == files
    ensures l.token in files && l.port !in files ==> o.ending.ReturnedErr? && o.events == [] && o.files == files
    ensures l.token in files && l.port in files && IntParse.ParseU16(files[l.port]).None? ==>
      o.ending == Panicked("parsing port file") && o.events == [] && o.files == files
    ensures o.events != [] <==> l.token in files && l.port in files && IntParse.ParseU16(files[l.port]).Some?
    ensures o.events != [] ==> |o.events| >= 4 && o.events[1] == RequestSent(q.FrameWith(files[l.token]))
  {
    if l.token !in files then
      Outcome([], "", "", ReturnedErr("reading token"), files)
    else if l.port !in files then
      Outcome([], "", "", ReturnedErr("reading port"), files)
    else if IntParse.ParseU16(files[l.port]).None? then
      Outcome([], "", "", Panicked("parsing port file"), files)
    else
      Exchange(q.FrameWith(files[l.token]), l.status, files, worker)
  }

  /** The start event, when the session has no token and the start succeeds. */
  function StartEvents(l: Layout, files: Files, start: Option<Event>): seq<Event> {
    if l.token !in files && start.Some? then [start.value] else []
  }

  /** Everything after the lock, for a given session layout: start the worker
      when the session has no token, then connect and exchange. What the
      launcher itself writes to standard output is the worker's response or
      nothing; the children's own output is not modelled. */
  function SessionRun(l: Layout, files: Files, start: Option<Event>, q: Query, worker: Worker): (o: Outcome)
    ensures o.stdout == "" || o.stdout == worker.response
  {
    if l.token !in files && start.None? then
      Outcome([], "", "", Panicked("rubocop failed"), files - {l.lock})
    else
      var o := Connect(l, FilesAfterStart(l, files, worker), q, worker);
      o.(events := StartEvents(l, files, start) + o.events)
  }

  /** One run of `main`. What the launcher itself writes to standard output
      is the worker's response or nothing, and a run that never reaches the
      lock changes no file itself. The children's own output and file
      changes are not modelled. */
  function Run(inv: Invocation, host: Host, worker: Worker): (o: Outcome)
    ensures o.stdout == "" || o.stdout == worker.response
    ensures !host.daemonOnPath || inv.home.None? ==> o.files == host.files
  {
    if !host.daemonOnPath then
      if FallbackCommand(inv.env) in host.spawnable then
        Outcome([FallbackRun(FallbackCommand(inv.env), inv.argv)], "", "",
                Exited(worker.fallbackCode.UnwrapOr(0)), host.files)
      else
        Outcome([], "", "", Panicked("fallback failed"), host.files)
    else if inv.home.None? then
      Outcome([], "", "", Panicked("HOME env var"), host.files)
    else
      SessionRun(SessionOf(inv, host), host.files, StartOf(inv, host), QueryOf(inv, host), worker)
  }

  predicate Started(o: Outcome) {
    exists i :: 0 <= i < |o.events| && o.events[i].WorkerStarted?
  }

  predicate Sent(o: Outcome) {
    exists i :: 0 <= i < |o.events| && o.events[i].RequestSent?
  }

  /** Only the worker start emits a `WorkerStarted` event. */
  lemma ConnectStartsNothing(l: Layout, files: Files, q: Query, worker: Worker)
    ensures forall i :: 0 <= i < |Connect(l, files, q, worker).events| ==>
      !Connect(l, files, q, worker).events[i].WorkerStarted?
  {
    var o := Connect(l, files, q, worker);
    if o.events != [] {
      assert o.events == Exchange(q.FrameWith(files[l.token]), l.status, files, worker).events;
    }
  }

  /** Start events followed by events without a start: something was
      started exactly when the prefix is not empty. */
  lemma StartedByPrefix(pre: seq<Event>, evs: seq<Event>)
    requires forall i :: 0 <= i < |pre| ==> pre[i].WorkerStarted?
    requires forall i :: 0 <= i < |evs| ==> !evs[i].WorkerStarted?
    ensures (exists i :: 0 <= i < |pre + evs| && (pre + evs)[i].WorkerStarted?) <==> pre != []
  {
    if pre != [] {
      assert (pre + evs)[0] == pre[0];
    } else {
      assert pre + evs == evs;
    }
  }

  lemma SessionSpawn(l: Layout, files: Files, start: Option<Event>, q: Query, worker: Worker)
    requires start.Some? ==> start.value.WorkerStarted?
    ensures var o := SessionRun(l, files, start, q, worker);
      && (Started(o) <==> l.token !in files && start.Some?)
      && (Started(o) ==> o.events[0] == start.value)
  {
    if !(l.token !in files && start.None?) {
      var pre := StartEvents(l, files, start);
      var after := FilesAfterStart(l, files, worker);
      var evs := Connect(l, after, q, worker).events;
      assert SessionRun(l, files, start, q, worker).events == pre + evs;
      ConnectStartsNothing(l, after, q, worker);
      StartedByPrefix(pre, evs);
    }
  }

  /** The worker is started exactly when the session has no token and its
      program can be spawned, first thing in the run, with the `start`
      directive and the session's paths in its environment. */
  lemma SpawnIffNoToken(inv: Invocation, host: Host, worker: Worker)
    requires host.daemonOnPath && inv.home.Some?
    ensures Started(Run(inv, host, worker)) <==>
      SessionOf(inv, host).token !in host.files && DaemonCommand(inv.env) in host.spawnable
    ensures Started(Run(inv, host, worker)) ==>
      Run(inv, host, worker).events[0]
        == WorkerStarted(DaemonCommand(inv.env), ["start"],
                         SpawnEnv(CacheDir(inv.home.value), CacheKey.Key(RootText(inv, host))))
  {
    SessionSpawn(SessionOf(inv, host), host.files, StartOf(inv, host), QueryOf(inv, host), worker);
  }

  /** With no token and a worker program that cannot be spawned, the run
      panics before anything is sent; only the lock file is gone. */
  lemma StartFailurePanics(inv: Invocation, host: Host, worker: Worker)
    requires host.daemonOnPath && inv.home.Some?
    requires SessionOf(inv, host).token !in host.files && DaemonCommand(inv.env) !in host.spawnable
    ensures Run(inv, host, worker).ending == Panicked("rubocop failed")
    ensures Run(inv, host, worker).events == []
    ensures Run(inv, host, worker).files == host.files - {SessionOf(inv, host).lock}
  {
  }

  lemma SessionNoToken(l: Layout, files: Files, start: Option<Event>, q: Query, worker: Worker)
    requires FilesDistinct(l)
    requires l.token !in files && start.Some? && worker.startToken.None?
    ensures SessionRun(l, files, start, q, worker).ending.ReturnedErr?
    ensures SessionRun(l, files, start, q, worker).events == [start.value]
  {
    var after := FilesAfterStart(l, files, worker);
    assert l.token !in after by {
      FilesAfterStartShape(l, files, worker);
    }
    assert Connect(l, after, q, worker).events == [];
  }

  /** A start that leaves no token ends the run through `?` at the token
      read: nothing is sent. */
  lemma NoTokenAfterStartEndsRun(inv: Invocation, host: Host, worker: Worker)
    requires host.daemonOnPath && inv.home.Some?
    requires SessionOf(inv, host).token !in host.files && DaemonCommand(inv.env) in host.spawnable
    requires worker.startToken.None?
    ensures Run(inv, host, worker).ending.ReturnedErr?
    ensures Run(inv, host, worker).events == [StartOf(inv, host).value]
  {
    var l := SessionOf(inv, host);
    SessionFilesDistinct(l.cacheDir, CacheKey.Key(RootText(inv, host)));
    SessionNoToken(l, host.files, StartOf(inv, host), QueryOf(inv, host), worker);
  }

  /** Step order: the stale status is cleared right before the request is
      written, the response is relayed to EOF before `status` is read, and
      `status` is removed only right after it was read. */
  ghost predicate WellOrdered(evs: seq<Event>, st: Path) {
    && (forall j :: 0 <= j < |evs| && evs[j].RequestSent? ==> 0 < j && evs[j - 1] == StatusCleared(st))
    && (forall j :: 0 <= j < |evs| && evs[j].StatusRead? ==>
          1 < j && evs[j - 1].ResponseRelayed? && evs[j - 2].RequestSent? && evs[j].path == st)
    && (forall j :: 0 <= j < |evs| && evs[j].StatusRemoved? ==> 0 < j && evs[j - 1] == StatusRead(st) && evs[j].path == st)
  }

  lemma ExchangeWellOrdered(frame: string, st: Path, files: Files, worker: Worker)
    ensures WellOrdered(Exchange(frame, st, files, worker).events, st)
  {
    var evs := Exchange(frame, st, files, worker).events;
    assert evs[0] == StatusCleared(st) && evs[1] == RequestSent(frame);
    assert evs[2] == ResponseRelayed(worker.response) && evs[3] == StatusRead(st);
  }

  lemma StartPrefixKeepsOrder(pre: seq<Event>, evs: seq<Event>, st: Path)
    requires forall i :: 0 <= i < |pre| ==> pre[i].WorkerStarted?
    requires WellOrdered(evs, st)
    ensures WellOrdered(pre + evs, st)
  {
    var all := pre + evs;
    forall j | |pre| <= j < |all|
      ensures all[j] == evs[j - |pre|]
    {
    }
  }

  lemma {:induction false} SessionStepOrder(l: Layout, files: Files, start: Option<Event>, q: Query, worker: Worker)
    requires start.Some? ==> start.value.WorkerStarted?
    ensures WellOrdered(SessionRun(l, files, start, q, worker).events, l.status)
  {
    if !(l.token !in files && start.None?) {
      var after := FilesAfterStart(l, files, worker);
      var o := Connect(l, after, q, worker);
      if o.events != [] {
        ExchangeWellOrdered(q.FrameWith(after[l.token]), l.status, after, worker);
      }
      StartPrefixKeepsOrder(StartEvents(l, files, start), o.events, l.status);
    }
  }

  lemma StepOrder(inv: Invocation, host: Host, worker: Worker)
    requires host.daemonOnPath && inv.home.Some?
    ensures WellOrdered(Run(inv, host, worker).events, SessionOf(inv, host).status)
  {
    SessionStepOrder(SessionOf(inv, host), host.files, StartOf(inv, host), QueryOf(inv, host), worker);
  }

  lemma ExchangeEnding(frame: string, st: Path, files: Files, worker: Worker)
    ensures var o := Exchange(frame, st, files, worker);
      && (worker.status.None? ==> o.ending.ReturnedErr? && o.stderr == "")
      && (worker.status.Some? && IntParse.ParseI32(worker.status.value).Some? ==>
            o.ending == Exited(IntParse.ParseI32(worker.status.value).value) && o.stderr == "" && st !in o.files)
      && (worker.status.Some? && IntParse.ParseI32(worker.status.value).None? ==>
            o.ending == Exited(1) && o.stderr == StatusDiagnostic)
  {
  }

  lemma SessionExit(l: Layout, files: Files, start: Option<Event>, q: Query, worker: Worker)
    requires start.Some? ==> start.value.WorkerStarted?
    ensures var o := SessionRun(l, files, start, q, worker);
      Sent(o) ==>
      && o.stdout == worker.response
      && (worker.status.None? ==> o.ending.ReturnedErr? && o.stderr == "")
      && (worker.status.Some? && IntParse.ParseI32(worker.status.value).Some? ==>
            o.ending == Exited(IntParse.ParseI32(worker.status.value).value) && o.stderr == "" && l.status !in o.files)
      && (worker.status.Some? && IntParse.ParseI32(worker.status.value).None? ==>
            o.ending == Exited(1) && o.stderr == StatusDiagnostic)
  {
    var r := SessionRun(l, files, start, q, worker);
    if Sent(r) {
      var after := FilesAfterStart(l, files, worker);
      var o := Connect(l, after, q, worker);
      assert r == o.(events := StartEvents(l, files, start) + o.events);
      assert o.events != [] by {
        var i :| 0 <= i < |r.events| && r.events[i].RequestSent?;
      }
      ExchangeEnding(q.FrameWith(after[l.token]), l.status, after, worker);
    }
  }

  /** The exit code is decided by what the worker writes during this
      exchange; a `status` file left by an earlier exchange never counts. A
      status the worker does not write takes the error path out of `main`
      (exit 1, no diagnostic); an unparsable one prints the diagnostic. */
  lemma ExitFromThisExchange(inv: Invocation, host: Host, worker: Worker)
    requires host.daemonOnPath && inv.home.Some?
    ensures var o := Run(inv, host, worker);
      Sent(o) ==>
      && o.stdout == worker.response
      && (worker.status.None? ==> o.ending.ReturnedErr? && o.ending.ExitCode() == 1 && o.stderr == "")
      && (worker.status.Some? && IntParse.ParseI32(worker.status.value).Some? ==>
            o.ending == Exited(IntParse.ParseI32(worker.status.value).value)
            && o.stderr == "" && SessionOf(inv, host).status !in o.files)
      && (worker.status.Some? && IntParse.ParseI32(worker.status.value).None? ==>
            o.ending == Exited(1) && o.stderr == StatusDiagnostic)
  {
    SessionExit(SessionOf(inv, host), host.files, StartOf(inv, host), QueryOf(inv, host), worker);
  }

  /** A stale status never reaches the exchange's outcome. */
  lemma ExchangeIgnoresStale(frame: string, st: Path, files: Files, worker: Worker, stale: string)
    ensures Exchange(frame, st, files[st := stale], worker) == Exchange(frame, st, files, worker)
  {
    assert files[st := stale] - {st} == files - {st};
  }

  lemma SessionIgnoresStale(l: Layout, files: Files, start: Option<Event>, q: Query, worker: Worker, stale: string)
    requires FilesDistinct(l)
    ensures SessionRun(l, files[l.status := stale], start, q, worker).ending == SessionRun(l, files, start, q, worker).ending
  {
    var files' := files[l.status := stale];
    if !(l.token !in files && start.None?) {
      var after, after' := FilesAfterStart(l, files, worker), FilesAfterStart(l, files', worker);
      assert after' == after[l.status := stale] by {
        assert files' - {l.lock} == (files - {l.lock})[l.status := stale];
      }
      if l.token in after && l.port in after && IntParse.ParseU16(after[l.port]).Some? {
        assert after'[l.token] == after[l.token] && after'[l.port] == after[l.port];
        ExchangeIgnoresStale(q.FrameWith(after[l.token]), l.status, after, worker, stale);
      }
    }
  }

  /** Whatever a stale `status` file holds, the run ends the same way. */
  lemma StaleStatusIgnored(inv: Invocation, host: Host, worker: Worker, stale: string)
    requires host.daemonOnPath && inv.home.Some?
    ensures var st := SessionOf(inv, host).status;
      Run(inv, host.(files := host.files[st := stale]), worker).ending == Run(inv, host, worker).ending
  {
    var l := SessionOf(inv, host);
    var host' := host.(files := host.files[l.status := stale]);
    assert SessionOf(inv, host') == l && StartOf(inv, host') == StartOf(inv, host) && QueryOf(inv, host') == QueryOf(inv, host);
    SessionFilesDistinct(l.cacheDir, CacheKey.Key(RootText(inv, host)));
    SessionIgnoresStale(l, host.files, StartOf(inv, host), QueryOf(inv, host), worker, stale);
  }

  /** The exchange writes no file but the status file. */
  lemma ExchangeOnlyTouchesStatus(frame: string, st: Path, files: Files, worker: Worker, p: Path)
    requires p != st
    ensures p in Exchange(frame, st, files, worker).files <==> p in files
    ensures p in files ==> Exchange(frame, st, files, worker).files[p] == files[p]
  {
  }

  lemma SessionOnlyTouches(l: Layout, files: Files, start: Option<Event>, q: Query, worker: Worker, p: Path)
    requires FilesDistinct(l)
    requires p != l.token && p != l.port && p != l.status && p != l.lock
    ensures var o := SessionRun(l, files, start, q, worker);
      && l.lock !in o.files
      && (p in o.files <==> p in files)
      && (p in files ==> o.files[p] == files[p])
  {
    if !(l.token !in files && start.None?) {
      var after := FilesAfterStart(l, files, worker);
      FilesAfterStartShape(l, files, worker);
      if l.token in after && l.port in after && IntParse.ParseU16(after[l.port]).Some? {
        ExchangeOnlyTouchesStatus(q.FrameWith(after[l.token]), l.status, after, worker, p);
        ExchangeOnlyTouchesStatus(q.FrameWith(after[l.token]), l.status, after, worker, l.lock);
      }
    }
  }

  /** The launcher's own steps, together with the session files the worker
      writes, remove `running.lock` and touch no other file but the
      session's token, port and status. */
  lemma OnlySessionFilesChange(inv: Invocation, host: Host, worker: Worker, p: Path)
    requires host.daemonOnPath && inv.home.Some?
    requires p != SessionOf(inv, host).token && p != SessionOf(inv, host).port
    requires p != SessionOf(inv, host).status && p != SessionOf(inv, host).lock
    ensures SessionOf(inv, host).lock !in Run(inv, host, worker).files
    ensures p in Run(inv, host, worker).files <==> p in host.files
    ensures p in host.files ==> Run(inv, host, worker).files[p] == host.files[p]
  {
    var l := SessionOf(inv, host);
    SessionFilesDistinct(l.cacheDir, CacheKey.Key(RootText(inv, host)));
    SessionOnlyTouches(l, host.files, StartOf(inv, host), QueryOf(inv, host), worker, p);
  }

  lemma SessionRequest(l: Layout, files: Files, start: Option<Event>, q: Query, worker: Worker)
    requires FilesDistinct(l)
    requires l.token in files || start.Some?
    requires l.token !in files ==> worker.startToken.Some?
    requires var after := FilesAfterStart(l, files, worker);
      l.token in after && l.port in after && IntParse.ParseU16(after[l.port]).Some?
    ensures var o := SessionRun(l, files, start, q, worker);
      && |o.events| > |StartEvents(l, files, start)| + 1
      && o.events[|StartEvents(l, files, start)| + 1]
         == RequestSent(q.FrameWith(if l.token in files then files[l.token] else worker.startToken.value))
  {
    FilesAfterStartShape(l, files, worker);
  }

  /** The token is sent as read, whether it was already there or the start
      just wrote it; the root is the resolved root or the current directory;
      the payload is chosen by `stdin_content`. */
  lemma RequestContents(inv: Invocation, host: Host, worker: Worker)
    requires host.daemonOnPath && inv.home.Some?
    requires SessionOf(inv, host).token in host.files || DaemonCommand(inv.env) in host.spawnable
    requires SessionOf(inv, host).token !in host.files ==> worker.startToken.Some?
    requires var l, after := SessionOf(inv, host), FilesAfterStart(SessionOf(inv, host), host.files, worker);
      l.token in after && l.port in after && IntParse.ParseU16(after[l.port]).Some?
    ensures var l, n := SessionOf(inv, host), |StartEvents(SessionOf(inv, host), host.files, StartOf(inv, host))|;
      && |Run(inv, host, worker).events| > n + 1
      && Run(inv, host, worker).events[n + 1] ==
         RequestSent(Request.Frame(if l.token in host.files then host.files[l.token] else worker.startToken.value,
                                   PathString(ProjectRoot.EffectiveRoot(inv.cwd, host.marked)),
                                   inv.argv,
                                   Request.StdinContent(inv.env, inv.argv, inv.stdin)))
  {
    var l := SessionOf(inv, host);
    SessionFilesDistinct(l.cacheDir, CacheKey.Key(RootText(inv, host)));
    SessionRequest(l, host.files, StartOf(inv, host), QueryOf(inv, host), worker);
  }

  /** Without the worker executable the plain tool runs with every argument,
      the program name included, and its exit code is passed on (0 when it
      was killed by a signal); a tool that cannot be spawned panics with
      "fallback failed". The launcher itself changes no file either way. */
  lemma FallbackWhenNoDaemon(inv: Invocation, host: Host, worker: Worker)
    requires !host.daemonOnPath
    ensures FallbackCommand(inv.env) in host.spawnable ==>
      && Run(inv, host, worker).events == [FallbackRun(FallbackCommand(inv.env), inv.argv)]
      && Run(inv, host, worker).ending.ExitCode() == (if worker.fallbackCode.Some? then worker.fallbackCode.value else 0)
    ensures FallbackCommand(inv.env) !in host.spawnable ==>
      Run(inv, host, worker).events == [] && Run(inv, host, worker).ending == Panicked("fallback failed")
    ensures Run(inv, host, worker).files == host.files
  {
  }
}
