/** The decision and ownership skeleton of `exec0`: whether a child is
    started, which pipe ends each side keeps, which exec call the child makes,
    and which descriptors the launcher leaves open. The system calls
    themselves are not modelled; their outcomes are inputs. */
module Exec {
  import opened Wrappers
  import opened Spawn

  /** One end of pipe 0 (future stdin), 1 (future stdout) or 2 (future stderr). */
  datatype End = ReadEnd(pipe: nat) | WriteEnd(pipe: nat)

  /** The two ends of each of the first `pipes` pipes. */
  function Ends(pipes: nat): (r: set<End>)
    ensures forall e :: e in r <==> e.pipe < pipes
  {
    if pipes == 0 then {}
    else Ends(pipes - 1) + {ReadEnd(pipes - 1), WriteEnd(pipes - 1)}
  }

  function Elems(ends: seq<End>): set<End> {
    set e | e in ends
  }

  /** The image replacement the child performs: `execv` keeps the inherited
      environment, `execve` substitutes the given list. */
  datatype ExecCall =
    | Execv(path: string, argv: seq<string>)
    | Execve(path: string, argv: seq<string>, envp: seq<string>)

  /** What the child continuation does: `chdir(dir)`, close `closes`, and
      with channels put `stdio` (stdin, stdout, stderr) in place before the
      image replacement. */
  datatype Child = Child(dir: string, closes: set<End>, stdio: Option<seq<End>>, image: ExecCall)

  /** Where a failed launch stopped. */
  datatype Stage = Resolve | Pipes | Fork

  type Pid = p: int | p > 0 witness 1

  /** What `fork()` returned to the launcher. */
  datatype ForkResult = ForkFailed(reason: string) | Forked(pid: Pid)

  /** One call of `exec0`: `path` is argv[0] (None when argv is empty),
      `channels` says whether a channel array was passed. */
  datatype Request = Request(path: Option<string>, argv: seq<string>, envp: seq<string>, dir: string,
                             channels: bool)

  /** Everything `exec0` learns from outside: the launcher's own PATH, the
      executable snapshot, how many `pipe()` calls succeed before the first
      failure, the fork outcome, and the stale content of the uninitialised
      pfind error buffer. */
  datatype Os = Os(inherited: Option<string>, fs: FsSnapshot, pipesOk: nat, fork: ForkResult, stale: string)

  /** The launcher's view of one `exec0` call. `created` are the pipe ends it
      created, `closed` those it closed again; on success `channels` are
      the ends handed to the caller (stdin, stdout, stderr). */
  datatype Outcome =
    | Launched(pid: Pid, channels: Option<seq<End>>, created: set<End>, closed: set<End>, child: Child)
    | Failed(stage: Stage, message: string, created: set<End>, closed: set<End>)
  {
    /** The value `exec0` returns. */
    function Status(): int {
      if Launched? then pid else -1
    }

    /** Ends the launcher created and neither closed nor handed out. */
    function Leaked(): set<End> {
      if Launched? && channels.Some? then created - closed - Elems(channels.value)
      else created - closed
    }
  }

  const ParentKeeps: seq<End> := [WriteEnd(0), ReadEnd(1), ReadEnd(2)]
  const ChildKeeps: seq<End> := [ReadEnd(0), WriteEnd(1), WriteEnd(2)]

  const PipeErrorText: string := "exec0(111): returning due to error.\n"

  function ForkErrorText(reason: string): string {
    "exec0(121): returning due to error: " + reason + "\n"
  }

  /** The prefix of the message reported when the name does not resolve. */
  function ResolvePrefix(path: Option<string>): string {
    "Unable to find full path for \"" + path.GetOr("") + "\"\n"
  }

  function ResolveErrorText(path: Option<string>, e: FindError, stale: string): string {
    ResolvePrefix(path) + ErrorText(e).GetOr(stale) + "\n"
  }

  /** `exec0` as written: a failure after pipes were created returns without
      closing them. */
  function Exec0AsWritten(req: Request, os: Os): (r: Outcome)
    ensures r.Failed? ==> r.closed == {}
  {
    match Pfind(req.path, Some(req.envp), os.inherited, os.fs)
    case Failure(e) => Failed(Resolve, ResolveErrorText(req.path, e, os.stale), {}, {})
    case Success(full) =>
      if req.channels && os.pipesOk < 3 then
        Failed(Pipes, PipeErrorText, Ends(os.pipesOk), {})
      else
        var created := if req.channels then Ends(3) else {};
        match os.fork
        case ForkFailed(reason) => Failed(Fork, ForkErrorText(reason), created, {})
        case Forked(pid) =>
          var image := if req.envp == [] then Execv(full, req.argv) else Execve(full, req.argv, req.envp);
          if req.channels then
            Launched(pid, Some(ParentKeeps), created, Elems(ChildKeeps),
                     Child(req.dir, Elems(ParentKeeps), Some(ChildKeeps), image))
          else
            Launched(pid, None, created, {}, Child(req.dir, {}, None, image))
  }

  /** A `pipe(pipe1)` or `pipe(pipe2)` failure leaves the earlier pipes open. */
  lemma PipeFailureLeaks(req: Request, os: Os)
    requires Pfind(req.path, Some(req.envp), os.inherited, os.fs).Success?
    requires req.channels && os.pipesOk < 3
    ensures Exec0AsWritten(req, os).Leaked() == Ends(os.pipesOk)
    ensures os.pipesOk > 0 ==> ReadEnd(0) in Exec0AsWritten(req, os).Leaked()
  {
  }

  /** A `fork()` failure leaves all six pipe ends open. */
  lemma ForkFailureLeaks(req: Request, os: Os)
    requires Pfind(req.path, Some(req.envp), os.inherited, os.fs).Success?
    requires req.channels && os.pipesOk >= 3 && os.fork.ForkFailed?
    ensures Exec0AsWritten(req, os).Leaked() == Ends(3)
    ensures |Exec0AsWritten(req, os).Leaked()| == 6
  {
  }

  /** `exec0` corrected: the same decisions as the written code, plus the
      cleanup its failure paths are meant to do, so every pipe end created
      before a failure is closed again. */
  function Exec0Corrected(req: Request, os: Os): (r: Outcome)
    // exec0's return value: the child's pid, or -1
    ensures r.Status() == -1 <==> r.Failed?
    ensures r.Launched? ==> r.Status() > 0
    // a child is started exactly when the name resolves, the pipes (if asked
    // for) are all created and fork succeeds; the status is fork's pid
    ensures r.Launched? <==>
      Pfind(req.path, Some(req.envp), os.inherited, os.fs).Success? &&
      (!req.channels || os.pipesOk >= 3) && os.fork.Forked?
    ensures r.Launched? ==>
      os.fork.Forked? && r.pid == os.fork.pid && (r.channels.Some? <==> req.channels)
    // a name that does not resolve stops everything before any pipe or fork
    ensures Pfind(req.path, Some(req.envp), os.inherited, os.fs).Failure? <==>
      r.Failed? && r.stage == Resolve
    ensures r.Failed? && r.stage == Resolve ==>
      && Pfind(req.path, Some(req.envp), os.inherited, os.fs).Failure?
      && r.created == {}
      && r.message == ResolvePrefix(req.path) +
           ErrorText(Pfind(req.path, Some(req.envp), os.inherited, os.fs).error).GetOr(os.stale) + "\n"
    // a pipe failure happens only with a channel array, after the earlier pipes exist
    ensures r.Failed? && r.stage == Pipes <==>
      Pfind(req.path, Some(req.envp), os.inherited, os.fs).Success? && req.channels && os.pipesOk < 3
    ensures r.Failed? && r.stage == Pipes ==> r.created == Ends(os.pipesOk) && r.message == PipeErrorText
    // a fork failure reports the OS reason, with all pipes (if any) created
    ensures r.Failed? && r.stage == Fork ==>
      && os.fork.ForkFailed?
      && r.message == ForkErrorText(os.fork.reason)
      && r.created == (if req.channels then Ends(3) else {})
    // the child runs the resolved path, and inherits the environment iff the list is empty
    ensures r.Launched? ==>
      Pfind(req.path, Some(req.envp), os.inherited, os.fs) == Success(r.child.image.path) &&
      r.child.image.argv == req.argv && r.child.dir == req.dir &&
      (r.child.image.Execv? <==> req.envp == []) &&
      (r.child.image.Execve? ==> r.child.image.envp == req.envp)
    // without a channel array no pipe is touched
    ensures !req.channels ==> r.created == {} && (r.Launched? ==> r.channels.None? && r.child.stdio.None?)
    // nothing the launcher creates is left behind
    ensures r.Leaked() == {}
  {
    var o := Exec0AsWritten(req, os);
    if o.Failed? then Failed(o.stage, o.message, o.created, o.created) else o
  }

  /** The six pipe ends are split between the sides: pipe k joins the
      caller's channel k to the child's standard stream k, the caller writes
      the child's stdin and reads its stdout and stderr, no end is kept by
      both, and each side closes exactly the ends the other keeps. */
  lemma PipeEndsSplit(req: Request, os: Os)
    requires Exec0Corrected(req, os).Launched? && req.channels
    ensures var r := Exec0Corrected(req, os);
      && r.channels.Some? && r.child.stdio.Some?
      && var parent := r.channels.value;
      && var child := r.child.stdio.value;
      && |parent| == 3 && |child| == 3
      && (forall k :: 0 <= k < 3 ==> parent[k].pipe == k && child[k].pipe == k && parent[k] != child[k])
      && parent[0].WriteEnd? && parent[1].ReadEnd? && parent[2].ReadEnd?
      && Elems(parent) !! Elems(child)
      && Elems(parent) + Elems(child) == r.created == Ends(3)
      && r.closed == Elems(child)
      && r.child.closes == Elems(parent)
  {
  }

  /** The corrected launcher differs from the written one only in what a
      failure closes: launch decision, status, failure stage, message and
      success wiring are the same. */
  lemma Exec0AgreesOnSuccess(req: Request, os: Os)
    ensures Exec0Corrected(req, os).Status() == Exec0AsWritten(req, os).Status()
    ensures Exec0AsWritten(req, os).Launched? <==> Exec0Corrected(req, os).Launched?
    ensures Exec0AsWritten(req, os).Launched? ==> Exec0Corrected(req, os) == Exec0AsWritten(req, os)
    ensures Exec0AsWritten(req, os).Failed? ==>
      && Exec0Corrected(req, os).stage == Exec0AsWritten(req, os).stage
      && Exec0Corrected(req, os).message == Exec0AsWritten(req, os).message
      && Exec0Corrected(req, os).created == Exec0AsWritten(req, os).created
  {
  }
}
