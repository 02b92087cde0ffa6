/** Executable lookup of the native spawn helper: `path_val` picks the search
    path, `pfind` turns a program name into the path that will be executed.

    C strings are modelled by their contents, a NULL pointer by `None`, and
    `access(path, X_OK) == 0` by membership in a fixed snapshot of the
    executable paths. */
module Spawn {
  import opened Wrappers
  import opened Strtok

  /** The prefix that marks the search-path entry of an environment list. */
  const PathDef: string := "PATH="
  const PathDefLen: nat := 5

  /** The paths `access(…, X_OK)` accepts while one lookup runs. */
  datatype FsSnapshot = FsSnapshot(executable: set<string>)

  predicate Executable(fs: FsSnapshot, path: string) {
    path in fs.executable
  }

  /** `strncmp("PATH=", entry, 5) == 0`: the entry starts with `PATH=`. */
  predicate IsPathEntry(entry: string) {
    |entry| >= PathDefLen && entry[..PathDefLen] == PathDef
  }

  /** Entry `i` is the first `PATH=` entry of the list. */
  predicate FirstPathEntryAt(envp: seq<string>, i: int) {
    && 0 <= i < |envp|
    && IsPathEntry(envp[i])
    && forall j :: 0 <= j < i ==> !IsPathEntry(envp[j])
  }

  /** The loop of `path_val` over a non-empty environment list. */
  function FirstPathEntry(envp: seq<string>): (r: Option<string>)
    ensures r.Some? <==> exists i :: 0 <= i < |envp| && IsPathEntry(envp[i])
    ensures r.Some? ==> exists i :: FirstPathEntryAt(envp, i) && r.value == envp[i][PathDefLen..]
  {
    if |envp| == 0 then None
    else if IsPathEntry(envp[0]) then Some(envp[0][PathDefLen..])
    else
      var r := FirstPathEntry(envp[1..]);
      assert forall i :: 1 <= i < |envp| ==> envp[i] == envp[1..][i - 1];
      if r.Some? then
        assert exists i :: FirstPathEntryAt(envp[1..], i) && r.value == envp[1..][i][PathDefLen..];
        var i :| FirstPathEntryAt(envp[1..], i) && r.value == envp[1..][i][PathDefLen..];
        assert FirstPathEntryAt(envp, i + 1);
        r
      else r
  }

  /** The search path `path_val` returns. `envp` is the environment list
      (None for a NULL list), `inherited` the launcher's own `getenv("PATH")`. */
  function PathVal(envp: Option<seq<string>>, inherited: Option<string>): (r: Option<string>)
    ensures envp.None? || envp.value == [] ==> r == inherited
    ensures envp.Some? && envp.value != [] ==>
      (r.Some? <==> exists i :: 0 <= i < |envp.value| && IsPathEntry(envp.value[i]))
    ensures envp.Some? && envp.value != [] && r.Some? ==>
      exists i :: FirstPathEntryAt(envp.value, i) && r.value == envp.value[i][PathDefLen..]
  {
    if envp.None? || envp.value == [] then inherited
    else FirstPathEntry(envp.value)
  }

  /** Once a list holds a `PATH=` entry, appending entries changes nothing. */
  lemma {:induction false} PathValIgnoresLaterEntries(envp: seq<string>, later: seq<string>, inherited: Option<string>)
    requires exists i :: 0 <= i < |envp| && IsPathEntry(envp[i])
    ensures PathVal(Some(envp + later), inherited) == PathVal(Some(envp), inherited)
  {
    FirstPathEntryAppend(envp, later);
  }

  lemma {:induction false} FirstPathEntryAppend(envp: seq<string>, later: seq<string>)
    requires exists i :: 0 <= i < |envp| && IsPathEntry(envp[i])
    ensures FirstPathEntry(envp + later) == FirstPathEntry(envp)
    decreases |envp|
  {
    var all := envp + later;
    assert all[0] == envp[0];
    if !IsPathEntry(envp[0]) {
      var i :| 0 <= i < |envp| && IsPathEntry(envp[i]);
      assert i > 0 && envp[1..][i - 1] == envp[i];
      assert all[1..] == envp[1..] + later;
      FirstPathEntryAppend(envp[1..], later);
    }
  }

  /** Why `pfind` returned NULL. */
  datatype FindError =
    | NullArgument   // the name pointer was NULL
    | NotExecutable  // a name starting with '/' or '.' that access() rejects
    | NoSearchPath   // no search path, or an empty one
    | NotFound       // no directory of the search path holds an executable candidate

  /** What `pfind` writes into its error buffer; None where it leaves the
      buffer as it was. */
  function ErrorText(e: FindError): (r: Option<string>)
    ensures r.Some? <==> e == NullArgument || e == NoSearchPath
  {
    match e
    case NullArgument => Some("pfind(): Null argument.\n")
    case NoSearchPath => Some("Unable to get $PATH.\n")
    case NotExecutable => None
    case NotFound => None
  }

  /** A name starting with '/' or '.' is taken as a path and never searched.
      The empty name has the terminating NUL as its first character, which is
      neither. */
  predicate IsDirect(name: string) {
    |name| > 0 && (name[0] == '/' || name[0] == '.')
  }

  /** The candidate `snprintf` builds from one search-path directory. */
  function Candidate(dir: string, name: string): string {
    dir + "/" + name
  }

  /** Directory `k` is the first whose candidate is executable. */
  predicate FirstHit(dirs: seq<string>, name: string, fs: FsSnapshot, k: int) {
    && 0 <= k < |dirs|
    && Executable(fs, Candidate(dirs[k], name))
    && forall j :: 0 <= j < k ==> !Executable(fs, Candidate(dirs[j], name))
  }

  /** The first executable candidate over `dirs`, tried in order. */
  function Search(dirs: seq<string>, name: string, fs: FsSnapshot): (r: Option<string>)
    ensures r.Some? <==> exists k :: 0 <= k < |dirs| && Executable(fs, Candidate(dirs[k], name))
    ensures r.Some? ==> exists k :: FirstHit(dirs, name, fs, k) && r.value == Candidate(dirs[k], name)
  {
    if |dirs| == 0 then None
    else if Executable(fs, Candidate(dirs[0], name)) then Some(Candidate(dirs[0], name))
    else
      var r := Search(dirs[1..], name, fs);
      assert forall k :: 1 <= k < |dirs| ==> dirs[k] == dirs[1..][k - 1];
      if r.Some? then
        var k :| FirstHit(dirs[1..], name, fs, k) && r.value == Candidate(dirs[1..][k], name);
        assert FirstHit(dirs, name, fs, k + 1);
        r
      else r
  }

  /** `pfind(name, envp, errbuff)`: the path that will be executed, or the
      reason there is none. */
  function Pfind(name: Option<string>, envp: Option<seq<string>>, inherited: Option<string>, fs: FsSnapshot)
    : (r: Result<string, FindError>)
    ensures name.None? <==> r == Failure(NullArgument)
    ensures name.Some? && IsDirect(name.value) ==>
      (r.Success? <==> Executable(fs, name.value)) &&
      (r.Success? ==> r.value == name.value) &&
      (r.Failure? ==> r.error == NotExecutable)
    ensures r == Failure(NoSearchPath) <==>
      name.Some? && !IsDirect(name.value) && PathVal(envp, inherited) in {None, Some("")}
    ensures r.Success? ==> Executable(fs, r.value)
  {
    if name.None? then Failure(NullArgument)
    else if IsDirect(name.value) then
      if Executable(fs, name.value) then Success(name.value) else Failure(NotExecutable)
    else
      var path := PathVal(envp, inherited);
      if path.None? || |path.value| == 0 then Failure(NoSearchPath)
      else
        match Search(Tokens(path.value), name.value, fs)
        case Some(full) => Success(full)
        case None => Failure(NotFound)
  }

  /** A direct name resolves the same way whatever the search path is. */
  lemma PfindDirectIgnoresPath(name: string, envp1: Option<seq<string>>, inherited1: Option<string>,
                               envp2: Option<seq<string>>, inherited2: Option<string>, fs: FsSnapshot)
    requires IsDirect(name)
    ensures Pfind(Some(name), envp1, inherited1, fs) == Pfind(Some(name), envp2, inherited2, fs)
  {
  }

  /** For a bare name the earliest directory holding an executable candidate
      wins, and a miss everywhere is NotFound, never NoSearchPath. */
  lemma PfindSearchOrder(name: string, envp: Option<seq<string>>, inherited: Option<string>, fs: FsSnapshot,
                         path: string)
    requires !IsDirect(name)
    requires PathVal(envp, inherited) == Some(path) && |path| > 0
    ensures forall k :: FirstHit(Tokens(path), name, fs, k) ==>
      Pfind(Some(name), envp, inherited, fs) == Success(Candidate(Tokens(path)[k], name))
    ensures (forall k :: 0 <= k < |Tokens(path)| ==> !Executable(fs, Candidate(Tokens(path)[k], name))) <==>
      Pfind(Some(name), envp, inherited, fs) == Failure(NotFound)
  {
  }

  /** Whatever `pfind` returns is the name itself (direct names) or
      `<dir>/<name>` for one non-empty, ':'-free field of the search path. */
  lemma PfindResultShape(name: string, envp: Option<seq<string>>, inherited: Option<string>, fs: FsSnapshot)
    requires Pfind(Some(name), envp, inherited, fs).Success?
    ensures IsDirect(name) ==> Pfind(Some(name), envp, inherited, fs).value == name
    ensures !IsDirect(name) ==>
      && PathVal(envp, inherited).Some?
      && exists dir :: dir in Fields(PathVal(envp, inherited).value) && |dir| > 0 &&
           Pfind(Some(name), envp, inherited, fs).value == Candidate(dir, name)
  {
    if !IsDirect(name) {
      var path := PathVal(envp, inherited).value;
      var dirs := Tokens(path);
      var full := Pfind(Some(name), envp, inherited, fs).value;
      var k :| FirstHit(dirs, name, fs, k) && full == Candidate(dirs[k], name);
      TokensAreNonEmptyFields(path);
      NonEmptyMember(Fields(path), dirs[k]);
    }
  }

  lemma {:induction false} NonEmptyMember(fields: seq<string>, x: string)
    requires x in NonEmpty(fields)
    ensures x in fields && |x| > 0
  {
    if |fields[0]| == 0 {
      NonEmptyMember(fields[1..], x);
    } else if x != fields[0] {
      NonEmptyMember(fields[1..], x);
    }
  }

  /** The strtok_r loop of `pfind`: scan `path` for tokens in place and try
      each candidate as soon as its token is cut out. */
  method SearchPath(path: string, name: string, fs: FsSnapshot) returns (r: Option<string>)
    ensures r == Search(Tokens(path), name, fs)
  {
    var i := 0;
    while i < |path|
      invariant 0 <= i <= |path|
      invariant Search(Tokens(path), name, fs) == Search(Tokens(path[i..]), name, fs)
      decreases |path| - i
    {
      if path[i] == Sep {
        SkipSeparator(path, i);
        i := i + 1;
      } else {
        var j := i;
        while j < |path| && path[j] != Sep
          invariant i <= j <= |path|
          invariant forall k :: i <= k < j ==> path[k] != Sep
          decreases |path| - j
        {
          j := j + 1;
        }
        var dir := path[i..j];
        TokenAt(path, i, j);
        if Executable(fs, Candidate(dir, name)) {
          return Some(Candidate(dir, name));
        }
        assert ([dir] + Tokens(path[j..]))[1..] == Tokens(path[j..]);
        i := j;
      }
    }
    assert path[i..] == [];
    r := None;
  }

  /** A separator at the scan position is skipped, as strtok_r does. */
  lemma SkipSeparator(path: string, i: int)
    requires 0 <= i < |path| && path[i] == Sep
    ensures Tokens(path[i..]) == Tokens(path[i + 1..])
  {
  }

  /** A maximal run starting at the scan position is the next token. */
  lemma TokenAt(path: string, i: int, j: int)
    requires 0 <= i < j <= |path|
    requires forall k :: i <= k < j ==> path[k] != Sep
    requires j == |path| || path[j] == Sep
    ensures Tokens(path[i..]) == [path[i..j]] + Tokens(path[j..])
  {
    var rest := path[i..];
    SegmentLenUnique(rest, j - i);
    assert rest[..j - i] == path[i..j];
    assert rest[j - i..] == path[j..];
  }
}
