# Executable lookup, launch outcome and descriptor ownership of the cdt-gdb-adapter native addons

This project models the two pieces of real logic in the native helpers of
cdt-gdb-adapter, and proves properties of that model in Dafny:

- **Executable lookup** (`src/native/spawn.cc`). `path_val` picks the search
  path from an environment list, or falls back to the launcher's own `PATH`.
  `pfind` turns a program name into the path that gets executed. A name that
  starts with `/` or `.` is checked directly. Any other name is tried as
  `<dir>/<name>` for each `:`-separated directory, in order, and empty fields
  are skipped the way `strtok_r` skips them.
- **The outcome of `exec0`** (`src/native/spawn.cc`). This covers whether a
  child is started, which pipe ends the caller and the child keep, which exec
  call the child makes (`execv` for an empty environment list, `execve`
  otherwise), and which descriptors the launcher leaves open.
- **`scoped_fd`** (`src/native/scoped_fd.h`). A wrapper that owns one
  descriptor, closes it at scope exit, and can hand it out with `release`.
  The model also covers how `create_pty` (`src/native/pty.cc`) relies on it.

Modelling choices:

- A C string is modelled by its contents and a NULL pointer by `None`.
- `access(path, X_OK) == 0` becomes membership in a fixed snapshot of
  executable paths (`Spawn.FsSnapshot`).
- Every outcome that depends on the operating system is an input:
  - the launcher's own `PATH`;
  - how many `pipe()` calls succeed;
  - the `fork()` result;
  - the `strerror` text;
  - the leftover content of the uninitialised pfind error buffer.

Modules: `Wrappers` (Option/Result), `Strtok` (splitting the search path),
`Spawn` (`path_val`, `pfind`), `Exec` (`exec0`), `ScopedFd`, `Pty`.

Three facts about the code shape the model:

- `pfind` returns a direct name such as `./prog` unchanged. For a relative
  search-path entry it returns `<dir>/<name>`, which is also relative.
- `pfind` writes no text for a direct name that is not executable
  (spawn.cc:58), or when no directory holds the name (spawn.cc:84-85). In
  those cases `exec0` reports whatever its error buffer already held.
- `exec0` does not close the pipes it created when a later step fails (see
  Findings).

## Model

| member | source | states |
|---|---|---|
| Strtok.SegmentLen | src/native/spawn.cc:72-81 | the run strtok_r cuts out ends at the first ':' or at the end of the string, and contains no ':' |
| Strtok.Tokens | src/native/spawn.cc:72-82 | every directory the loop visits is non-empty and free of ':' |
| Strtok.TokensAreNonEmptyFields | src/native/spawn.cc:72-82 | the directories visited are exactly the non-empty ':'-separated fields of the search path, in order (empty segments are skipped) |
| Strtok.JoinFields | src/native/spawn.cc:72-82 | the field split loses nothing: joining the fields with ':' gives back the search path |
| Strtok.FieldsJoin | src/native/spawn.cc:72-82 | splitting the ':'-join of separator-free fields gives back those fields |
| Spawn.FirstPathEntry | src/native/spawn.cc:30-37 | a result exists iff some entry starts with `PATH=`; it is the text after `PATH=` of the first such entry |
| Spawn.PathVal | src/native/spawn.cc:24-38 | a NULL or empty list yields the inherited PATH; a non-empty list yields the value of its first `PATH=` entry, and NULL when there is none (no fallback) |
| Spawn.PathValIgnoresLaterEntries | src/native/spawn.cc:30-35 | once a list holds a `PATH=` entry, appending entries does not change the search path |
| Spawn.ErrorText | src/native/spawn.cc:47-67 | pfind writes an error text only for a NULL name and for a missing or empty search path |
| Spawn.Search | src/native/spawn.cc:72-85 | a candidate is found iff some directory's `<dir>/<name>` is executable; the one returned belongs to the earliest such directory |
| Spawn.Pfind | src/native/spawn.cc:40-86 | NULL name gives NullArgument; a name starting with '/' or '.' succeeds iff it is executable and then yields itself; NoSearchPath exactly for a bare name with NULL or empty search path; every result is executable |
| Spawn.PfindDirectIgnoresPath | src/native/spawn.cc:53-59 | for a name starting with '/' or '.' the environment list and inherited PATH never influence the result |
| Spawn.PfindSearchOrder | src/native/spawn.cc:72-85 | the first directory with an executable candidate wins; NotFound exactly when no directory has one |
| Spawn.PfindResultShape | src/native/spawn.cc:54-85 | a result is the name itself (direct names) or `<dir>/<name>` for a non-empty field `dir` of the search path |
| Spawn.SearchPath | src/native/spawn.cc:70-85 | the in-place strtok_r scan returns exactly the first executable candidate over the tokens |
| Exec.Exec0AsWritten | src/native/spawn.cc:88-197 | as written, no failure path closes anything |
| Exec.PipeFailureLeaks | src/native/spawn.cc:108-115 | as written, when pipe(pipe1) or pipe(pipe2) fails the ends of the pipes already created are left open |
| Exec.ForkFailureLeaks | src/native/spawn.cc:117-123 | as written, when fork fails all six pipe ends are left open |
| Exec.Exec0Corrected | src/native/spawn.cc:88-197 | corrected exec0: it returns -1 exactly on failure. Otherwise it returns the child's pid, which is fork's pid. A child is started exactly when the name resolves, all three pipes are created (when a channel array is passed) and fork succeeds. A lookup failure stops before any pipe or fork, with the message `Unable to find full path for "<name>"` followed by pfind's text or the leftover buffer. A pipe failure needs a channel array and reports `exec0(111)`. A fork failure reports `exec0(121)` with the OS reason. The child runs the resolved path with the given argv and dir, using execv exactly when the environment list is empty. Unlike the source, no failure path leaves a pipe end open |
| Exec.PipeEndsSplit | src/native/spawn.cc:129-189 | on success pipe k joins caller channel k to child stream k: the caller writes the child's stdin and reads its stdout and stderr; no end is kept by both; each side closes exactly the ends the other keeps |
| Exec.Exec0AgreesOnSuccess | src/native/spawn.cc:99-193 | the corrected launcher makes the same launch decision as the written one. It also has the same status, failure stage, message, created ends and success wiring |
| ScopedFd.Make | src/native/scoped_fd.h:17 | after construction from fd, get() returns fd; the wrapper owns a descriptor iff fd >= 0 |
| ScopedFd.Get | src/native/scoped_fd.h:39 | get() returns the held value, which is non-negative exactly while the wrapper owns a descriptor |
| ScopedFd.Equals | src/native/scoped_fd.h:22 | `== other` holds exactly when the held value equals other |
| ScopedFd.Close | src/native/scoped_fd.h:26-31 | a held descriptor >= 0 is closed once and replaced by -1; a negative value closes nothing and stays |
| ScopedFd.CloseIdempotent | src/native/scoped_fd.h:26-31 | a second close() performs no close and changes nothing |
| ScopedFd.Release | src/native/scoped_fd.h:33-37 | release() returns the held value and leaves -1, without a close |
| ScopedFd.Lifetime | src/native/scoped_fd.h:17-37 | the destructor's close() ends every lifetime with nothing owned. It releases nothing, and adds a close exactly when a descriptor is still held at scope exit |
| ScopedFd.RunWithoutOwnership | src/native/scoped_fd.h:26-37 | a wrapper that owns nothing never closes anything and only releases negative values |
| ScopedFd.RunWithOwnership | src/native/scoped_fd.h:26-37 | an owning wrapper disposes of its descriptor through the first close() or release(): close() closes it once, release() hands it out unclosed |
| ScopedFd.LifetimeClosesAtMostOnce | src/native/scoped_fd.h:17-37 | over construction, any calls and the destructor, the descriptor is closed at most once, only by its wrapper, exactly when the first disposing call was not release(), and never after being released |
| ScopedFd.PoolClosesAtMostOnce | src/native/scoped_fd.h:19-20 | across wrappers that never share a descriptor, each descriptor is closed at most once, only owned descriptors are closed, and no released descriptor is closed |
| ScopedFd.Cell.Get | src/native/scoped_fd.h:39 | the object's get() is non-negative exactly while it owns a descriptor |
| ScopedFd.Cell.Equals | src/native/scoped_fd.h:22 | the object's `== other` holds exactly when get() equals other |
| ScopedFd.Cell.constructor | src/native/scoped_fd.h:17 | a new object holds fd, has closed nothing, and is valid (at most one close, none while holding) |
| ScopedFd.Cell.Close | src/native/scoped_fd.h:26-31 | close() on a valid object closes a held descriptor once and then holds -1. A negative value closes nothing. Validity is kept, so the object never logs a second close |
| ScopedFd.Cell.Release | src/native/scoped_fd.h:33-37 | release() returns the held value and leaves -1. The close log is unchanged and validity is kept |
| Pty.CreatePty | src/native/pty.cc:56-96 | a failed open closes nothing; a failed setup step closes the master exactly once; on success the master is handed out and not closed |

## Findings

| source | as written | input that shows it | evidently intended | confidence | as-written member | corrected member |
|---|---|---|---|---|---|---|
| src/native/spawn.cc:109-114 | a failing pipe(pipe1) or pipe(pipe2) returns -1 without closing the pipes already created | pipe(pipe0) succeeds and pipe(pipe1) fails: both ends of pipe 0 stay open | close every pipe end created before returning -1 | not executed | Exec.PipeFailureLeaks | Exec.Exec0Corrected |
| src/native/spawn.cc:119-123 | a failing fork returns -1 without closing the six pipe ends | all three pipe() calls succeed and fork() fails: six descriptors stay open | close all six pipe ends before returning -1 | not executed | Exec.ForkFailureLeaks | Exec.Exec0Corrected |

## Left out

- The system calls of `exec0` are not modelled. These are `fork`, `chdir`,
  `dup2`, the loop that closes descriptors up to the limit, `setpgid`,
  `setsid`, `execv`/`execve` and `_exit(127)`. The child continuation is only
  described as a plan (`Exec.Child`): its directory, the ends it closes, the
  ends it puts in place as stdin/stdout/stderr, and the exec call.
- Return values of the child's and the parent's `close` calls, and the
  `perror` diagnostics, are not modelled. They change no outcome.
- `snprintf` truncation at `PATH_MAX` is not modelled. A candidate is always
  the full `<dir>/<name>`, as if every candidate fits.
- `strerror` text and the leftover content of the uninitialised pfind error
  buffer are not modelled. Both are opaque inputs (`ForkResult.reason` and
  `Os.stale`).
- A NULL environment list passed to `exec0` is not modelled. `exec0` reads
  `envp[0]` before exec, and the binding always passes a list, so the model
  takes a list.
- Working directories are not modelled. `access` resolves a relative name
  against the launcher's directory. The child runs `chdir` before exec, so
  the exec resolves the same name against the requested directory. The
  snapshot has no notion of a current directory.
- Strings are NUL-free C string contents. A name or entry holding a NUL
  character is not modelled.
- Node-API glue is not modelled: `c_str_array`, `free_c_str_array`,
  `_throw_exc`, `_throw_exc_format`, `exec_0` and module registration. This
  is marshalling into the host runtime, and memory layout is not modelled.
- The terminal calls of `create_pty` are not modelled: `/dev/ptmx`, termios,
  `ptsname_r`, `grantpt` and `unlockpt`. Only their success or failure enters,
  as the input `setupOk`.
- `src/native/signal.cc` is not modelled. It is a thin `killpg`/`kill`
  syscall wrapper.
- The debugger test programs under `src/integration-tests/test-programs/`
  are not modelled. They are fixed targets with no logic to verify, and
  `ThreadWindows.h` is about Win32 concurrency.
