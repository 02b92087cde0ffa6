/** The ownership pattern of `create_pty`: the master descriptor is held by a
    `scoped_fd` while the terminal is configured, closed by the destructor
    when a step fails, and released to the caller when all steps succeed.
    The terminal calls themselves are inputs. */
module Pty {
  import opened Wrappers
  import opened ScopedFd

  /** `openFd` is what `open("/dev/ptmx", O_RDWR)` returned; `setupOk` says
      whether tcgetattr, tcsetattr, ptsname_r, grantpt and unlockpt all
      succeeded. `masterFd` is the descriptor handed to the caller, `closes`
      the descriptors the wrapper closed. */
  method CreatePty(openFd: int, setupOk: bool) returns (masterFd: Option<int>, ghost closes: seq<int>)
    requires openFd >= -1
    ensures openFd == -1 ==> masterFd.None? && closes == []
    ensures openFd >= 0 && !setupOk ==> masterFd.None? && closes == [openFd]
    ensures openFd >= 0 && setupOk ==> masterFd == Some(openFd) && closes == []
  {
    var master := new Cell(openFd);
    if master.Equals(-1) {
      // the thrown error unwinds the scope: the destructor closes nothing
      master.Close();
      return None, master.closedLog;
    }
    if !setupOk {
      // any later failure throws too, and the destructor closes the master
      master.Close();
      return None, master.closedLog;
    }
    var fd := master.Release();
    master.Close();
    masterFd, closes := Some(fd), master.closedLog;
  }
}
