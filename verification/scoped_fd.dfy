/** `scoped_fd`: a wrapper that owns one file descriptor, closes it on scope
    exit, and can hand ownership out with `release`.

    The functional part records every `::close` call the wrapper makes, so
    that "closed at most once" and "a released descriptor is never closed"
    become statements about those logs. `Cell` is the same state machine as
    a mutable object with a ghost close log. */
module ScopedFd {
  import opened Wrappers

  /** The wrapper's only state, `m_fd`; a negative value owns nothing. */
  datatype Wrapper = Wrapper(fd: int)

  predicate Owns(w: Wrapper) {
    w.fd >= 0
  }

  /** `scoped_fd(fd)`. */
  function Make(fd: int): (w: Wrapper)
    ensures Get(w) == fd
    ensures Owns(w) <==> fd >= 0
  {
    Wrapper(fd)
  }

  /** `get()`: the held value, which is non-negative exactly while the
      wrapper owns a descriptor. */
  function Get(w: Wrapper): (r: int)
    ensures r >= 0 <==> Owns(w)
  {
    w.fd
  }

  /** `operator==(other)`: compares the held value, never the ownership. */
  predicate Equals(w: Wrapper, other: int)
    ensures Equals(w, other) <==> Get(w) == other
  {
    w.fd == other
  }

  /** The wrapper after `close()`, and the descriptors passed to `::close`. */
  datatype Closing = Closing(after: Wrapper, closes: seq<int>)

  /** `close()`, also what the destructor runs. */
  function Close(w: Wrapper): (r: Closing)
    ensures Owns(w) ==> r.closes == [Get(w)] && Get(r.after) == -1
    ensures !Owns(w) ==> r.closes == [] && r.after == w
    ensures !Owns(r.after)
  {
    if w.fd >= 0 then Closing(Wrapper(-1), [w.fd]) else Closing(w, [])
  }

  /** A second `close()` closes nothing and changes nothing. */
  lemma CloseIdempotent(w: Wrapper)
    ensures Close(Close(w).after).closes == []
    ensures Close(Close(w).after).after == Close(w).after
  {
  }

  /** The wrapper after `release()`, and the value `release()` returns. */
  datatype Releasing = Releasing(after: Wrapper, fd: int)

  /** `release()`: hand the held value out, keep -1, close nothing. */
  function Release(w: Wrapper): (r: Releasing)
    ensures r.fd == Get(w)
    ensures Get(r.after) == -1 && !Owns(r.after)
  {
    Releasing(Wrapper(-1), w.fd)
  }

  /** The member calls a wrapper can receive during its lifetime. */
  datatype Op = CloseOp | ReleaseOp | GetOp

  /** The observable effects of a run: the final wrapper, every `::close`
      in order, every value `release()` returned in order. */
  datatype Trace = Trace(final: Wrapper, closes: seq<int>, released: seq<int>)

  function Run(w: Wrapper, ops: seq<Op>): Trace
    decreases |ops|
  {
    if |ops| == 0 then Trace(w, [], [])
    else
      match ops[0]
      case GetOp => Run(w, ops[1..])
      case CloseOp =>
        var c := Close(w);
        var t := Run(c.after, ops[1..]);
        Trace(t.final, c.closes + t.closes, t.released)
      case ReleaseOp =>
        var rel := Release(w);
        var t := Run(rel.after, ops[1..]);
        Trace(t.final, t.closes, [rel.fd] + t.released)
  }

  /** Construction from `fd`, the calls `ops`, then the destructor: the
      destructor leaves nothing owned, releases nothing, and adds at most one
      close, namely of a descriptor still held at scope exit. */
  function Lifetime(fd: int, ops: seq<Op>): (t: Trace)
    ensures !Owns(t.final)
    ensures t.released == Run(Make(fd), ops).released
    ensures |t.closes| <= |Run(Make(fd), ops).closes| + 1
    ensures |t.closes| == |Run(Make(fd), ops).closes| + 1 <==> Owns(Run(Make(fd), ops).final)
  {
    var t := Run(Make(fd), ops);
    var d := Close(t.final);
    Trace(d.after, t.closes + d.closes, t.released)
  }

  /** The first call that gives up ownership, if any. */
  function Disposal(ops: seq<Op>): (r: Option<Op>)
    ensures r.Some? ==> r.value != GetOp
    decreases |ops|
  {
    if |ops| == 0 then None
    else if ops[0] == GetOp then Disposal(ops[1..])
    else Some(ops[0])
  }

  /** A wrapper that owns nothing never calls `::close`, and every value it
      releases is negative. */
  lemma {:induction false} RunWithoutOwnership(w: Wrapper, ops: seq<Op>)
    requires !Owns(w)
    ensures Run(w, ops).closes == []
    ensures forall i :: 0 <= i < |Run(w, ops).released| ==> Run(w, ops).released[i] < 0
    ensures !Owns(Run(w, ops).final)
    decreases |ops|
  {
    if |ops| > 0 {
      match ops[0]
      case GetOp => RunWithoutOwnership(w, ops[1..]);
      case CloseOp => RunWithoutOwnership(Close(w).after, ops[1..]);
      case ReleaseOp => RunWithoutOwnership(Release(w).after, ops[1..]);
    }
  }

  /** An owning wrapper gives its descriptor away through its first
      disposing call: `close()` closes it once, `release()` hands it out
      unclosed, and without either it is still held. */
  lemma {:induction false} RunWithOwnership(w: Wrapper, ops: seq<Op>)
    requires Owns(w)
    ensures var t := Run(w, ops);
      match Disposal(ops)
      case None => t.final == w && t.closes == [] && t.released == []
      case Some(op) =>
        !Owns(t.final) &&
        (op == CloseOp ==> t.closes == [w.fd] && w.fd !in t.released) &&
        (op == ReleaseOp ==> t.closes == [] && |t.released| > 0 && t.released[0] == w.fd &&
                             w.fd !in t.released[1..])
    decreases |ops|
  {
    if |ops| > 0 {
      match ops[0]
      case GetOp => RunWithOwnership(w, ops[1..]);
      case CloseOp =>
        RunWithoutOwnership(Close(w).after, ops[1..]);
        var t := Run(Close(w).after, ops[1..]);
        assert forall i :: 0 <= i < |t.released| ==> t.released[i] != w.fd;
      case ReleaseOp =>
        RunWithoutOwnership(Release(w).after, ops[1..]);
        var t := Run(Release(w).after, ops[1..]);
        assert forall i :: 0 <= i < |t.released| ==> t.released[i] != w.fd;
        assert ([w.fd] + t.released)[1..] == t.released;
    }
  }

  /** Over a whole lifetime a descriptor is closed at most once and only by
      its own wrapper; it is closed unless the first disposing call was
      `release()`, and a released descriptor is never closed. */
  lemma LifetimeClosesAtMostOnce(fd: int, ops: seq<Op>)
    ensures |Lifetime(fd, ops).closes| <= 1
    ensures forall x :: x in Lifetime(fd, ops).closes ==> x == fd && fd >= 0
    ensures fd >= 0 ==> (Lifetime(fd, ops).closes == [fd] <==> Disposal(ops) != Some(ReleaseOp))
    ensures fd >= 0 && fd in Lifetime(fd, ops).released ==> Lifetime(fd, ops).closes == []
    ensures !Owns(Lifetime(fd, ops).final)
  {
    var w := Make(fd);
    if fd >= 0 {
      RunWithOwnership(w, ops);
    } else {
      RunWithoutOwnership(w, ops);
    }
  }

  /** Wrappers that were each built from their own descriptor (copying is
      deleted, so no second owner arises from an existing one). */
  predicate DistinctOwners(pool: seq<Wrapper>) {
    forall i, j :: 0 <= i < |pool| && 0 <= j < |pool| && i != j && Owns(pool[i]) ==> pool[i].fd != pool[j].fd
  }

  /** The descriptors the pool still owns. */
  function Held(pool: seq<Wrapper>): set<int> {
    set i | 0 <= i < |pool| && Owns(pool[i]) :: pool[i].fd
  }

  predicate NoDuplicates(s: seq<int>) {
    forall i, j :: 0 <= i < j < |s| ==> s[i] != s[j]
  }

  /** One member call on wrapper `index` of a pool. */
  datatype PoolOp = PoolOp(index: nat, op: Op)

  /** Runs calls on a pool; calls naming no wrapper are skipped. */
  function RunPool(pool: seq<Wrapper>, ops: seq<PoolOp>): Trace
    decreases |ops|
  {
    if |ops| == 0 then Trace(Wrapper(-1), [], [])
    else
      var i := ops[0].index;
      if i >= |pool| then RunPool(pool, ops[1..])
      else
        match ops[0].op
        case GetOp => RunPool(pool, ops[1..])
        case CloseOp =>
          var c := Close(pool[i]);
          var t := RunPool(pool[i := c.after], ops[1..]);
          Trace(t.final, c.closes + t.closes, t.released)
        case ReleaseOp =>
          var rel := Release(pool[i]);
          var t := RunPool(pool[i := rel.after], ops[1..]);
          Trace(t.final, t.closes, [rel.fd] + t.released)
  }

  /** Giving up wrapper `i`'s ownership removes exactly its descriptor from
      the pool's holdings and keeps the owners distinct. */
  lemma DisownKeepsDistinct(pool: seq<Wrapper>, i: int, w: Wrapper)
    requires DistinctOwners(pool) && 0 <= i < |pool| && !Owns(w)
    ensures DistinctOwners(pool[i := w])
    ensures Held(pool[i := w]) == Held(pool) - (if Owns(pool[i]) then {pool[i].fd} else {})
  {
    var p := pool[i := w];
    forall x | x in Held(p)
      ensures x in Held(pool) && (Owns(pool[i]) ==> x != pool[i].fd)
    {
      var j :| 0 <= j < |p| && Owns(p[j]) && p[j].fd == x;
      assert j != i && p[j] == pool[j];
    }
    forall x | x in Held(pool) - (if Owns(pool[i]) then {pool[i].fd} else {})
      ensures x in Held(p)
    {
      var j :| 0 <= j < |pool| && Owns(pool[j]) && pool[j].fd == x;
      assert j != i && p[j] == pool[j];
    }
  }

  /** Across a pool of wrappers that never share a descriptor, every
      descriptor is closed at most once, only descriptors the pool owned are
      closed, and no released descriptor is ever closed. */
  lemma {:induction false} PoolClosesAtMostOnce(pool: seq<Wrapper>, ops: seq<PoolOp>)
    requires DistinctOwners(pool)
    ensures NoDuplicates(RunPool(pool, ops).closes)
    ensures forall x :: x in RunPool(pool, ops).closes ==> x in Held(pool)
    ensures forall x :: x in RunPool(pool, ops).closes ==> x !in RunPool(pool, ops).released
    ensures forall x :: x in RunPool(pool, ops).released && x >= 0 ==> x in Held(pool)
    decreases |ops|
  {
    if |ops| > 0 {
      var i := ops[0].index;
      if i >= |pool| {
        PoolClosesAtMostOnce(pool, ops[1..]);
      } else {
        match ops[0].op
        case GetOp => PoolClosesAtMostOnce(pool, ops[1..]);
        case CloseOp =>
          var c := Close(pool[i]);
          DisownKeepsDistinct(pool, i, c.after);
          PoolClosesAtMostOnce(pool[i := c.after], ops[1..]);
          var t := RunPool(pool[i := c.after], ops[1..]);
          if Owns(pool[i]) {
            assert pool[i].fd in Held(pool);
            assert pool[i].fd !in t.closes;
            assert pool[i].fd !in t.released;
          }
          var all := c.closes + t.closes;
          forall a, b | 0 <= a < b < |all| ensures all[a] != all[b] {
            if a < |c.closes| {
              assert all[b] == t.closes[b - |c.closes|];
            }
          }
        case ReleaseOp =>
          var rel := Release(pool[i]);
          DisownKeepsDistinct(pool, i, rel.after);
          PoolClosesAtMostOnce(pool[i := rel.after], ops[1..]);
          var t := RunPool(pool[i := rel.after], ops[1..]);
          if Owns(pool[i]) {
            assert pool[i].fd in Held(pool);
            assert pool[i].fd !in t.closes;
          }
      }
    }
  }

  /** A `scoped_fd` object. The ghost log records every descriptor the
      object passed to `::close`; `Valid` says it closed at most one, and
      none while it still holds a descriptor. */
  class Cell {
    var fd: int
    ghost var closedLog: seq<int>

    ghost predicate Valid()
      reads this
    {
      |closedLog| <= 1 && (fd >= 0 ==> closedLog == [])
    }

    /** `scoped_fd(fd)`. */
    constructor (fd: int)
      ensures Valid()
      ensures this.fd == fd && closedLog == []
    {
      this.fd := fd;
      closedLog := [];
    }

    /** `get()`. */
    function Get(): (r: int)
      reads this
      ensures r >= 0 <==> Owns(Wrapper(fd))
    {
      fd
    }

    /** `operator==(other)`. */
    predicate Equals(other: int)
      reads this
      ensures Equals(other) <==> Get() == other
    {
      fd == other
    }

    /** `close()` and the destructor: closes a held descriptor once. */
    method Close()
      requires Valid()
      modifies this
      ensures Valid()
      ensures old(fd) >= 0 ==> fd == -1 && closedLog == old(closedLog) + [old(fd)]
      ensures old(fd) < 0 ==> fd == old(fd) && closedLog == old(closedLog)
    {
      if fd >= 0 {
        closedLog := closedLog + [fd];
        fd := -1;
      }
    }

    /** `release()`: hands the held value out without closing it. */
    method Release() returns (r: int)
      requires Valid()
      modifies this
      ensures Valid()
      ensures r == old(fd) && fd == -1
      ensures closedLog == old(closedLog)
    {
      r := fd;
      fd := -1;
    }
  }
}
