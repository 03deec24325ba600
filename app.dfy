/**
 Model of app.py: the process-wide list of deliberately unclosed file handles
 (`leaked_files`) and the endpoints that read, grow and drain it.

 The operating system is an input: each attempt to open a temporary file
 either yields a handle or fails, a handle's close either succeeds or raises,
 and the descriptor count and limits sampled by an endpoint are parameters.
 */
module App {
  import opened Wrappers
  import FdMonitor

  /** An open temporary file; only its identity matters here. */
  datatype Handle = TempFile(id: nat)

  /** Fraction of the soft limit above which new leaks are refused. */
  const RejectRatio: real := 0.98

  /** A cleanup scheduled on the background tasks: how many handles, after how many seconds. */
  datatype DeferredCleanup = DeferredCleanup(count: int, delay: int)

  /**
   The answer of POST /leak: 429 with the sampled count and soft limit, or
   the number created ("Created N leaked file descriptors"), the registry
   length after the append, and the cleanup scheduled, if any.
   */
  datatype LeakReply =
    | TooClose(fdCount: int, softLimit: int)
    | Leaked(created: nat, totalLeaked: nat, deferred: Option<DeferredCleanup>)

  /** The answer of POST /cleanup. */
  datatype CleanupReply = CleanupReply(cleaned: nat, currentFdCount: int, pctOfLimit: Option<real>)

  /** The body of GET /. */
  datatype ResourceInfo = ResourceInfo(
    fdCount: int,
    fdLimitSoft: Option<int>,
    fdLimitHard: Option<int>,
    openFiles: int,
    openConnections: int,
    pctOfLimit: Option<real>,
    leakedFilesCount: nat)

  // ---------------------------------------------------------------------------
  // Specification functions
  // ---------------------------------------------------------------------------

  /**
   The admission gate of POST /leak: closed when the soft limit is truthy and
   the count exceeds 98% of it. For a positive limit that is the integer test
   `50 * fdCount > 49 * soft`.
   */
  predicate TooCloseToLimit(fdCount: int, soft: Option<int>)
    ensures !FdMonitor.Known(soft) ==> !TooCloseToLimit(fdCount, soft)
    ensures (soft.Some? && soft.value > 0)
              ==> (TooCloseToLimit(fdCount, soft) <==> 50 * fdCount > 49 * soft.value)
    ensures (soft.Some? && soft.value < 0 && fdCount >= 0) ==> TooCloseToLimit(fdCount, soft)
  {
    FdMonitor.Known(soft) && fdCount as real > soft.value as real * RejectRatio
  }

  /** `fd_count / soft_limit if soft_limit else None`. */
  function PctOfLimit(fdCount: int, soft: Option<int>): (p: Option<real>)
    ensures p.None? <==> !FdMonitor.Known(soft)
    ensures p.Some? ==> p.value * (soft.value as real) == fdCount as real
  {
    if FdMonitor.Known(soft) then Some(fdCount as real / soft.value as real) else None
  }

  /** The outcomes of the attempts `for i in range(count)` makes: none for a count below one. */
  function Attempts(opens: seq<Option<Handle>>, count: int): seq<Option<Handle>>
    requires count <= |opens|
  {
    if count <= 0 then [] else opens[..count]
  }

  /** The handles opened before the first failed attempt, in opening order. */
  function OpenedBeforeFailure(attempts: seq<Option<Handle>>): (r: seq<Handle>)
    ensures |r| <= |attempts|
    ensures forall j :: 0 <= j < |r| ==> attempts[j] == Some(r[j])
    ensures |r| < |attempts| ==> attempts[|r|].None?
  {
    if attempts == [] || attempts[0].None? then []
    else [attempts[0].value] + OpenedBeforeFailure(attempts[1..])
  }

  /**
   `added` is what the open loop keeps exactly when each of its handles came
   from the attempt at the same position and the attempt after them, if any,
   failed.
   */
  lemma OpenedBeforeFailureIff(attempts: seq<Option<Handle>>, added: seq<Handle>)
    ensures added == OpenedBeforeFailure(attempts) <==>
              && |added| <= |attempts|
              && (forall j :: 0 <= j < |added| ==> attempts[j] == Some(added[j]))
              && (|added| < |attempts| ==> attempts[|added|].None?)
  {
  }

  /** A leak adds at most `max(count, 0)` handles. */
  lemma OpenedAtMostCount(opens: seq<Option<Handle>>, count: int)
    requires count <= |opens|
    ensures |OpenedBeforeFailure(Attempts(opens, count))| <= (if count > 0 then count else 0)
  {
  }

  /** When every attempt succeeds, all `count` handles are kept. */
  lemma AllOpensSucceed(opens: seq<Option<Handle>>, count: int)
    requires 0 <= count <= |opens|
    requires forall j :: 0 <= j < count ==> opens[j].Some?
    ensures |OpenedBeforeFailure(Attempts(opens, count))| == count
  {
  }

  /** The number of handles `cleanup_leaked_fds(count, _)` pops from a registry of `len`: `min(count, len)`, none if negative. */
  function PopCount(count: int, len: nat): (k: nat)
    ensures k <= len
    ensures count >= len ==> k == len
    ensures 0 <= count <= len ==> k == count
    ensures count <= 0 ==> k == 0
  {
    if count < len then (if count > 0 then count else 0) else len
  }

  /** `s` back to front. */
  function Reversed(s: seq<Handle>): (r: seq<Handle>)
    ensures |r| == |s|
  {
    if s == [] then [] else Reversed(s[1..]) + [s[0]]
  }

  /**
   The handles of `hs` whose `close()` raised, in order. The registry drops
   them all the same; whether the descriptor itself was released is up to the
   operating system.
   */
  function CloseRaised(hs: seq<Handle>, closeFails: set<Handle>): (r: seq<Handle>)
    ensures |r| <= |hs|
  {
    if hs == [] then []
    else CloseRaised(hs[..|hs| - 1], closeFails) + (if hs[|hs| - 1] in closeFails then [hs[|hs| - 1]] else [])
  }

  /** A handle is reported exactly when it was in `hs` and its close raised. */
  lemma {:induction false} CloseRaisedMembers(hs: seq<Handle>, closeFails: set<Handle>, h: Handle)
    ensures h in CloseRaised(hs, closeFails) <==> h in hs && h in closeFails
  {
    if hs != [] {
      CloseRaisedMembers(hs[..|hs| - 1], closeFails, h);
      assert hs == hs[..|hs| - 1] + [hs[|hs| - 1]];
    }
  }

  /** The registry after a deferred cleanup of `count` handles: the original prefix. */
  function AfterPop(files: seq<Handle>, count: int): (r: seq<Handle>)
    ensures |r| == |files| - PopCount(count, |files|)
    ensures r <= files
  {
    files[..|files| - PopCount(count, |files|)]
  }

  /** The handles a deferred cleanup of `count` pops, last added first. */
  function Popped(files: seq<Handle>, count: int): (r: seq<Handle>)
    ensures |r| == PopCount(count, |files|)
  {
    Reversed(files[|files| - PopCount(count, |files|)..])
  }

  /** The registry is the remaining prefix followed by the popped handles in reverse. */
  lemma PopSplitsRegistry(files: seq<Handle>, count: int)
    ensures AfterPop(files, count) + Reversed(Popped(files, count)) == files
  {
    var k := PopCount(count, |files|);
    var tail := files[|files| - k..];
    ReversedTwice(tail);
    assert files == files[..|files| - k] + tail;
  }

  lemma {:induction false} ReversedTwice(s: seq<Handle>)
    ensures Reversed(Reversed(s)) == s
  {
    if s != [] {
      ReversedTwice(s[1..]);
      ReversedAppend(Reversed(s[1..]), [s[0]]);
      assert Reversed([s[0]]) == [s[0]] by { assert [s[0]][1..] == []; }
      assert s == [s[0]] + s[1..];
    }
  }

  lemma {:induction false} ReversedAppend(a: seq<Handle>, b: seq<Handle>)
    ensures Reversed(a + b) == Reversed(b) + Reversed(a)
  {
    if a == [] {
      assert a + b == b;
    } else {
      ReversedAppend(a[1..], b);
      assert (a + b)[1..] == a[1..] + b;
    }
  }

  /** One pop: the prefix shrinks by the last handle, which joins the popped handles. */
  lemma PopOne(start: seq<Handle>, i: nat)
    requires i < |start|
    ensures start[..|start| - i][..|start| - i - 1] == start[..|start| - i - 1]
    ensures start[..|start| - i][|start| - i - 1] == start[|start| - i - 1]
    ensures Reversed(start[|start| - i - 1..]) == Reversed(start[|start| - i..]) + [start[|start| - i - 1]]
  {
  }

  lemma CloseRaisedAppend(hs: seq<Handle>, h: Handle, closeFails: set<Handle>)
    ensures CloseRaised(hs + [h], closeFails) == CloseRaised(hs, closeFails) + (if h in closeFails then [h] else [])
  {
  }

  /** A cleanup of at least the registry's length drains it, like POST /cleanup. */
  lemma OverlongPopDrains(files: seq<Handle>, count: int)
    requires count >= |files|
    ensures AfterPop(files, count) == [] && |Popped(files, count)| == |files|
  {
  }

  /**
   The cleanup a leak schedules pops exactly the handles that leak appended,
   newest first, and restores the registry it found, when nothing else ran
   in between.
   */
  lemma DeferredCleanupUndoesLeak(files: seq<Handle>, added: seq<Handle>)
    ensures AfterPop(files + added, |added|) == files
    ensures Popped(files + added, |added|) == Reversed(added)
  {
  }

  /** At a soft limit of 100, 10 or 98 open descriptors are admitted (98 is not above 98.0) and 99 are refused. */
  lemma GateBoundaryAtHundred()
    ensures !TooCloseToLimit(98, Some(100)) && TooCloseToLimit(99, Some(100))
    ensures !TooCloseToLimit(10, Some(100))
  {
  }

  /** For a positive soft limit the gate is the integer test `50 * fdCount > 49 * soft`. */
  lemma GateCrossMultiplied(fdCount: int, soft: int)
    requires soft > 0
    ensures TooCloseToLimit(fdCount, Some(soft)) <==> 50 * fdCount > 49 * soft
  {
  }

  /** An unknown or zero soft limit never closes the gate. */
  lemma UnknownLimitNeverRejects(fdCount: int, soft: Option<int>)
    requires soft.None? || soft == Some(0)
    ensures !TooCloseToLimit(fdCount, soft)
  {
  }

  /** A negative soft limit (RLIM_INFINITY) is truthy and closes the gate for every count. */
  lemma NegativeLimitAlwaysRejects(fdCount: int, soft: int)
    requires soft < 0 && fdCount >= 0
    ensures TooCloseToLimit(fdCount, Some(soft))
  {
  }

  // ---------------------------------------------------------------------------
  // The registry and the endpoints that use it
  // ---------------------------------------------------------------------------

  /** The global `leaked_files`, created empty at start-up. */
  class LeakRegistry {
    var files: seq<Handle>

    constructor ()
      ensures files == []
    {
      files := [];
    }

    /**
     GET /: the sampled count and its split, the limits, the usage ratio
     (None when the soft limit is None or 0) and the registry's length.
     */
    function GetResourceInfo(sample: FdMonitor.FdCount, limits: FdMonitor.Limits): (info: ResourceInfo)
      reads this
      ensures info.leakedFilesCount == |files|
      ensures info.fdCount == sample.total
      ensures info.openFiles == sample.files && info.openConnections == sample.sockets
      ensures info.fdLimitSoft == limits.soft && info.fdLimitHard == limits.hard
      ensures info.pctOfLimit.None? <==> !FdMonitor.Known(limits.soft)
      ensures info.pctOfLimit.Some? ==> info.pctOfLimit.value * (limits.soft.value as real) == sample.total as real
    {
      ResourceInfo(sample.total, limits.soft, limits.hard, sample.files, sample.sockets,
                   PctOfLimit(sample.total, limits.soft), |files|)
    }

    /**
     POST /leak?count=&cleanup_after=: refused with 429 above 98% of a truthy
     soft limit, leaving the registry alone; otherwise opens handles one by
     one until the first failure and appends those opened, in order.
     `opens[i]` is the outcome of the i-th attempt; `hasBackgroundTasks`
     whether the framework passed a task list.
     */
    method CreateFdLeak(count: int, cleanupAfter: int, hasBackgroundTasks: bool,
                        fdCount: int, soft: Option<int>, opens: seq<Option<Handle>>)
      returns (reply: LeakReply)
      requires count <= |opens|
      modifies this
      ensures TooCloseToLimit(fdCount, soft) ==>
                reply == TooClose(fdCount, soft.value) && files == old(files)
      ensures !TooCloseToLimit(fdCount, soft) ==>
                var added := OpenedBeforeFailure(Attempts(opens, count));
                && files == old(files) + added
                && reply == Leaked(|added|, |files|,
                                   if cleanupAfter > 0 && hasBackgroundTasks
                                   then Some(DeferredCleanup(|added|, cleanupAfter)) else None)
    {
      if TooCloseToLimit(fdCount, soft) {
        return TooClose(fdCount, soft.value);
      }
      var n := if count > 0 then count else 0;
      var newLeaks: seq<Handle> := [];
      var i := 0;
      while i < n
        invariant 0 <= i <= n
        invariant |newLeaks| == i
        invariant forall j :: 0 <= j < i ==> opens[j] == Some(newLeaks[j])
      {
        match opens[i]
        case None =>
          break;
        case Some(temp) =>
          newLeaks := newLeaks + [temp];
        i := i + 1;
      }
      OpenedBeforeFailureIff(Attempts(opens, count), newLeaks);
      files := files + newLeaks;
      var deferred := None;
      if cleanupAfter > 0 && hasBackgroundTasks {
        deferred := Some(DeferredCleanup(|newLeaks|, cleanupAfter));
      }
      reply := Leaked(|newLeaks|, |files|, deferred);
    }

    /**
     POST /cleanup: closes every handle, tolerating failed closes, and always
     empties the registry; reports the prior length and the count and ratio
     sampled afterwards. `raised` are the handles whose close raised.
     */
    method CleanupLeaks(closeFails: set<Handle>, fdAfter: int, soft: Option<int>)
      returns (reply: CleanupReply, raised: seq<Handle>)
      modifies this
      ensures files == []
      ensures reply == CleanupReply(|old(files)|, fdAfter, PctOfLimit(fdAfter, soft))
      ensures raised == CloseRaised(old(files), closeFails)
    {
      var count := |files|;
      raised := [];
      var i := 0;
      while i < |files|
        invariant 0 <= i <= |files| && files == old(files)
        invariant raised == CloseRaised(files[..i], closeFails)
      {
        var temp := files[i];
        assert files[..i + 1][..i] == files[..i];
        if temp in closeFails {
          raised := raised + [temp];
        }
        i := i + 1;
      }
      assert files[..i] == files;
      files := [];
      reply := CleanupReply(count, fdAfter, PctOfLimit(fdAfter, soft));
    }

    /**
     The deferred cleanup_leaked_fds(count, delay), run after its delay with
     nothing interleaved: pops `min(count, len)` handles from the end, each
     removed even when its close raises. Returns the handles in pop order and
     those whose close raised.
     */
    method CleanupLeakedFds(count: int, delay: int, closeFails: set<Handle>)
      returns (popped: seq<Handle>, raised: seq<Handle>)
      modifies this
      ensures files == AfterPop(old(files), count)
      ensures popped == Popped(old(files), count)
      ensures raised == CloseRaised(popped, closeFails)
    {
      ghost var start := files;
      var toClose := if count < |files| then count else |files|;
      popped, raised := [], [];
      var i := 0;
      while i < toClose
        invariant 0 <= i <= PopCount(count, |start|)
        invariant files == start[..|start| - i]
        invariant popped == Reversed(start[|start| - i..])
        invariant raised == CloseRaised(popped, closeFails)
      {
        if files != [] {
          var temp := files[|files| - 1];
          PopOne(start, i);
          files := files[..|files| - 1];
          CloseRaisedAppend(popped, temp, closeFails);
          popped := popped + [temp];
          if temp in closeFails {
            raised := raised + [temp];
          }
        }
        i := i + 1;
      }
    }
  }

  /** Scenario: leak 10 with room to spare, then let the scheduled cleanup run. */
  method LeakThenDeferredCleanupScenario(opens: seq<Option<Handle>>, closeFails: set<Handle>)
    requires |opens| == 10 && forall j :: 0 <= j < 10 ==> opens[j].Some?
  {
    var registry := new LeakRegistry();
    AllOpensSucceed(opens, 10);
    var reply := registry.CreateFdLeak(10, 2, true, 10, Some(100), opens);
    assert !TooCloseToLimit(10, Some(100));
    assert reply.Leaked? && reply.created == 10 && reply.totalLeaked == 10;
    assert reply.deferred == Some(DeferredCleanup(10, 2));
    DeferredCleanupUndoesLeak([], registry.files);
    var popped, raised := registry.CleanupLeakedFds(reply.deferred.value.count, 2, closeFails);
    assert registry.files == [];
  }

  /** Scenario: a second POST /cleanup in a row reports 0 cleaned. */
  method CleanupTwiceScenario(registry: LeakRegistry, closeFails: set<Handle>, fdAfter: int, soft: Option<int>)
    modifies registry
  {
    var first, raised1 := registry.CleanupLeaks(closeFails, fdAfter, soft);
    var second, raised2 := registry.CleanupLeaks(closeFails, fdAfter, soft);
    assert second.cleaned == 0 && registry.files == [] && raised2 == [];
  }
}
