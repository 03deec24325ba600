/**
 Model of fd_monitor.py: reading the descriptor limits, counting the open
 descriptors through a chain of fallbacks, and the before/after report of the
 `fd_monitor` context manager.

 Every call into the operating system or into psutil is an input here: what
 getrlimit answered, what psutil listed, how many entries /proc/self/fd held,
 and how each dup/close probe ended.
 */
module FdMonitor {
  import opened Wrappers

  // ---------------------------------------------------------------------------
  // Limits (get_fd_limit)
  // ---------------------------------------------------------------------------

  /** The soft and hard limit on open descriptors, each possibly unknown. */
  datatype Limits = Limits(soft: Option<int>, hard: Option<int>)

  /**
   Python's truthiness of `soft_limit`: both `None` and `0` read as "limit
   unknown". A negative limit (RLIM_INFINITY is -1 in CPython on Linux) is
   truthy.
   */
  predicate Known(soft: Option<int>)
  {
    soft.Some? && soft.value != 0
  }

  /**
   get_fd_limit: `rlimit` is what getrlimit(RLIMIT_NOFILE) answered, or None
   on a platform without the `resource` module. Never fails.
   */
  function GetFdLimit(rlimit: Option<(int, int)>): (r: Limits)
    ensures r.soft.None? <==> rlimit.None?
    ensures r.hard.None? <==> rlimit.None?
    ensures rlimit.Some? ==> r.soft == Some(rlimit.value.0) && r.hard == Some(rlimit.value.1)
  {
    match rlimit
    case None => Limits(None, None)
    case Some((soft, hard)) => Limits(Some(soft), Some(hard))
  }

  // ---------------------------------------------------------------------------
  // Counting open descriptors (get_open_fd_count)
  // ---------------------------------------------------------------------------

  /** `(total_count, (file_count, socket_count))` as get_open_fd_count returns it. */
  datatype FdCount = FdCount(total: int, files: int, sockets: int)

  /** One entry of psutil's `connections(kind='all')`; psutil's entries all carry `type`. */
  datatype Conn = Conn(hasType: bool)

  /**
   What psutil answered: the connection list and the number of open regular
   files, each None when the call raised.
   */
  datatype PsutilView = PsutilView(connections: Option<seq<Conn>>, openFiles: Option<nat>)

  /** The /proc/self/fd fallback: no such directory, listing raised, or the number of entries. */
  datatype ProcView = NoProcDir | ListingFails | Listed(entries: nat)

  /** How one dup(1)/close probe ended. */
  datatype ProbeStep = DupOk | DupOsError | DupOtherError

  /** The number of dup/close probes the fallback tries. */
  const ProbeAttempts: nat := 1000

  /** The count reported when every method failed. */
  const FallbackGuess: int := 50

  /** Number of connections that carry a `type` attribute. */
  function CountTyped(conns: seq<Conn>): (n: nat)
    ensures n <= |conns|
  {
    if conns == [] then 0
    else CountTyped(conns[..|conns| - 1]) + (if conns[|conns| - 1].hasType then 1 else 0)
  }

  /**
   The psutil branch with connections classified as the code evidently intends:
   a connection with a `type` is a socket, anything else a file, and
   `open_files()` adds to the files. None when a psutil call raised.
   */
  function PsutilCounts(view: PsutilView): (r: Option<FdCount>)
    ensures r.Some? <==> view.connections.Some? && view.openFiles.Some?
    ensures r.Some? ==> r.value.total == r.value.files + r.value.sockets
    ensures r.Some? ==> r.value.sockets == CountTyped(view.connections.value)
    ensures r.Some? ==> r.value.total == |view.connections.value| + view.openFiles.value
    ensures r.Some? ==> r.value.files >= 0 && r.value.sockets >= 0
  {
    match (view.connections, view.openFiles)
    case (Some(conns), Some(n)) =>
      var sockets := CountTyped(conns);
      Some(FdCount(|conns| + n, |conns| - sockets + n, sockets))
    case _ => None
  }

  /**
   The psutil branch as written: comparing `conn.type == socket` names a module
   fd_monitor.py never imports, so the first connection with a `type` raises
   NameError and the branch gives up; otherwise every connection is a file.
   */
  function PsutilCountsAsWritten(view: PsutilView): (r: Option<FdCount>)
    ensures r.Some? <==> view.connections.Some? && view.openFiles.Some?
                         && CountTyped(view.connections.value) == 0
    ensures r.Some? ==> r.value.sockets == 0 && r.value.total == r.value.files
    ensures r.Some? ==> r.value.total == |view.connections.value| + view.openFiles.value
  {
    match (view.connections, view.openFiles)
    case (Some(conns), Some(n)) =>
      TypedCountIsZeroIff(conns);
      if exists j :: 0 <= j < |conns| && conns[j].hasType then None
      else Some(FdCount(|conns| + n, |conns| + n, 0))
    case _ => None
  }

  /** No connection carries a `type` exactly when none is counted. */
  lemma {:induction false} TypedCountIsZeroIff(conns: seq<Conn>)
    ensures CountTyped(conns) == 0 <==> forall j :: 0 <= j < |conns| ==> !conns[j].hasType
  {
    if conns != [] {
      var init := conns[..|conns| - 1];
      TypedCountIsZeroIff(init);
      assert forall j :: 0 <= j < |init| ==> init[j] == conns[j];
    }
  }

  /**
   The psutil branch as written, step by step: the loop over the connections
   and the `open_files()` call.
   */
  method PsutilBranchAsWritten(view: PsutilView) returns (r: Option<FdCount>)
    ensures r == PsutilCountsAsWritten(view)
  {
    if view.connections.None? {
      return None;
    }
    var conns := view.connections.value;
    var fileCount, socketCount := 0, 0;
    var i := 0;
    while i < |conns|
      invariant 0 <= i <= |conns|
      invariant forall j :: 0 <= j < i ==> !conns[j].hasType
      invariant fileCount == i && socketCount == 0
    {
      if conns[i].hasType {
        // `socket` is an undefined name: NameError, caught by the branch
        return None;
      }
      fileCount := fileCount + 1;
      i := i + 1;
    }
    if view.openFiles.None? {
      return None;
    }
    fileCount := fileCount + view.openFiles.value;
    r := Some(FdCount(fileCount + socketCount, fileCount, socketCount));
  }

  /** The psutil branch with the classification corrected, step by step. */
  method PsutilBranch(view: PsutilView) returns (r: Option<FdCount>)
    ensures r == PsutilCounts(view)
  {
    if view.connections.None? {
      return None;
    }
    var conns := view.connections.value;
    var fileCount, socketCount := 0, 0;
    var i := 0;
    while i < |conns|
      invariant 0 <= i <= |conns|
      invariant socketCount == CountTyped(conns[..i])
      invariant fileCount + socketCount == i
    {
      assert conns[..i + 1][..i] == conns[..i];
      if conns[i].hasType {
        socketCount := socketCount + 1;
      } else {
        fileCount := fileCount + 1;
      }
      i := i + 1;
    }
    assert conns[..i] == conns;
    if view.openFiles.None? {
      return None;
    }
    fileCount := fileCount + view.openFiles.value;
    r := Some(FdCount(fileCount + socketCount, fileCount, socketCount));
  }

  /**
   The dup probe from attempt `i` on: the index of the first attempt that
   raised OSError, or None when some other exception ended the loop or all
   attempts succeeded.
   */
  function ProbeFrom(probe: seq<ProbeStep>, i: nat): (r: Option<int>)
    requires i <= ProbeAttempts <= |probe|
    ensures r.Some? ==> i <= r.value < ProbeAttempts && probe[r.value] == DupOsError
    decreases ProbeAttempts - i
  {
    if i == ProbeAttempts then None
    else
      match probe[i]
      case DupOk => ProbeFrom(probe, i + 1)
      case DupOsError => Some(i)
      case DupOtherError => None
  }

  /** The result of the /proc/self/fd listing with `n` entries. */
  function ProcCount(n: nat): (r: FdCount)
    ensures r.sockets == 0 && r.files == n - 1
    ensures r.total == if n >= 1 then n - 1 else 0
    ensures r.total == r.files + r.sockets <==> n >= 1
  {
    FdCount(if n - 1 > 0 then n - 1 else 0, n - 1, 0)
  }

  /**
   get_open_fd_count as a function of what each source answered; `psutil` is
   the outcome of the psutil branch, None when psutil is missing or raised.
   */
  function FdCountOf(psutil: Option<FdCount>, proc: ProcView, probe: seq<ProbeStep>): (r: FdCount)
    requires |probe| >= ProbeAttempts
    ensures psutil.Some? ==> r == psutil.value
    ensures (psutil.None? && proc.Listed?) ==> r == ProcCount(proc.entries)
    ensures (psutil.None? && !proc.Listed?)
              ==> r.sockets == 0 && r.files == r.total && (r.total == FallbackGuess || 0 <= r.total < ProbeAttempts)
  {
    if psutil.Some? then psutil.value
    else if proc.Listed? then ProcCount(proc.entries)
    else
      match ProbeFrom(probe, 0)
      case Some(i) => FdCount(i, i, 0)
      case None => FdCount(FallbackGuess, FallbackGuess, 0)
  }

  /**
   get_open_fd_count as written: psutil when installed and its branch succeeds
   (which, as written, needs a process with no connection), else /proc/self/fd
   when it can be listed, else the dup probe, else the guess 50.
   */
  method GetOpenFdCount(havePsutil: bool, psutil: PsutilView, proc: ProcView, probe: seq<ProbeStep>)
    returns (r: FdCount)
    requires |probe| >= ProbeAttempts
    ensures r == FdCountOf(if havePsutil then PsutilCountsAsWritten(psutil) else None, proc, probe)
  {
    if havePsutil {
      var counted := PsutilBranchAsWritten(psutil);
      if counted.Some? {
        return counted.value;
      }
    }
    if proc.Listed? {
      var count: int := proc.entries;
      return FdCount(if count - 1 > 0 then count - 1 else 0, count - 1, 0);
    }
    var i := 0;
    while i < ProbeAttempts
      invariant 0 <= i <= ProbeAttempts
      invariant ProbeFrom(probe, i) == ProbeFrom(probe, 0)
    {
      match probe[i]
      case DupOk =>
        i := i + 1;
      case DupOsError =>
        return FdCount(i, i, 0);
      case DupOtherError =>
        // not an OSError: it escapes the loop and is caught by the outer handler
        break;
    }
    return FdCount(FallbackGuess, FallbackGuess, 0);
  }

  /**
   The probe's answer is the index of the first attempt that did not succeed,
   exactly when that attempt raised OSError; so it lies in [0, 1000).
   */
  lemma {:induction false} ProbeFromIsFirstOsError(probe: seq<ProbeStep>, i: nat, k: int)
    requires i <= ProbeAttempts <= |probe|
    ensures ProbeFrom(probe, i) == Some(k) <==>
              i <= k < ProbeAttempts && probe[k] == DupOsError
              && forall j :: i <= j < k ==> probe[j] == DupOk
    decreases ProbeAttempts - i
  {
    if i < ProbeAttempts && probe[i] == DupOk {
      ProbeFromIsFirstOsError(probe, i + 1, k);
    }
  }

  /** All 1000 probes succeeding (the loop ends normally) gives no answer. */
  lemma ProbeAllSucceed(probe: seq<ProbeStep>, i: nat)
    requires i <= ProbeAttempts <= |probe|
    requires forall j :: i <= j < ProbeAttempts ==> probe[j] == DupOk
    ensures ProbeFrom(probe, i) == None
  {
  }

  /** The order of the sources: psutil's result wins whenever there is one. */
  lemma PsutilFirst(psutil: FdCount, proc: ProcView, probe: seq<ProbeStep>)
    requires |probe| >= ProbeAttempts
    ensures FdCountOf(Some(psutil), proc, probe) == psutil
  {
  }

  /** Without a psutil result, a listable /proc/self/fd decides, with the count less one. */
  lemma ProcSecond(proc: ProcView, probe: seq<ProbeStep>)
    requires |probe| >= ProbeAttempts && proc.Listed?
    ensures var r := FdCountOf(None, proc, probe);
      && r.total == (if proc.entries >= 1 then proc.entries - 1 else 0)
      && r.files == proc.entries - 1 && r.sockets == 0
      && (r.total == r.files + r.sockets <==> proc.entries >= 1)
  {
  }

  /**
   Without psutil and /proc, the dup probe decides: `(i, (i, 0))` for the first
   attempt `i` that raised OSError, otherwise the guess `(50, (50, 0))`.
   */
  lemma ProbeThird(proc: ProcView, probe: seq<ProbeStep>, i: int)
    requires |probe| >= ProbeAttempts && !proc.Listed?
    requires 0 <= i < ProbeAttempts && probe[i] == DupOsError
    requires forall j :: 0 <= j < i ==> probe[j] == DupOk
    ensures FdCountOf(None, proc, probe) == FdCount(i, i, 0)
  {
    ProbeFromIsFirstOsError(probe, 0, i);
  }

  /** When all 1000 probes succeed the loop falls through to the fixed guess. */
  lemma ProbeExhaustedGivesGuess(proc: ProcView, probe: seq<ProbeStep>)
    requires |probe| >= ProbeAttempts && !proc.Listed?
    requires forall j :: 0 <= j < ProbeAttempts ==> probe[j] == DupOk
    ensures FdCountOf(None, proc, probe) == FdCount(50, 50, 0)
  {
  }

  /**
   The count is never negative and, when no source answers, is the positive
   guess 50 rather than zero.
   */
  lemma FdCountNeverNegative(psutil: Option<FdCount>, proc: ProcView, probe: seq<ProbeStep>)
    requires |probe| >= ProbeAttempts
    requires psutil.Some? ==> psutil.value.total >= 0
    ensures FdCountOf(psutil, proc, probe).total >= 0
    ensures (psutil.None? && !proc.Listed? && ProbeFrom(probe, 0).None?)
              ==> FdCountOf(psutil, proc, probe).total == FallbackGuess > 0
    ensures (psutil.None? && !proc.Listed? && ProbeFrom(probe, 0).Some?)
              ==> 0 <= FdCountOf(psutil, proc, probe).total < ProbeAttempts
  {
  }

  /**
   Every count psutil can produce satisfies `total == files + sockets` with
   both parts non-negative, and so does every result taken from psutil.
   */
  lemma PsutilCountsAddUp(view: PsutilView, proc: ProcView, probe: seq<ProbeStep>)
    requires |probe| >= ProbeAttempts && PsutilCounts(view).Some?
    ensures var r := FdCountOf(PsutilCounts(view), proc, probe);
      r.total == r.files + r.sockets && r.files >= 0 && r.sockets >= 0
  {
  }

  /**
   The effect of the unimported `socket` name: as written, the psutil branch
   is skipped as soon as psutil lists one connection with a `type`, and then
   the count comes from the later sources, never with a socket in it.
   */
  lemma AsWrittenSkipsPsutilWithConnections(view: PsutilView, proc: ProcView, probe: seq<ProbeStep>, j: int)
    requires |probe| >= ProbeAttempts
    requires view.connections.Some? && 0 <= j < |view.connections.value|
    requires view.connections.value[j].hasType
    ensures PsutilCountsAsWritten(view) == None
    ensures FdCountOf(PsutilCountsAsWritten(view), proc, probe).sockets == 0
  {
  }

  /** A concrete input on which the two psutil branches disagree: one socket and no files. */
  lemma AsWrittenMissesSockets()
    ensures PsutilCountsAsWritten(PsutilView(Some([Conn(true)]), Some(0))) == None
    ensures PsutilCounts(PsutilView(Some([Conn(true)]), Some(0))) == Some(FdCount(1, 0, 1))
  {
  }

  // ---------------------------------------------------------------------------
  // The fd_monitor context manager: the report before and after a block
  // ---------------------------------------------------------------------------

  /** The default `alert_threshold` of fd_monitor and of the middleware. */
  const DefaultAlertThreshold: real := 0.8

  /** One usage line: either "limit unknown" or the ratio and whether it alerts. */
  datatype UsageLine = LimitUnknown(count: int) | Usage(count: int, soft: int, ratio: real, alert: bool)

  /** How the count moved across the block: a warning, an info line, or nothing. */
  datatype Change = PotentialLeak(added: int) | Decrease(delta: int) | Steady

  /** What fd_monitor reports: usage before, the change, usage after. */
  datatype MonitorReport = MonitorReport(before: UsageLine, change: Change, after: UsageLine)

  /**
   The usage line for `count` descriptors: a ratio only when the soft limit is
   truthy; it alerts exactly when the ratio exceeds the threshold.
   */
  function UsageOf(soft: Option<int>, count: int, threshold: real): (u: UsageLine)
    ensures u.Usage? <==> Known(soft)
    ensures u.count == count
    ensures u.Usage? ==> u.soft == soft.value && u.ratio * (u.soft as real) == count as real
    ensures u.Usage? ==> (u.alert <==> u.ratio > threshold)
  {
    if Known(soft) then
      var ratio := count as real / soft.value as real;
      Usage(count, soft.value, ratio, ratio > threshold)
    else LimitUnknown(count)
  }

  /** The change line: a leak warning iff the count grew, an info line iff it shrank. */
  function ChangeOf(initial: int, final: int): (c: Change)
    ensures c.PotentialLeak? <==> final > initial
    ensures c.Decrease? <==> final < initial
    ensures c.Steady? <==> final == initial
    ensures c.PotentialLeak? ==> c.added > 0 && initial + c.added == final
    ensures c.Decrease? ==> c.delta < 0 && initial + c.delta == final
  {
    var diff := final - initial;
    if diff != 0 then
      if diff > 0 then PotentialLeak(diff) else Decrease(diff)
    else Steady
  }

  /** fd_monitor's report for a block entered with `initial` and left with `final` descriptors. */
  function Monitor(soft: Option<int>, initial: int, final: int, threshold: real): (r: MonitorReport)
    ensures r.before.Usage? <==> Known(soft)
    ensures r.after.Usage? <==> Known(soft)
    ensures r.before.count == initial && r.after.count == final
    ensures r.before.Usage? ==> r.before.ratio * (soft.value as real) == initial as real
    ensures r.after.Usage? ==> r.after.ratio * (soft.value as real) == final as real
    ensures r.before.Usage? ==> (r.before.alert <==> r.before.ratio > threshold)
    ensures r.after.Usage? ==> (r.after.alert <==> r.after.ratio > threshold)
    ensures r.change.PotentialLeak? <==> final > initial
    ensures r.change.Decrease? <==> final < initial
    ensures r.change.PotentialLeak? ==> r.change.added == final - initial
    ensures r.change.Decrease? ==> r.change.delta == final - initial
  {
    MonitorReport(UsageOf(soft, initial, threshold), ChangeOf(initial, final), UsageOf(soft, final, threshold))
  }

  /**
   For a positive soft limit the ratio test is the cross-multiplied test
   `count > threshold * soft`; for a negative one (RLIM_INFINITY) it flips.
   */
  lemma AlertIffAboveThreshold(soft: int, count: int, threshold: real)
    requires soft != 0
    ensures UsageOf(Some(soft), count, threshold).Usage?
    ensures soft > 0 ==> (UsageOf(Some(soft), count, threshold).alert <==> count as real > threshold * soft as real)
    ensures soft < 0 ==> (UsageOf(Some(soft), count, threshold).alert <==> count as real < threshold * soft as real)
  {
  }

  /** With an unknown or zero soft limit nothing alerts, before or after. */
  lemma UnknownLimitNeverAlerts(soft: Option<int>, initial: int, final: int, threshold: real)
    requires !Known(soft)
    ensures Monitor(soft, initial, final, threshold).before.LimitUnknown?
    ensures Monitor(soft, initial, final, threshold).after.LimitUnknown?
  {
  }
}
