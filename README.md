# File-descriptor exhaustion demo: leak registry, descriptor counting and request guard

This project models the accounting core of a small FastAPI service that shows how
file-descriptor exhaustion turns into gateway errors. The model has three parts:

- **app.py.** The process-wide list `leaked_files` of deliberately unclosed temporary
  files is the class `App.LeakRegistry`, with a `seq<Handle>` field. The endpoints
  that use it are methods: `POST /leak`, `POST /cleanup`, the deferred
  `cleanup_leaked_fds` task and `GET /`. The 98% admission gate in front of
  `POST /leak` is `App.TooCloseToLimit`.
- **fd_monitor.py.** `get_fd_limit` and the fallback chain of `get_open_fd_count` are
  modelled: psutil first, then `/proc/self/fd`, then a `dup` probe, then the constant
  50. So is the before/after report of the `fd_monitor` context manager.
- **middleware.py.** `ResourceMonitorMiddleware` stores its alert threshold once.
  `Dispatch` decides between a 503 short-circuit, passing the handler's response
  through, a 500 of type `file_descriptor_limit` and a generic 500.

Every operating-system and library call is an input:

- the outcome of each attempt to open a temporary file, as `Option<Handle>`;
- the set of handles whose `close()` raises;
- what psutil lists;
- how many entries `/proc/self/fd` holds, or whether listing it raises;
- how each `dup`/`close` probe ends;
- the descriptor count and limits that an endpoint samples.

Python's `if soft_limit` is `FdMonitor.Known`: `None` and `0` both mean "unknown".
The thresholds 0.98, 0.95 and `alert_threshold` are compared as exact `real` numbers.

A negative soft limit is truthy. On Linux, CPython reports `RLIM_INFINITY` as -1. With
such a limit the gate refuses every leak (`App.NegativeLimitAlwaysRejects`). With a
positive alert threshold, the guard also refuses every request
(`Middleware.NegativeLimitRefusesAll`). Both are consequences of the code as written.

## Model

| member | source | states |
|---|---|---|
| FdMonitor.GetFdLimit | fd_monitor.py:27-35 | both limits are present exactly when the platform reports them, and then they are the reported soft and hard limit; an unknown limit is a value, not an error |
| FdMonitor.PsutilCounts | fd_monitor.py:44-62 | corrected psutil branch: a result exactly when both psutil calls answer; sockets are the connections that carry a `type`, and `total == files + sockets == connections + open files`, all non-negative |
| FdMonitor.PsutilCountsAsWritten | fd_monitor.py:44-66 | psutil branch as written: a result exactly when both calls answer and no connection carries a `type`; it then reports every connection plus the open files as files, and never a socket |
| FdMonitor.PsutilBranchAsWritten | fd_monitor.py:44-66 | the loop over the connections, as written, computes `PsutilCountsAsWritten` |
| FdMonitor.PsutilBranch | fd_monitor.py:44-66 | the corrected loop over the connections computes `PsutilCounts` |
| FdMonitor.ProcCount | fd_monitor.py:68-75 | with `n` directory entries: total `n-1`, or 0 when `n` is 0; split `(n-1, 0)`; `total == files + sockets` exactly when `n >= 1` |
| FdMonitor.ProbeFrom | fd_monitor.py:83-90 | an answer from the dup probe is the index of an attempt below 1000 that raised OSError |
| FdMonitor.FdCountOf | fd_monitor.py:37-94 | the sources in order: a psutil result decides; without one, a listable `/proc/self/fd` gives `ProcCount`; otherwise there are no sockets, and the total is either 50 or a probe index below 1000 |
| FdMonitor.GetOpenFdCount | fd_monitor.py:37-94 | the step-by-step chain as written, including the as-written psutil branch and the 1000-step probe loop, returns exactly `FdCountOf` of what each source answered |
| FdMonitor.ProbeFromIsFirstOsError | fd_monitor.py:83-90 | the probe answers `i` exactly when attempt `i` is the first one that did not succeed and it raised OSError; hence `0 <= i < 1000` |
| FdMonitor.ProbeAllSucceed | fd_monitor.py:83-94 | when all 1000 probes succeed, the loop gives no answer and falls through |
| FdMonitor.PsutilFirst | fd_monitor.py:44-62 | a psutil result is used whatever `/proc` and the probe would say |
| FdMonitor.ProcSecond | fd_monitor.py:68-75 | without a psutil result, a listable `/proc/self/fd` decides, with its count less one |
| FdMonitor.ProbeThird | fd_monitor.py:79-88 | without psutil and `/proc`, the first probe that raises OSError at index `i` gives `(i, (i, 0))` |
| FdMonitor.ProbeExhaustedGivesGuess | fd_monitor.py:83-94 | without psutil and `/proc`, 1000 successful probes give `(50, (50, 0))` |
| FdMonitor.FdCountNeverNegative | fd_monitor.py:37-94 | the total is never negative; when no source answers it is the positive guess 50; a probe answer lies below 1000 |
| FdMonitor.PsutilCountsAddUp | fd_monitor.py:60-62 | a count taken from psutil satisfies `total == files + sockets`, with both parts non-negative |
| FdMonitor.AsWrittenSkipsPsutilWithConnections | fd_monitor.py:50-66 | as written, one connection with a `type` makes the psutil branch fail, and the count then comes from a later source with no sockets |
| FdMonitor.AsWrittenMissesSockets | fd_monitor.py:50-55 | a concrete input (one socket, no files) on which the as-written and corrected branches differ |
| FdMonitor.UsageOf | fd_monitor.py:111-125 | a usage ratio exists exactly when the soft limit is truthy; the ratio times the limit is the count, and the line alerts exactly when the ratio exceeds the threshold |
| FdMonitor.ChangeOf | fd_monitor.py:136-144 | a leak warning exactly when the count grew, an info line exactly when it shrank, nothing when it is unchanged; the reported difference is `final - initial` |
| FdMonitor.Monitor | fd_monitor.py:105-161 | both usage lines carry a ratio exactly when the soft limit is truthy; that ratio times the limit is the count before or after the block, and each line alerts exactly when its ratio exceeds the threshold; the change line warns of a leak exactly when the count grew and reports a decrease exactly when it shrank, each with the difference `final - initial` |
| FdMonitor.AlertIffAboveThreshold | fd_monitor.py:146-156 | for a positive soft limit, the alert is `count > threshold * soft`; for a negative one the comparison flips |
| FdMonitor.UnknownLimitNeverAlerts | fd_monitor.py:111-161 | with an unknown or zero soft limit, neither the line before nor the line after carries a ratio or an alert |
| Middleware.Critical | middleware.py:54-61 | an unknown or zero soft limit is never critical; for a positive limit the test is `fd_count > soft * max(threshold, 0.95)` |
| Middleware.ContainsIffOccurs | middleware.py:84 | the substring test used by `Dispatch` is true exactly when the marker occurs at some offset of the message |
| Middleware.ResourceMonitorMiddleware.constructor | middleware.py:19-28 | the middleware keeps the threshold it was given |
| Middleware.ResourceMonitorMiddleware.Dispatch | middleware.py:44-98 | the handler is skipped, with the 503 `resource_exhaustion` body, exactly when the soft limit is truthy and the count exceeds both `threshold * soft` and `0.95 * soft`; otherwise the handler's response is returned unchanged, a "Too many open files" exception gives the 500 `file_descriptor_limit` body, and any other exception gives the 500 body with only `detail` |
| Middleware.UnknownLimitNeverRefuses | middleware.py:54 | an unknown or zero soft limit never short-circuits a request |
| Middleware.LowThresholdCollapses | middleware.py:54-61 | with a positive soft limit and a threshold of at most 0.95 (the default 0.8 among them), 503 happens exactly when the count exceeds `0.95 * soft` |
| Middleware.HighThresholdDecides | middleware.py:54-61 | with a threshold above 0.95, 503 happens exactly when the count exceeds `threshold * soft` |
| Middleware.NegativeLimitRefusesAll | middleware.py:54-72 | a negative soft limit with a positive threshold refuses every request without calling the handler |
| Middleware.GuardAlertMatchesMonitor | middleware.py:54 | for a positive soft limit, the guard's alert test and fd_monitor's "approaching limit" test agree |
| Middleware.ErrnoMessageIsFdLimit | middleware.py:84-92 | the message of an EMFILE OSError, "[Errno 24] Too many open files", is classified as a descriptor-limit error |
| App.PctOfLimit | app.py:64 | `pct_of_limit` is null exactly when the soft limit is None or 0; otherwise it times the limit is the count |
| App.TooCloseToLimit | app.py:83 | the gate never closes for a soft limit of None or 0; for a positive limit it closes exactly when `50 * fd_count > 49 * soft`; for a negative limit it closes for every count |
| App.OpenedBeforeFailure | app.py:90-105 | the kept handles number at most the attempts; each is the handle of the attempt at its position; the attempt after them, if any, failed |
| App.OpenedBeforeFailureIff | app.py:90-105 | the handles kept by the open loop are exactly those of the attempts before the first failure, in order; the attempt after them, if any, failed |
| App.OpenedAtMostCount | app.py:90-108 | a leak adds at most `max(count, 0)` handles |
| App.AllOpensSucceed | app.py:90-108 | when every attempt succeeds, exactly `count` handles are added |
| App.CloseRaisedMembers | app.py:125-129 | a handle is reported by a cleanup exactly when it was in the registry and its close raised |
| App.PopCount | app.py:157 | the deferred cleanup pops `min(count, len)` handles: all of them for a count of at least the length, none for a count of zero or less |
| App.AfterPop | app.py:157-164 | after a deferred cleanup, the registry is a prefix of the old one, shorter by the number popped |
| App.Popped | app.py:157-164 | a deferred cleanup pops exactly `min(count, len)` handles, or none for a count of zero or less |
| App.PopSplitsRegistry | app.py:157-164 | the remaining prefix followed by the popped handles, reversed back, is the old registry: LIFO order |
| App.OverlongPopDrains | app.py:157-164 | a deferred cleanup of at least the registry's length empties it and pops every handle |
| App.DeferredCleanupUndoesLeak | app.py:108-164 | the cleanup that a leak schedules, if nothing runs in between, pops exactly the appended handles, newest first, and restores the earlier registry |
| App.GateBoundaryAtHundred | app.py:83 | at a soft limit of 100, 10 and 98 open descriptors are admitted and 99 are refused |
| App.GateCrossMultiplied | app.py:83 | for a positive soft limit, the gate closes exactly when `50 * fd_count > 49 * soft` |
| App.UnknownLimitNeverRejects | app.py:83 | a soft limit of None or 0 never closes the gate |
| App.NegativeLimitAlwaysRejects | app.py:83-87 | a negative soft limit closes the gate for every count |
| App.LeakRegistry.constructor | app.py:39 | the registry starts empty |
| App.LeakRegistry.GetResourceInfo | app.py:52-66 | `leaked_files_count` is the registry length; the count, split and limits are the sampled ones; `pct_of_limit` is null exactly when the soft limit is None or 0 |
| App.LeakRegistry.CreateFdLeak | app.py:68-117 | above 98% of a truthy soft limit: 429 with the count and limit, and the registry is unchanged; otherwise the handles opened before the first failure are appended after the old entries, in order, `total_leaked` is the new length, and a cleanup of exactly that many handles is scheduled exactly when `cleanup_after > 0` and background tasks exist |
| App.LeakRegistry.CleanupLeaks | app.py:119-145 | always leaves the registry empty, even when closes fail; reports the old length and the count and ratio sampled afterwards; returns the handles whose close raised, which are dropped all the same |
| App.LeakRegistry.CleanupLeakedFds | app.py:147-166 | the registry becomes `AfterPop` of the old one; the popped handles are `Popped`, newest first; a handle whose close raises is removed all the same and reported |

## Findings

| source | as written | input that shows it | evidently intended | confidence | as-written member | corrected member |
|---|---|---|---|---|---|---|
| fd_monitor.py:52 | `conn.type == socket` names `socket`, which fd_monitor.py never imports. Every psutil connection has a `type`, so the first connection raises NameError and the psutil branch falls back; `socket_count` is never incremented | psutil lists one connection and no open files: as written the branch fails, while it should report `(1, (0, 1))` | count the connections psutil lists as sockets and the open files as files | high; not executed | FdMonitor.PsutilCountsAsWritten | FdMonitor.PsutilCounts |

`FdMonitor.GetOpenFdCount` follows the code as written: it runs the as-written branch.
In a server process, psutil always lists at least the listening socket, so the count
then comes from `/proc/self/fd` or a later source.
`FdMonitor.AsWrittenSkipsPsutilWithConnections` states this. `FdMonitor.PsutilBranch`
is the corrected branch, proved equal to `FdMonitor.PsutilCounts`.
`FdMonitor.FdCountOf` takes the psutil outcome as a parameter, so the fallback-order
lemmas hold for both branches.

## Left out

- HTTP routing, pydantic response models, `uuid` request ids, logging, `gc.collect`,
  `time.time` durations, the `/error` endpoint and the start-up `setrlimit` block are
  not modelled. They hold no accounting logic.
- Response messages are modelled by the numbers they carry, not by the formatted
  strings, for example `LeakReply.created` for "Created N leaked file descriptors".
- Ratios are exact reals. Python's floating-point rounding of `soft_limit * 0.98`,
  `soft_limit * 0.95` and `fd_count / soft_limit` is not modelled.
- `tempfile.TemporaryFile`, `temp.write`, `temp.close`, `os.listdir`, `os.dup`/`os.close`,
  `psutil.Process` and `resource.getrlimit` are inputs. A failed `temp.write` counts
  as a failed open attempt, because the handle is then not kept.
- The background task's `time.sleep(delay)` and concurrency with other requests are not
  modelled. `CleanupLeakedFds` runs later as one sequential call, with nothing
  interleaved, so its `if leaked_files` guard never fails.
- App.LeakRegistry.CreateFdLeak: requires one outcome per open attempt
  (`count <= |opens|`). This constrains the environment input, not the caller.
- FdMonitor.GetOpenFdCount: requires one outcome for each of the 1000 probe attempts.
  This constrains the environment input, not the caller.
- The constructor's and `fd_monitor`'s log lines are modelled only through the usage
  and change values (`FdMonitor.UsageOf`, `FdMonitor.ChangeOf`). Their text and
  log levels are not modelled.
- The `fd_monitor` wrapper around the handler in `dispatch` affects only logging, so
  `Dispatch` leaves it out.
- The load-test clients test_fd_leak.py, simple_test.py and locustfile.py are not part
  of this model.
