/**
 Model of middleware.py: the request guard that samples the descriptor count
 before a request, answers 503 when usage is critical, and maps the handler's
 exceptions to 500 responses.

 The sampled soft limit and descriptor count, and the handler's outcome, are
 inputs; logging, request ids and the fd_monitor wrapper's log lines are not
 modelled here (the latter is FdMonitor.Monitor).
 */
module Middleware {
  import opened Wrappers
  import FdMonitor

  /** A response: status code and JSON body fields. */
  datatype HttpResponse = HttpResponse(status: int, body: map<string, string>)

  /** What the downstream handler did: returned a response, or raised with a message. */
  datatype HandlerOutcome = Returned(response: HttpResponse) | Raised(message: string)

  /** The guard's answer, and whether the handler was invoked at all. */
  datatype Dispatched = Dispatched(invoked: bool, response: HttpResponse)

  /** Fraction of the soft limit above which a request is refused. */
  const CriticalRatio: real := 0.95

  /** The marker of a descriptor-exhaustion error in an exception message. */
  const FdLimitMarker: string := "Too many open files"

  const Overloaded: HttpResponse :=
    HttpResponse(503, map["detail" := "Server is experiencing high load. Please try again later.",
                          "type" := "resource_exhaustion"])

  const FdLimitReached: HttpResponse :=
    HttpResponse(500, map["detail" := "Server encountered a resource limit. Please try again later.",
                          "type" := "file_descriptor_limit"])

  const InternalError: HttpResponse :=
    HttpResponse(500, map["detail" := "Internal server error"])

  /** Python's `sub in s` on strings, scanning from the left. */
  function Contains(s: string, sub: string): bool
    decreases |s|
  {
    if sub <= s then true
    else if |s| <= |sub| then false
    else Contains(s[1..], sub)
  }

  /** `sub` occurs in `s` starting at offset `i`. */
  predicate OccursAt(s: string, sub: string, i: int)
  {
    0 <= i && i + |sub| <= |s| && s[i..i + |sub|] == sub
  }

  /** `Contains` is exactly "`sub` occurs at some offset of `s`". */
  lemma {:induction false} ContainsIffOccurs(s: string, sub: string)
    ensures Contains(s, sub) <==> exists i :: OccursAt(s, sub, i)
    decreases |s|
  {
    if sub <= s {
      assert OccursAt(s, sub, 0);
    } else if |s| <= |sub| {
      if exists i :: OccursAt(s, sub, i) {
        assert false;
      }
    } else {
      ContainsIffOccurs(s[1..], sub);
      forall i | OccursAt(s, sub, i)
        ensures OccursAt(s[1..], sub, i - 1)
      {
        assert i != 0 by { assert s[..|sub|] == s[0..|sub|]; }
        assert s[1..][i - 1..i - 1 + |sub|] == s[i..i + |sub|];
      }
      forall i | OccursAt(s[1..], sub, i)
        ensures OccursAt(s, sub, i + 1)
      {
        assert s[i + 1..i + 1 + |sub|] == s[1..][i..i + |sub|];
      }
    }
  }

  /**
   The short-circuit test: a truthy soft limit, usage above the alert
   threshold, and usage above 95% of the soft limit.
   */
  predicate Critical(soft: Option<int>, fdCount: int, alertThreshold: real)
    ensures !FdMonitor.Known(soft) ==> !Critical(soft, fdCount, alertThreshold)
    ensures (soft.Some? && soft.value > 0)
              ==> (Critical(soft, fdCount, alertThreshold)
                   <==> fdCount as real > soft.value as real * (if alertThreshold > CriticalRatio then alertThreshold else CriticalRatio))
  {
    && FdMonitor.Known(soft)
    && fdCount as real > soft.value as real * alertThreshold
    && fdCount as real > soft.value as real * CriticalRatio
  }

  class ResourceMonitorMiddleware {
    /** Set once by the constructor; `Dispatch` only reads it. */
    const alertThreshold: real

    /** Stores the threshold (default 0.8); the constructor's log line is not modelled. */
    constructor (alertThreshold: real)
      ensures this.alertThreshold == alertThreshold
    {
      this.alertThreshold := alertThreshold;
    }

    /**
     One request: 503 without invoking the handler when usage is critical;
     otherwise the handler's response unchanged, or a 500 whose kind depends on
     whether the exception message mentions "Too many open files".
     */
    function Dispatch(soft: Option<int>, fdCount: int, handler: HandlerOutcome): (d: Dispatched)
      ensures !d.invoked <==> Critical(soft, fdCount, alertThreshold)
      ensures !d.invoked ==> d.response == Overloaded
      ensures d.invoked && handler.Returned? ==> d.response == handler.response
      ensures (d.invoked && handler.Raised? && Contains(handler.message, FdLimitMarker))
                ==> d.response == FdLimitReached
      ensures (d.invoked && handler.Raised? && !Contains(handler.message, FdLimitMarker))
                ==> d.response == InternalError
    {
      if Critical(soft, fdCount, alertThreshold) then Dispatched(false, Overloaded)
      else
        match handler
        case Returned(response) => Dispatched(true, response)
        case Raised(message) =>
          if Contains(message, FdLimitMarker) then Dispatched(true, FdLimitReached)
          else Dispatched(true, InternalError)
    }
  }

  /** An unknown or zero soft limit never short-circuits a request. */
  lemma UnknownLimitNeverRefuses(m: ResourceMonitorMiddleware, soft: Option<int>, fdCount: int, handler: HandlerOutcome)
    requires !FdMonitor.Known(soft)
    ensures m.Dispatch(soft, fdCount, handler).invoked
  {
  }

  /**
   With a positive soft limit and a threshold at most 0.95 (the default 0.8
   among them), the outer test is implied by the inner one: the request is
   refused exactly when usage exceeds 95% of the soft limit.
   */
  lemma LowThresholdCollapses(soft: int, fdCount: int, alertThreshold: real)
    requires soft > 0 && alertThreshold <= CriticalRatio
    ensures Critical(Some(soft), fdCount, alertThreshold) <==> fdCount as real > soft as real * CriticalRatio
  {
    assert soft as real * alertThreshold <= soft as real * CriticalRatio;
  }

  /** With a threshold above 0.95, the alert threshold alone decides. */
  lemma HighThresholdDecides(soft: int, fdCount: int, alertThreshold: real)
    requires soft > 0 && alertThreshold > CriticalRatio
    ensures Critical(Some(soft), fdCount, alertThreshold) <==> fdCount as real > soft as real * alertThreshold
  {
    assert soft as real * alertThreshold > soft as real * CriticalRatio;
  }

  /**
   A negative soft limit (RLIM_INFINITY is -1 in CPython on Linux) is truthy,
   so with a positive threshold every request is refused with 503.
   */
  lemma NegativeLimitRefusesAll(m: ResourceMonitorMiddleware, soft: int, fdCount: int, handler: HandlerOutcome)
    requires soft < 0 && fdCount >= 0 && m.alertThreshold > 0.0
    ensures m.Dispatch(Some(soft), fdCount, handler) == Dispatched(false, Overloaded)
  {

  }

  /** The default middleware refuses exactly above 95% of a positive soft limit. */
  method DefaultMiddlewareScenario(soft: int, fdCount: int, handler: HandlerOutcome)
    requires soft > 0
  {
    var m := new ResourceMonitorMiddleware(FdMonitor.DefaultAlertThreshold);
    LowThresholdCollapses(soft, fdCount, m.alertThreshold);
    var d := m.Dispatch(Some(soft), fdCount, handler);
    assert !d.invoked <==> fdCount as real > soft as real * 0.95;
  }

  /**
   The guard's alert test and fd_monitor's "approaching limit" line agree for a
   positive soft limit: both compare the count against threshold * soft.
   */
  lemma GuardAlertMatchesMonitor(soft: int, fdCount: int, alertThreshold: real)
    requires soft > 0
    ensures (FdMonitor.UsageOf(Some(soft), fdCount, alertThreshold).alert
             <==> fdCount as real > soft as real * alertThreshold)
  {

  }

  /** The message of an EMFILE OSError is classified as a descriptor-limit error. */
  lemma ErrnoMessageIsFdLimit()
    ensures Contains("[Errno 24] Too many open files", FdLimitMarker)
  {
    var message := "[Errno 24] Too many open files";
    assert message[11..] == FdLimitMarker;
    assert OccursAt(message, FdLimitMarker, 11);
    ContainsIffOccurs(message, FdLimitMarker);
  }
}
