/**
 * The sliding-window throttle `RpWrapper` that every outbound request of the
 * movie provider goes through. It remembers, newest first, the times of the
 * last `RequestMaxCount` requests it let through; a call that would be the
 * next one inside a `RequestsTimeInterval`-millisecond window is deferred.
 *
 * The clock is a parameter (`now`) and a deferral is returned as a value: `get`
 * re-issues the same call after the delay, which here is simply a new call of
 * `Get` by the caller.
 */
module RateLimiter {

  /** Width of the sliding window, in milliseconds. */
  const RequestsTimeInterval: int := 10000

  /** Most requests let through per window. */
  const RequestMaxCount: nat := 30

  /** What one call of the wrapper does: forward the request, or wait `delay` ms and try again. */
  datatype Decision = Admitted | Deferred(delay: int)

  /**
   * One call at time `now` against the newest-first list `times`: the decision
   * and the list afterwards.
   */
  function Step(times: seq<int>, now: int): (r: (Decision, seq<int>))
    // deferred exactly when the list is full and its oldest entry is still inside the window
    ensures r.0.Deferred? <==>
              |times| == RequestMaxCount && now - times[|times| - 1] < RequestsTimeInterval
    // a deferral leaves the list alone and waits until the oldest entry leaves the window
    ensures r.0.Deferred? ==>
              r.1 == times && r.0.delay > 0 &&
              now + r.0.delay == times[|times| - 1] + RequestsTimeInterval
    ensures r.0.Deferred? && times[|times| - 1] <= now ==> r.0.delay <= RequestsTimeInterval
    // an admission puts `now` in front of the list, dropping only the oldest entry of a full list
    ensures r.0.Admitted? ==>
              |r.1| == (if |times| == RequestMaxCount then RequestMaxCount else |times| + 1) &&
              r.1[0] == now && r.1[1..] == times[..|r.1| - 1]
    ensures |times| <= RequestMaxCount ==> |r.1| <= RequestMaxCount
  {
    if |times| == RequestMaxCount && now - times[|times| - 1] < RequestsTimeInterval then
      (Deferred(RequestsTimeInterval - (now - times[|times| - 1])), times)
    else
      var kept := if |times| == RequestMaxCount then times[..|times| - 1] else times;
      (Admitted, [now] + kept)
  }

  function Min(a: int, b: int): int { if a <= b then a else b }

  /**
   * `times` lists, newest first, the most recent admissions of the history
   * `admitted` (oldest first), as many as fit in the list.
   */
  ghost predicate Tracks(times: seq<int>, admitted: seq<int>) {
    && |times| == Min(|admitted|, RequestMaxCount)
    && forall k :: 0 <= k < |times| ==> times[k] == admitted[|admitted| - 1 - k]
  }

  /** Every admission comes at least one window after the admission `RequestMaxCount` before it. */
  ghost predicate Spaced(admitted: seq<int>) {
    forall i :: RequestMaxCount <= i < |admitted| ==>
      admitted[i - RequestMaxCount] + RequestsTimeInterval <= admitted[i]
  }

  ghost predicate Throttled(times: seq<int>, admitted: seq<int>) {
    Tracks(times, admitted) && Spaced(admitted)
  }

  /** The admission history after one more call. */
  function Record(admitted: seq<int>, d: Decision, now: int): seq<int> {
    if d.Admitted? then admitted + [now] else admitted
  }

  /** One call keeps the list in step with the history, and the history spaced. */
  lemma StepKeepsThrottled(times: seq<int>, admitted: seq<int>, now: int)
    requires Throttled(times, admitted)
    ensures Throttled(Step(times, now).1, Record(admitted, Step(times, now).0, now))
  {
    var (d, times') := Step(times, now);
    if d.Admitted? {
      var n := |admitted|;
      var admitted' := admitted + [now];
      forall k | 0 <= k < |times'|
        ensures times'[k] == admitted'[|admitted'| - 1 - k]
      {
        if k > 0 {
          assert times'[k] == times[k - 1];
        }
      }
      if n >= RequestMaxCount {
        assert times[RequestMaxCount - 1] == admitted[n - RequestMaxCount];
      }
    }
  }

  /** The wrapper object; only its request-time list is modelled, not the request library it wraps. */
  class RpWrapper {
    /** Times of the most recent requests let through, newest first. */
    var requestTimes: seq<int>
    /** Every time a request was let through, oldest first. */
    ghost var admitted: seq<int>

    ghost predicate Valid()
      reads this
    {
      Throttled(requestTimes, admitted)
    }

    constructor ()
      ensures Valid()
      ensures requestTimes == [] && admitted == []
    {
      requestTimes := [];
      admitted := [];
    }

    /** The `get` call at time `now`. */
    method Get(now: int) returns (d: Decision)
      requires Valid()
      modifies this
      ensures Valid()
      ensures (d, requestTimes) == Step(old(requestTimes), now)
      ensures admitted == Record(old(admitted), d, now)
      ensures |requestTimes| <= RequestMaxCount
    {
      StepKeepsThrottled(requestTimes, admitted, now);
      if |requestTimes| == RequestMaxCount {
        var firstRequestTime := requestTimes[|requestTimes| - 1];
        var requestTimeDelta := now - firstRequestTime;
        if requestTimeDelta < RequestsTimeInterval {
          d := Deferred(RequestsTimeInterval - requestTimeDelta);
          return;
        }
        requestTimes := requestTimes[..|requestTimes| - 1];
      }
      requestTimes := [now] + requestTimes;
      admitted := admitted + [now];
      d := Admitted;
    }
  }

  /**
   * The list and the admission history of a fresh wrapper after calls at the
   * times `nows`, in that order (a deferred call that is retried appears again).
   */
  function Replay(nows: seq<int>): (seq<int>, seq<int>)
  {
    if nows == [] then ([], [])
    else
      var (times, admitted) := Replay(nows[..|nows| - 1]);
      var now := nows[|nows| - 1];
      var (d, times') := Step(times, now);
      (times', Record(admitted, d, now))
  }

  /** The decision of each call, in call order: call `k` is decided by `Step` on the list the earlier calls left. */
  function Decisions(nows: seq<int>): (ds: seq<Decision>)
    ensures |ds| == |nows|
  {
    if nows == [] then []
    else
      var prefix := nows[..|nows| - 1];
      Decisions(prefix) + [Step(Replay(prefix).0, nows[|nows| - 1]).0]
  }

  /** Call `k` is decided on the list left by the calls before it, whatever comes after. */
  lemma {:induction false} DecisionsAt(nows: seq<int>, k: nat)
    requires k < |nows|
    ensures Decisions(nows)[k] == Step(Replay(nows[..k]).0, nows[k]).0
  {
    var prefix := nows[..|nows| - 1];
    if k < |prefix| {
      DecisionsAt(prefix, k);
      assert prefix[..k] == nows[..k];
    }
  }

  /** Whatever calls are made, the list holds at most 30 times and the history stays spaced. */
  lemma {:induction false} ReplayThrottled(nows: seq<int>)
    ensures Throttled(Replay(nows).0, Replay(nows).1)
    ensures |Replay(nows).0| <= RequestMaxCount
  {
    if nows != [] {
      var prefix := nows[..|nows| - 1];
      ReplayThrottled(prefix);
      StepKeepsThrottled(Replay(prefix).0, Replay(prefix).1, nows[|nows| - 1]);
    }
  }

  /**
   * A fresh wrapper called at the times `nows`, in order: its list and its
   * history end as `Replay` says, and it returns every decision it made.
   */
  method Run(nows: seq<int>) returns (w: RpWrapper, decisions: seq<Decision>)
    ensures fresh(w) && w.Valid()
    ensures (w.requestTimes, w.admitted) == Replay(nows)
    ensures |decisions| == |nows|
    ensures decisions == Decisions(nows)
  {
    w := new RpWrapper();
    decisions := [];
    for n := 0 to |nows|
      invariant w.Valid() && |decisions| == n
      invariant (w.requestTimes, w.admitted) == Replay(nows[..n])
      invariant decisions == Decisions(nows[..n])
    {
      assert nows[..n + 1][..n] == nows[..n];
      ghost var step := Step(w.requestTimes, nows[n]);
      assert Replay(nows[..n + 1]) == (step.1, Record(w.admitted, step.0, nows[n]));
      var d := w.Get(nows[n]);
      decisions := decisions + [d];
    }
    assert nows[..|nows|] == nows;
  }

  ghost predicate NonDecreasing(s: seq<int>) {
    forall i, j :: 0 <= i < j < |s| ==> s[i] <= s[j]
  }

  ghost predicate NewestFirst(s: seq<int>) {
    forall i, j :: 0 <= i < j < |s| ==> s[j] <= s[i]
  }

  /**
   * With a clock that never goes back, admissions happen in time order, none
   * later than the last call.
   */
  lemma {:induction false} ReplayInOrder(nows: seq<int>)
    requires NonDecreasing(nows)
    ensures NonDecreasing(Replay(nows).1)
    ensures forall k :: 0 <= k < |Replay(nows).1| ==> Replay(nows).1[k] <= nows[|nows| - 1]
  {
    if nows != [] {
      var prefix := nows[..|nows| - 1];
      ReplayInOrder(prefix);
    }
  }

  /** With a clock that never goes back, the request-time list stays sorted newest first. */
  lemma ReplayNewestFirst(nows: seq<int>)
    requires NonDecreasing(nows)
    ensures NewestFirst(Replay(nows).0)
  {
    ReplayInOrder(nows);
    ReplayThrottled(nows);
  }

  /** Indices of the admissions that fall in the window of `RequestsTimeInterval` ms starting at `t`. */
  ghost function InWindow(admitted: seq<int>, t: int): set<int> {
    set i | 0 <= i < |admitted| && t <= admitted[i] < t + RequestsTimeInterval
  }

  lemma SubsetSize(a: set<int>, b: set<int>)
    requires a <= b
    ensures |a| <= |b|
  {
    assert a + (b - a) == b;
    assert a !! (b - a);
  }

  /** Admissions `i` and `j` of the same residue modulo `RequestMaxCount` are a whole window apart. */
  lemma {:induction false} Chain(admitted: seq<int>, i: int, j: int)
    requires Spaced(admitted)
    requires 0 <= i < j < |admitted| && i % RequestMaxCount == j % RequestMaxCount
    ensures admitted[i] + RequestsTimeInterval <= admitted[j]
    decreases j - i
  {
    if j - RequestMaxCount > i {
      Chain(admitted, i, j - RequestMaxCount);
    }
  }

  /**
   * The first index from `j` on, in steps of `RequestMaxCount`, whose admission
   * falls in the window starting at `t`; past the end if there is none.
   */
  function FirstInWindow(admitted: seq<int>, t: int, j: nat): (r: nat)
    ensures j <= r && r % RequestMaxCount == j % RequestMaxCount
    ensures r < |admitted| ==> t <= admitted[r] < t + RequestsTimeInterval
    ensures forall i :: j <= i < r && i < |admitted| && i % RequestMaxCount == j % RequestMaxCount ==>
              !(t <= admitted[i] < t + RequestsTimeInterval)
    decreases |admitted| - j
  {
    if |admitted| <= j || t <= admitted[j] < t + RequestsTimeInterval then j
    else FirstInWindow(admitted, t, j + RequestMaxCount)
  }

  /** The admissions in the window whose index has residue `c`. */
  ghost function InClass(admitted: seq<int>, t: int, c: int): set<int> {
    set i | i in InWindow(admitted, t) && i % RequestMaxCount == c
  }

  /** The admissions in the window whose index has residue below `k`. */
  ghost function InLowClasses(admitted: seq<int>, t: int, k: int): set<int> {
    set i | i in InWindow(admitted, t) && i % RequestMaxCount < k
  }

  /** A spaced history has at most one admission of each residue in a window. */
  lemma ClassBound(admitted: seq<int>, t: int, c: nat)
    requires Spaced(admitted) && c < RequestMaxCount
    ensures |InClass(admitted, t, c)| <= 1
  {
    var f := FirstInWindow(admitted, t, c);
    forall i | i in InClass(admitted, t, c)
      ensures i == f
    {
      if f < i {
        Chain(admitted, f, i);
      }
    }
    SubsetSize(InClass(admitted, t, c), {f});
  }

  lemma {:induction false} LowClassesBound(admitted: seq<int>, t: int, k: nat)
    requires Spaced(admitted) && k <= RequestMaxCount
    ensures |InLowClasses(admitted, t, k)| <= k
  {
    if k == 0 {
      assert InLowClasses(admitted, t, k) == {};
    } else {
      LowClassesBound(admitted, t, k - 1);
      ClassBound(admitted, t, k - 1);
      assert InLowClasses(admitted, t, k) ==
             InLowClasses(admitted, t, k - 1) + InClass(admitted, t, k - 1);
    }
  }

  /**
   * A spaced history has at most `RequestMaxCount` admissions in any window of
   * `RequestsTimeInterval` ms, whatever order its times come in.
   */
  lemma WindowBound(admitted: seq<int>, t: int)
    requires Spaced(admitted)
    ensures |InWindow(admitted, t)| <= RequestMaxCount
  {
    LowClassesBound(admitted, t, RequestMaxCount);
    assert InLowClasses(admitted, t, RequestMaxCount) == InWindow(admitted, t);
  }

  /**
   * Whatever calls are made, even with a clock that goes back, no window of
   * `RequestsTimeInterval` ms holds more than `RequestMaxCount` admitted requests.
   */
  lemma ReplayWindowBound(nows: seq<int>, t: int)
    ensures |InWindow(Replay(nows).1, t)| <= RequestMaxCount
  {
    ReplayThrottled(nows);
    WindowBound(Replay(nows).1, t);
  }
}
