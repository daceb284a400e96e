/** The fixed-window limiter of the integration API. Times are non-decreasing in the order in
    which requests take the lock; window length and maximum do not change during a trace. */
module RateLimiter {
  import opened Common

  /** The start of the current window and the requests counted in it, rejected ones included. */
  datatype Window = Window(start: real, count: nat)

  datatype Verdict = Allowed | Limited(retryAfter: int)

  datatype Settings = Settings(enabled: bool, windowSeconds: int, maxRequests: int)
  {
    function Length(): (n: int) ensures n >= 1 { if windowSeconds > 1 then windowSeconds else 1 }
    function Maximum(): (n: int) ensures n >= 1 { if maxRequests > 1 then maxRequests else 1 }
  }

  function Advance(entry: Option<Window>, now: real, length: int): Window {
    match entry
    case None => Window(now, 1)
    case Some(w) => if now - w.start >= length as real then Window(now, 1) else Window(w.start, w.count + 1)
  }

  /** `int` truncates a positive remainder. */
  function RetryAfter(w: Window, now: real, length: int): int {
    var remaining := (length as real - (now - w.start)).Floor;
    if remaining > 1 then remaining else 1
  }

  function Lookup(windows: map<string, Window>, subject: string): Option<Window> {
    if subject in windows then Some(windows[subject]) else None
  }

  class Limiter {
    var windows: map<string, Window>

    constructor ()
      ensures windows == map[]
    {
      windows := map[];
    }

    method Check(subject: string, now: real, settings: Settings) returns (r: Verdict)
      modifies this
      ensures !settings.enabled ==> r == Allowed && windows == old(windows)
      ensures settings.enabled ==>
                var w := Advance(Lookup(old(windows), subject), now, settings.Length());
                && windows == old(windows)[subject := w]
                && r == if w.count <= settings.Maximum() then Allowed
                        else Limited(RetryAfter(w, now, settings.Length()))
      ensures settings.enabled ==>
                && subject in windows
                && (forall other :: other != subject ==>
                      (other in windows <==> other in old(windows))
                      && (other in windows ==> windows[other] == old(windows)[other]))
                && var length := if settings.windowSeconds > 1 then settings.windowSeconds else 1;
                   var maximum := if settings.maxRequests > 1 then settings.maxRequests else 1;
                   var w := windows[subject];
                   var left := length as real - (now - w.start);
                   && (if subject !in old(windows) || now - old(windows)[subject].start >= length as real
                       then w.start == now && w.count == 1
                       else w.start == old(windows)[subject].start && w.count == old(windows)[subject].count + 1)
                   && (r == Allowed <==> w.count <= maximum)
                   && (r.Limited? ==> if left < 2.0 then r.retryAfter == 1
                                      else r.retryAfter as real <= left < r.retryAfter as real + 1.0)
    {
      if !settings.enabled { return Allowed; }
      var start, count := now, 0;
      if subject in windows { start, count := windows[subject].start, windows[subject].count; }
      if now - start >= settings.Length() as real { start, count := now, 0; }
      count := count + 1;
      windows := windows[subject := Window(start, count)];
      if count <= settings.Maximum() { return Allowed; }
      return Limited(RetryAfter(Window(start, count), now, settings.Length()));
    }
  }

  // ---------- A subject's decisions depend only on its own requests ----------

  datatype Request = Request(subject: string, now: real)

  /** The verdict (accepted or not) of every request of a trace of calls to Check. */
  function Decisions(windows: map<string, Window>, trace: seq<Request>, length: int, maximum: int): seq<bool>
    decreases |trace|
  {
    if trace == [] then []
    else
      var w := Advance(Lookup(windows, trace[0].subject), trace[0].now, length);
      [w.count <= maximum] + Decisions(windows[trace[0].subject := w], trace[1..], length, maximum)
  }

  function OwnTimes(trace: seq<Request>, subject: string): seq<real> {
    if trace == [] then []
    else (if trace[0].subject == subject then [trace[0].now] else []) + OwnTimes(trace[1..], subject)
  }

  function OwnDecisions(trace: seq<Request>, decisions: seq<bool>, subject: string): seq<bool>
    requires |trace| == |decisions|
  {
    if trace == [] then []
    else
      (if trace[0].subject == subject then [decisions[0]] else [])
      + OwnDecisions(trace[1..], decisions[1..], subject)
  }

  /** The limiter as one subject alone would see it. */
  function SoloDecisions(entry: Option<Window>, times: seq<real>, length: int, maximum: int): seq<bool>
    decreases |times|
  {
    if times == [] then []
    else
      var w := Advance(entry, times[0], length);
      [w.count <= maximum] + SoloDecisions(Some(w), times[1..], length, maximum)
  }

  lemma {:induction false} DecisionsLength(windows: map<string, Window>, trace: seq<Request>, length: int, maximum: int)
    ensures |Decisions(windows, trace, length, maximum)| == |trace|
    decreases |trace|
  {
    if trace != [] {
      var w := Advance(Lookup(windows, trace[0].subject), trace[0].now, length);
      DecisionsLength(windows[trace[0].subject := w], trace[1..], length, maximum);
    }
  }

  lemma {:induction false} SubjectsAreIndependent(windows: map<string, Window>, trace: seq<Request>, length: int,
                                                  maximum: int, subject: string)
    ensures |Decisions(windows, trace, length, maximum)| == |trace|
    ensures OwnDecisions(trace, Decisions(windows, trace, length, maximum), subject)
            == SoloDecisions(Lookup(windows, subject), OwnTimes(trace, subject), length, maximum)
    decreases |trace|
  {
    DecisionsLength(windows, trace, length, maximum);
    if trace != [] {
      var w := Advance(Lookup(windows, trace[0].subject), trace[0].now, length);
      var rest := Decisions(windows[trace[0].subject := w], trace[1..], length, maximum);
      assert Decisions(windows, trace, length, maximum)[1..] == rest;
      SubjectsAreIndependent(windows[trace[0].subject := w], trace[1..], length, maximum, subject);
      if trace[0].subject == subject {
        assert OwnTimes(trace, subject)[1..] == OwnTimes(trace[1..], subject);
      } else {
        assert OwnTimes(trace, subject) == OwnTimes(trace[1..], subject);
        assert Lookup(windows[trace[0].subject := w], subject) == Lookup(windows, subject);
      }
    }
  }

  // ---------- The sliding-window bound ----------

  ghost predicate NonDecreasing(times: seq<real>) {
    forall i, j :: 0 <= i < j < |times| ==> times[i] <= times[j]
  }

  /** Accepted requests with t <= time < t + length. */
  function AcceptedIn(entry: Option<Window>, times: seq<real>, length: int, maximum: int, t: real): nat
    decreases |times|
  {
    if times == [] then 0
    else
      var w := Advance(entry, times[0], length);
      (if w.count <= maximum && t <= times[0] < t + length as real then 1 else 0)
      + AcceptedIn(Some(w), times[1..], length, maximum, t)
  }

  lemma {:induction false} NoneAfter(entry: Option<Window>, times: seq<real>, length: int, maximum: int, t: real)
    requires forall i :: 0 <= i < |times| ==> times[i] >= t + length as real
    ensures AcceptedIn(entry, times, length, maximum, t) == 0
    decreases |times|
  {
    if times != [] { NoneAfter(Some(Advance(entry, times[0], length)), times[1..], length, maximum, t); }
  }

  function Left(count: nat, maximum: int): int {
    if count <= maximum then maximum - count else 0
  }

  /** What a window in state `w`, last used at `last`, still lets into the interval from `t`. */
  function Allowance(w: Window, last: real, maximum: int, t: real): int {
    if w.start >= t then Left(w.count, maximum)
    else if last >= t then Left(w.count, maximum) + maximum
    else 2 * maximum - 1
  }

  lemma {:induction false} AllowanceHolds(w: Window, last: real, times: seq<real>, length: int, maximum: int, t: real)
    requires NonDecreasing(times) && (times != [] ==> last <= times[0])
    requires w.start <= last && w.count >= 1 && length >= 1 && maximum >= 1
    ensures AcceptedIn(Some(w), times, length, maximum, t) <= Allowance(w, last, maximum, t)
    decreases |times|
  {
    if times != [] {
      var x := times[0];
      var next := Advance(Some(w), x, length);
      if x >= t + length as real {
        NoneAfter(Some(w), times, length, maximum, t);
      } else {
        AllowanceHolds(next, x, times[1..], length, maximum, t);
      }
    }
  }

  /** Any half-open interval as long as the window holds at most 2 * maximum - 1 accepted requests
      of a subject: the request that starts an earlier window lies before the interval. */
  lemma SlidingWindowBound(times: seq<real>, length: int, maximum: int, t: real)
    requires NonDecreasing(times) && length >= 1 && maximum >= 1
    ensures AcceptedIn(None, times, length, maximum, t) <= 2 * maximum - 1
  {
    if times != [] {
      var first := Advance(None, times[0], length);
      if times[0] >= t + length as real {
        NoneAfter(None, times, length, maximum, t);
      } else {
        AllowanceHolds(first, times[0], times[1..], length, maximum, t);
      }
    }
  }

  /** Accepted requests of the interval, counted from times and verdicts. */
  function CountIn(times: seq<real>, verdicts: seq<bool>, length: int, t: real): nat
    requires |times| == |verdicts|
  {
    if times == [] then 0
    else
      (if verdicts[0] && t <= times[0] < t + length as real then 1 else 0)
      + CountIn(times[1..], verdicts[1..], length, t)
  }

  lemma {:induction false} SoloCount(entry: Option<Window>, times: seq<real>, length: int, maximum: int, t: real)
    ensures |SoloDecisions(entry, times, length, maximum)| == |times|
    ensures CountIn(times, SoloDecisions(entry, times, length, maximum), length, t)
            == AcceptedIn(entry, times, length, maximum, t)
    decreases |times|
  {
    if times != [] {
      var w := Advance(entry, times[0], length);
      var rest := SoloDecisions(Some(w), times[1..], length, maximum);
      SoloCount(Some(w), times[1..], length, maximum, t);
      assert ([w.count <= maximum] + rest)[1..] == rest;
    }
  }

  lemma {:induction false} OwnTimesOrdered(trace: seq<Request>, subject: string)
    requires forall i, j :: 0 <= i < j < |trace| ==> trace[i].now <= trace[j].now
    ensures NonDecreasing(OwnTimes(trace, subject))
    ensures forall x :: x in OwnTimes(trace, subject) ==> trace != [] && trace[0].now <= x
  {
    if |trace| > 0 {
      OwnTimesOrdered(trace[1..], subject);
      var rest := OwnTimes(trace[1..], subject);
      assert forall i :: 0 <= i < |rest| ==> rest[i] in rest;
    }
  }

  /** The bound in a trace of all subjects, from a limiter that starts empty. */
  lemma TraceBound(trace: seq<Request>, subject: string, length: int, maximum: int, t: real)
    requires forall i, j :: 0 <= i < j < |trace| ==> trace[i].now <= trace[j].now
    requires length >= 1 && maximum >= 1
    ensures |Decisions(map[], trace, length, maximum)| == |trace|
    ensures var own := OwnDecisions(trace, Decisions(map[], trace, length, maximum), subject);
            |own| == |OwnTimes(trace, subject)| && CountIn(OwnTimes(trace, subject), own, length, t) <= 2 * maximum - 1
  {
    SubjectsAreIndependent(map[], trace, length, maximum, subject);
    SoloCount(None, OwnTimes(trace, subject), length, maximum, t);
    OwnTimesOrdered(trace, subject);
    SlidingWindowBound(OwnTimes(trace, subject), length, maximum, t);
  }

  function Repeat(x: real, n: nat): seq<real> {
    if n == 0 then [] else [x] + Repeat(x, n - 1)
  }

  /** A burst inside one window is accepted as far as the maximum allows. */
  lemma {:induction false} BurstAccepted(w: Window, x: real, n: nat, rest: seq<real>, length: int, maximum: int,
                                         t: real)
    requires w.start <= x < w.start + length as real && t <= x < t + length as real && w.count + n <= maximum
    ensures AcceptedIn(Some(w), Repeat(x, n) + rest, length, maximum, t)
            == n + AcceptedIn(Some(Window(w.start, w.count + n)), rest, length, maximum, t)
    decreases n
  {
    if n == 0 {
      assert Repeat(x, 0) + rest == rest;
    } else {
      assert (Repeat(x, n) + rest)[1..] == Repeat(x, n - 1) + rest;
      BurstAccepted(Window(w.start, w.count + 1), x, n - 1, rest, length, maximum, t);
    }
  }

  lemma {:induction false} RepeatIs(x: real, n: nat)
    ensures |Repeat(x, n)| == n && forall i :: 0 <= i < n ==> Repeat(x, n)[i] == x
  {
    if n > 0 { RepeatIs(x, n - 1); }
  }

  /** The bound is reached for every window length and maximum. */
  lemma SlidingWindowBoundIsTight(length: int, maximum: int) returns (times: seq<real>, t: real)
    requires length >= 1 && maximum >= 1
    ensures NonDecreasing(times) && AcceptedIn(None, times, length, maximum, t) == 2 * maximum - 1
  {
    hide NonDecreasing, Repeat;
    t := length as real - 0.5;
    var end := length as real;
    var early, late := Repeat(t, maximum - 1), [end] + Repeat(end, maximum - 1);
    times := [0.0] + (early + late);
    BurstsOrdered(t, end, maximum - 1);
    assert times[1..] == early + late;
    FirstRequest(early + late, length, maximum, t);
    BurstAccepted(Window(0.0, 1), t, maximum - 1, late, length, maximum, t);
    SecondBurst(end, length, maximum, t);
  }

  lemma BurstsOrdered(t: real, end: real, n: nat)
    requires 0.0 <= t <= end
    ensures NonDecreasing([0.0] + (Repeat(t, n) + ([end] + Repeat(end, n))))
  {
    RepeatIs(t, n);
    RepeatIs(end, n);
  }

  /** A first request at 0, before the interval. */
  lemma FirstRequest(rest: seq<real>, length: int, maximum: int, t: real)
    requires length >= 1 && t > 0.0
    ensures AcceptedIn(None, [0.0] + rest, length, maximum, t)
            == AcceptedIn(Some(Window(0.0, 1)), rest, length, maximum, t)
  {
    assert ([0.0] + rest)[1..] == rest;
  }

  lemma SecondBurst(end: real, length: int, maximum: int, t: real)
    requires end == length as real && t == end - 0.5 && length >= 1 && maximum >= 1
    ensures AcceptedIn(Some(Window(0.0, maximum)), [end] + Repeat(end, maximum - 1), length, maximum, t) == maximum
  {
    var late := Repeat(end, maximum - 1);
    assert ([end] + late)[1..] == late && late + [] == late;
    BurstAccepted(Window(end, 1), end, maximum - 1, [], length, maximum, t);
  }

  // ---------- Retry-After ----------

  /** After a rejection at `now`, waiting the advertised seconds gets the subject's next request
      accepted exactly when at most one second or a whole number of seconds of the window was
      left; otherwise the truncation makes it come too early. Further rejections in between only
      raise the count. */
  lemma RetryAfterSuffices(w: Window, now: real, length: int, maximum: int, later: Window)
    requires w.count > maximum >= 1 && w.start <= now && now - w.start < length as real
    requires later.start == w.start && later.count >= w.count
    ensures var left := length as real - (now - w.start);
            Advance(Some(later), now + RetryAfter(w, now, length) as real, length).count <= maximum
            <==> left <= 1.0 || left == left.Floor as real
  {
  }

  /** Three rejections 2.5 seconds before a window of ten seconds ends: 2 seconds are advertised,
      and after them the subject is rejected again. */
  lemma RetryAfterCanBeTooShort()
    ensures var w := Window(0.0, 3);
            && RetryAfter(w, 7.5, 10) == 2
            && Advance(Some(w), 7.5 + 2.0, 10) == Window(0.0, 4)
  {
    assert (2.5 as real).Floor == 2;
  }

  /** Rejected requests never move the start of a window. */
  lemma RejectedKeepsStart(w: Window, now: real, length: int, maximum: int)
    requires maximum >= 1 && Advance(Some(w), now, length).count > maximum
    ensures Advance(Some(w), now, length).start == w.start && now - w.start < length as real
  {
  }
}
