/** The deadline arithmetic of ClockEvent and the clock-reading comparator of the timer heap. */
module Timers {
  import opened Events

  /** Clock ticks (nanoseconds) in a second. */
  const SECOND: int := 1_000_000_000

  /** duration_cast to seconds: truncates toward zero. */
  function ToSec(d: int): int {
    if d >= 0 then d / SECOND else -(-d / SECOND)
  }

  /** ClockEvent::isReady, with the clock reading `now` made explicit. */
  predicate IsReady(e: TimerEvent, now: int) {
    ToSec(now - e.begin) >= e.wait
  }

  /** ClockEvent::timeLeft, with the clock reading `now` made explicit. */
  function TimeLeft(e: TimerEvent, now: int): int {
    var time := e.wait - ToSec(now - e.begin);
    if time > 0 then time else 0
  }

  /** The instant at which the timer's wait is over. */
  function Deadline(e: TimerEvent): int {
    e.begin + e.wait * SECOND
  }

  /** Both readings lie in the same second, counting seconds from `phase`. */
  predicate SameSecond(t: int, u: int, phase: int) {
    (t - phase) / SECOND == (u - phase) / SECOND
  }

  lemma SameSecondWithin(t: int, x: int, y: int, u: int, phase: int)
    requires t <= x <= u && t <= y <= u && SameSecond(t, u, phase)
    ensures SameSecond(x, y, phase) && SameSecond(t, x, phase) && SameSecond(x, u, phase)
  {
  }

  /** `e` was started at a whole number of seconds from `phase`. */
  predicate InPhase(e: TimerEvent, phase: int) {
    (e.begin - phase) % SECOND == 0
  }

  /** `timeLeft` is the time to the deadline, rounded up to whole seconds and never negative. */
  lemma TimeLeftRoundsUp(e: TimerEvent, now: int)
    requires e.begin <= now
    ensures TimeLeft(e, now) == 0 <==> Deadline(e) <= now
    ensures TimeLeft(e, now) > 0 ==>
              (TimeLeft(e, now) - 1) * SECOND < Deadline(e) - now <= TimeLeft(e, now) * SECOND
    ensures IsReady(e, now) <==> Deadline(e) <= now
  {
    var d := now - e.begin;
    assert d == (d / SECOND) * SECOND + d % SECOND;
  }

  lemma NotReadyEither(a: TimerEvent, b: TimerEvent, now: int)
    requires a.begin <= now && b.begin <= now && TimeLeft(a, now) <= TimeLeft(b, now)
    ensures !IsReady(a, now) ==> !IsReady(b, now)
  {
    TimeLeftRoundsUp(a, now);
    TimeLeftRoundsUp(b, now);
  }

  lemma EarlierDeadlineLessTime(a: TimerEvent, b: TimerEvent, now: int)
    requires a.begin <= now && b.begin <= now && Deadline(a) <= Deadline(b)
    ensures TimeLeft(a, now) <= TimeLeft(b, now)
  {
    TimeLeftRoundsUp(a, now);
    TimeLeftRoundsUp(b, now);
  }

  /** Rounding may reverse a pair that was once in order, but never by more than a second. */
  lemma OutOfOrderByAtMostOne(a: TimerEvent, b: TimerEvent, t: int, u: int)
    requires a.begin <= t && b.begin <= t <= u
    requires TimeLeft(a, t) <= TimeLeft(b, t)
    ensures TimeLeft(a, u) <= TimeLeft(b, u) + 1
  {
    TimeLeftRoundsUp(a, t);
    TimeLeftRoundsUp(b, t);
    TimeLeftRoundsUp(a, u);
    TimeLeftRoundsUp(b, u);
  }

  /** In phase, `timeLeft` depends on the reading only through its second. */
  lemma TimeLeftInPhase(e: TimerEvent, phase: int, t: int)
    requires InPhase(e, phase) && e.begin <= t
    ensures TimeLeft(e, t) ==
            var left := (e.begin - phase) / SECOND + e.wait - (t - phase) / SECOND;
            if left > 0 then left else 0
  {
    var q := (e.begin - phase) / SECOND;
    assert e.begin - phase == q * SECOND;
    var d := t - e.begin;
    assert t - phase == d + q * SECOND;
    assert (d + q * SECOND) / SECOND == d / SECOND + q;
  }

  /** Timers started in phase with each other never change places. */
  lemma OrderPersistsInPhase(a: TimerEvent, b: TimerEvent, phase: int, t: int, u: int)
    requires InPhase(a, phase) && InPhase(b, phase)
    requires a.begin <= t && b.begin <= t <= u
    requires TimeLeft(a, t) <= TimeLeft(b, t)
    ensures TimeLeft(a, u) <= TimeLeft(b, u)
  {
    TimeLeftInPhase(a, phase, t);
    TimeLeftInPhase(b, phase, t);
    TimeLeftInPhase(a, phase, u);
    TimeLeftInPhase(b, phase, u);
    assert (t - phase) / SECOND <= (u - phase) / SECOND;
  }

  /** For two timers started at `p` and `q`: whatever their waits, once in order is always in order. */
  ghost predicate OrderPersists(p: int, q: int) {
    forall v: int, w: int, t: int, u: int ::
      p <= t && q <= t <= u &&
      TimeLeft(Clock(0, p, v, Custom(0)), t) <= TimeLeft(Clock(1, q, w, Custom(0)), t) ==>
        TimeLeft(Clock(0, p, v, Custom(0)), u) <= TimeLeft(Clock(1, q, w, Custom(0)), u)
  }

  /** Two start points out of phase: waits and instants at which a pair in order is later reversed. */
  lemma OutOfPhaseReverses(p: int, q: int) returns (v: int, w: int, t: int, u: int)
    requires (p - q) % SECOND != 0
    ensures p <= t && q <= t <= u
    ensures TimeLeft(Clock(0, p, v, Custom(0)), t) <= TimeLeft(Clock(1, q, w, Custom(0)), t)
    ensures TimeLeft(Clock(0, p, v, Custom(0)), u) > TimeLeft(Clock(1, q, w, Custom(0)), u)
  {
    // The first deadline lies a fraction of a second, (p - q) % SECOND, after the second one.
    var k := (p - q) / SECOND;
    var m := if k >= 0 then k else -k;
    v := 3 + m;
    w := v + k;
    var a, b := Clock(0, p, v, Custom(0)), Clock(1, q, w, Custom(0));
    assert p - q == k * SECOND + (p - q) % SECOND;
    assert Deadline(a) - Deadline(b) == (p - q) % SECOND;
    t, u := Deadline(a) - 2 * SECOND, Deadline(b) - SECOND;
    TimeLeftRoundsUp(a, t);
    TimeLeftRoundsUp(b, t);
    TimeLeftRoundsUp(a, u);
    TimeLeftRoundsUp(b, u);
  }

  /** Exactly the timers started a whole number of seconds apart keep their order for ever. */
  lemma OrderPersistsIffInPhase(p: int, q: int)
    ensures OrderPersists(p, q) <==> (p - q) % SECOND == 0
  {
    if (p - q) % SECOND == 0 {
      forall v: int, w: int, t: int, u: int |
        p <= t && q <= t <= u &&
        TimeLeft(Clock(0, p, v, Custom(0)), t) <= TimeLeft(Clock(1, q, w, Custom(0)), t)
        ensures TimeLeft(Clock(0, p, v, Custom(0)), u) <= TimeLeft(Clock(1, q, w, Custom(0)), u)
      {
        OrderPersistsInPhase(Clock(0, p, v, Custom(0)), Clock(1, q, w, Custom(0)), q, t, u);
      }
    } else {
      var v, w, t, u := OutOfPhaseReverses(p, q);
    }
  }

  /**
   * Two timers started at `p` and `q`, the first on top: whatever their waits, once in order, if the
   * upper one is not ready then the lower one is not either.
   */
  ghost predicate TopTells(p: int, q: int) {
    forall v: int, w: int, t: int, u: int ::
      p <= t && q <= t <= u &&
      TimeLeft(Clock(0, p, v, Custom(0)), t) <= TimeLeft(Clock(1, q, w, Custom(0)), t) &&
      !IsReady(Clock(0, p, v, Custom(0)), u) ==>
        !IsReady(Clock(1, q, w, Custom(0)), u)
  }

  /** `isReady` of the upper timer speaks for the lower one exactly if they started whole seconds apart. */
  lemma TopTellsIffInPhase(p: int, q: int)
    ensures TopTells(p, q) <==> (p - q) % SECOND == 0
  {
    if (p - q) % SECOND == 0 {
      forall v: int, w: int, t: int, u: int |
        p <= t && q <= t <= u &&
        TimeLeft(Clock(0, p, v, Custom(0)), t) <= TimeLeft(Clock(1, q, w, Custom(0)), t) &&
        !IsReady(Clock(0, p, v, Custom(0)), u)
        ensures !IsReady(Clock(1, q, w, Custom(0)), u)
      {
        var a, b := Clock(0, p, v, Custom(0)), Clock(1, q, w, Custom(0));
        OrderPersistsInPhase(a, b, q, t, u);
        TimeLeftRoundsUp(a, u);
        TimeLeftRoundsUp(b, u);
      }
    } else {
      var t, v, w := LevelWaits(p, q, if p <= q then q else p);
      var a, b := Clock(0, p, v, Custom(0)), Clock(1, q, w, Custom(0));
      var u := Deadline(b);
      TimeLeftRoundsUp(a, t);
      TimeLeftRoundsUp(b, t);
      TimeLeftRoundsUp(a, u);
      TimeLeftRoundsUp(b, u);
    }
  }

  /** The wait with which a timer started at `begin` has exactly `n` seconds left at `t`. */
  function WaitFor(begin: int, t: int, n: int): int {
    n + ToSec(t - begin)
  }

  lemma WaitForLeaves(e: TimerEvent, t: int, n: nat)
    requires e.begin <= t && e.wait == WaitFor(e.begin, t, n)
    ensures TimeLeft(e, t) == n
    ensures Deadline(e) <= t + n * SECOND
    ensures Deadline(e) == t + n * SECOND <==> (t - e.begin) % SECOND == 0
  {
    var d := t - e.begin;
    assert d == (d / SECOND) * SECOND + d % SECOND;
  }

  /** An instant, no earlier than `from`, at a whole number of seconds from `p`, and waits leaving one second at it. */
  lemma LevelWaits(p: int, q: int, from: int) returns (t: int, v: int, w: int)
    requires p <= from && q <= from && (p - q) % SECOND != 0
    ensures from <= t && (t - p) % SECOND == 0
    ensures var a, b := Clock(0, p, v, Custom(0)), Clock(1, q, w, Custom(0));
            TimeLeft(a, t) == TimeLeft(b, t) == 1 && t <= Deadline(b) < Deadline(a)
  {
    t := NextInPhase(p, from);
    v, w := WaitFor(p, t, 1), WaitFor(q, t, 1);
    var a, b := Clock(0, p, v, Custom(0)), Clock(1, q, w, Custom(0));
    WaitForLeaves(a, t, 1);
    WaitForLeaves(b, t, 1);
    PhasesDiffer(p, q, t);
    TimeLeftRoundsUp(b, t);
  }

  lemma PhasesDiffer(p: int, q: int, t: int)
    requires (t - p) % SECOND == 0 && (p - q) % SECOND != 0
    ensures (t - q) % SECOND != 0
  {
    var k := (t - p) / SECOND;
    assert t - q == (p - q) + k * SECOND;
  }

  /** The first instant from `from` on that is a whole number of seconds from `p`. */
  function NextInPhase(p: int, from: int): (t: int)
    ensures from <= t < from + SECOND && (t - p) % SECOND == 0
  {
    var t := from + (p - from) % SECOND;
    var k := (p - from) / SECOND;
    assert p - from == k * SECOND + (p - from) % SECOND;
    assert t - p == -k * SECOND;
    t
  }

  /** Compare::operator(): the left operand's reading is `tl`, the right operand's is `tr`. */
  predicate Compare(left: TimerEvent, right: TimerEvent, tl: int, tr: int) {
    TimeLeft(left, tl) >= TimeLeft(right, tr)
  }

  /** The left operand is read in the same second as the right one, or in the next. */
  predicate ReadingsAgree(tl: int, tr: int, phase: int) {
    0 <= (tl - phase) / SECOND - (tr - phase) / SECOND <= 1
  }

  /** In phase, a comparison with such readings decides the order from then on, for good. */
  lemma VerdictLasts(left: TimerEvent, right: TimerEvent, phase: int, tl: int, tr: int, to: int)
    requires InPhase(left, phase) && InPhase(right, phase) && ReadingsAgree(tl, tr, phase)
    requires left.begin <= tl <= to && right.begin <= tr <= to
    ensures if Compare(left, right, tl, tr)
            then TimeLeft(right, to) <= TimeLeft(left, to)
            else TimeLeft(left, to) <= TimeLeft(right, to)
  {
    TimeLeftInPhase(left, phase, tl);
    TimeLeftInPhase(right, phase, tr);
    TimeLeftLater(left, phase, tl, to);
    TimeLeftLater(right, phase, tr, to);
  }

  lemma TimeLeftLater(e: TimerEvent, phase: int, t: int, to: int)
    requires InPhase(e, phase) && e.begin <= t <= to
    ensures (t - phase) / SECOND <= (to - phase) / SECOND
    ensures TimeLeft(e, to) ==
            var left := (e.begin - phase) / SECOND + e.wait - (to - phase) / SECOND;
            if left > 0 then left else 0
  {
    TimeLeftInPhase(e, phase, to);
  }

  /** Every answer that readings `tl` and `tr` can produce agrees with the deadlines. */
  ghost predicate CompareIsSound(phase: int, tl: int, tr: int) {
    forall l: TimerEvent, r: TimerEvent ::
      InPhase(l, phase) && InPhase(r, phase) &&
      l.begin <= tl && l.begin <= tr && r.begin <= tl && r.begin <= tr &&
      Deadline(l) > tl && Deadline(l) > tr && Deadline(r) > tl && Deadline(r) > tr ==>
        (Compare(l, r, tl, tr) <==> Deadline(l) >= Deadline(r))
  }

  /** The comparator orders pending timers by deadline exactly when its two readings share a second. */
  lemma CompareIsSoundIffSameSecond(phase: int, tl: int, tr: int)
    ensures CompareIsSound(phase, tl, tr) <==> SameSecond(tl, tr, phase)
  {
    var sl, sr := (tl - phase) / SECOND, (tr - phase) / SECOND;
    var first := if sl <= sr then sl else sr;
    if sl == sr {
      forall l: TimerEvent, r: TimerEvent |
        InPhase(l, phase) && InPhase(r, phase) &&
        l.begin <= tl && l.begin <= tr && r.begin <= tl && r.begin <= tr &&
        Deadline(l) > tl && Deadline(l) > tr && Deadline(r) > tl && Deadline(r) > tr
        ensures Compare(l, r, tl, tr) <==> Deadline(l) >= Deadline(r)
      {
        InPhaseByDeadline(l, r, phase, tl, tr);
      }
    } else {
      // Deadlines one second apart, or equal, that the straddled second boundary makes look reversed.
      var begin := phase + first * SECOND;
      assert begin <= tl && begin <= tr;
      assert (begin - phase) % SECOND == 0;
      var gap := if sl < sr then sr - sl else sl - sr;
      var l := Clock(0, begin, gap + 2, Custom(0));
      var r := Clock(1, begin, if sl < sr then gap + 3 else gap + 2, Custom(0));
      TimeLeftInPhase(l, phase, tl);
      TimeLeftInPhase(r, phase, tr);
      assert tl < phase + (sl + 1) * SECOND && tr < phase + (sr + 1) * SECOND;
      assert Deadline(l) > tl && Deadline(l) > tr && Deadline(r) > tl && Deadline(r) > tr;
      assert Compare(l, r, tl, tr) != (Deadline(l) >= Deadline(r));
    }
  }

  lemma InPhaseByDeadline(l: TimerEvent, r: TimerEvent, phase: int, tl: int, tr: int)
    requires InPhase(l, phase) && InPhase(r, phase) && SameSecond(tl, tr, phase)
    requires l.begin <= tl && r.begin <= tr && Deadline(l) > tl && Deadline(r) > tr
    ensures Compare(l, r, tl, tr) <==> Deadline(l) >= Deadline(r)
  {
    TimeLeftInPhase(l, phase, tl);
    TimeLeftInPhase(r, phase, tr);
    TimeLeftRoundsUp(l, tl);
    TimeLeftRoundsUp(r, tr);
    assert l.begin == phase + (l.begin - phase) / SECOND * SECOND;
    assert r.begin == phase + (r.begin - phase) / SECOND * SECOND;
  }
}
