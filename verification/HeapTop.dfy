/**
 * Exactly when the top of the heap speaks for all of it: the start points of the timers, and the clock
 * readings of the comparisons, with which a top that is not ready means that none is.
 */
module HeapTop {
  import opened Events
  import opened HeapSpec
  import opened Timers

  /** `b` has been pushed onto `a` with these readings, and at `u` the top speaks for both. */
  ghost predicate ToldRight(a: TimerEvent, b: TimerEvent, r: Reading, u: int) {
    var s := AfterPush([a], b, [r]);
    s.Sifted? && |s.heap| == 2 && (!IsReady(s.heap[0], u) ==> !IsReady(s.heap[1], u))
  }

  /** Whichever two timers, started in phase, are compared with these readings: the top speaks for both. */
  ghost predicate PushTells(r: Reading, phase: int) {
    forall a: TimerEvent, b: TimerEvent, u: int ::
      InPhase(a, phase) && InPhase(b, phase) &&
      a.begin <= r.left <= u && a.begin <= r.right <= u && b.begin <= r.left && b.begin <= r.right ==>
        ToldRight(a, b, r, u)
  }

  lemma PushedOntoOne(a: TimerEvent, b: TimerEvent, r: Reading)
    ensures AfterPush([a], b, [r]) == Sifted(if Compare(a, b, r.left, r.right) then [b, a] else [a, b])
  {
    assert [a] + [b] == [a, b];
    if Compare(a, b, r.left, r.right) {
      assert Risen([a, b][1 := a], 0, b, []) == Sifted([b, a]);
    } else {
      assert [a, b][1 := b] == [a, b];
    }
  }

  /** Reading the left operand earlier by a second, or later by two, is exactly what can misplace a timer. */
  lemma PushTellsIffAgree(r: Reading, phase: int)
    ensures PushTells(r, phase) <==> ReadingsAgree(r.left, r.right, phase)
  {
    hide Risen, IsReady, TimeLeft;
    if ReadingsAgree(r.left, r.right, phase) {
      hide ReadingsAgree, InPhase;
      forall a: TimerEvent, b: TimerEvent, u: int |
        InPhase(a, phase) && InPhase(b, phase) &&
        a.begin <= r.left <= u && a.begin <= r.right <= u && b.begin <= r.left && b.begin <= r.right
        ensures ToldRight(a, b, r, u)
      {
        PushedOntoOne(a, b, r);
        VerdictLasts(a, b, phase, r.left, r.right, u);
        if Compare(a, b, r.left, r.right) {
          NotReadyEither(b, a, u);
        } else {
          NotReadyEither(a, b, u);
        }
      }
    } else {
      var a, b, u := DisagreeMisplaces(r, phase);
      PushedOntoOne(a, b, r);
      assert !ToldRight(a, b, r, u);
    }
  }

  /** Deadlines a second apart that such readings put in the wrong order. */
  lemma DisagreeMisplaces(r: Reading, phase: int) returns (a: TimerEvent, b: TimerEvent, u: int)
    requires !ReadingsAgree(r.left, r.right, phase)
    ensures InPhase(a, phase) && InPhase(b, phase)
    ensures a.begin == b.begin <= r.left <= u && b.begin <= r.right <= u
    ensures if Compare(a, b, r.left, r.right) then IsReady(a, u) && !IsReady(b, u) else IsReady(b, u) && !IsReady(a, u)
  {
    var sl, sr := (r.left - phase) / SECOND, (r.right - phase) / SECOND;
    var first, last := if sl <= sr then sl else sr, if sl <= sr then sr else sl;
    var begin := phase + first * SECOND;
    var due := last - first + 1;
    a := Clock(0, begin, if sl < sr then due else due + 1, Custom(0));
    b := Clock(1, begin, if sl < sr then due + 1 else due, Custom(0));
    u := begin + due * SECOND;
    TimeLeftInPhase(a, phase, r.left);
    TimeLeftInPhase(b, phase, r.right);
    TimeLeftRoundsUp(a, u);
    TimeLeftRoundsUp(b, u);
  }

  /** The timers of the heap, slot by slot, were started at these instants. */
  ghost predicate StartedAs(h: seq<TimerEvent>, starts: seq<int>) {
    |h| == |starts| && forall i :: 0 <= i < |h| ==> h[i].begin == starts[i]
  }

  ghost predicate SecondsApart(starts: seq<int>)
    requires starts != []
  {
    forall i :: 0 <= i < |starts| ==> (starts[i] - starts[0]) % SECOND == 0
  }

  /** Readings of a clock that stands still at `t`. */
  function Still(n: nat, t: int): seq<Reading> {
    seq(n, _ => Reading(t, t))
  }

  /** How many ancestors of the hole `value` is compared with at `t`. */
  function Comparisons(h: seq<TimerEvent>, hole: nat, value: TimerEvent, t: int): nat
    requires hole < |h|
    decreases hole
  {
    if hole == 0 then 0
    else if Compare(h[Parent(hole)], value, t, t) then
      1 + Comparisons(h[hole := h[Parent(hole)]], Parent(hole), value, t)
    else 1
  }

  lemma {:induction false} StillRises(h: seq<TimerEvent>, hole: nat, value: TimerEvent, t: int)
    requires hole < |h|
    ensures Risen(h, hole, value, Still(Comparisons(h, hole, value, t), t)).Sifted?
    decreases hole
  {
    hide Compare;
    var rs := Still(Comparisons(h, hole, value, t), t);
    if hole > 0 && Compare(h[Parent(hole)], value, t, t) {
      var up := h[hole := h[Parent(hole)]];
      StillRises(up, Parent(hole), value, t);
      assert rs[1..] == Still(Comparisons(up, Parent(hole), value, t), t);
    }
  }

  /** A push at the instant its timer is started. */
  function PushedNow(h: seq<TimerEvent>, e: TimerEvent): seq<TimerEvent> {
    StillRises(h + [e], |h|, e, e.begin);
    AfterPush(h, e, Still(Comparisons(h + [e], |h|, e, e.begin), e.begin)).heap
  }

  /** The heap after pushing these timers one after the other, each at the instant it is started. */
  function Built(ts: seq<TimerEvent>): (h: seq<TimerEvent>) {
    if ts == [] then [] else PushedNow(Built(ts[..|ts| - 1]), ts[|ts| - 1])
  }

  ghost predicate Ascending(starts: seq<int>) {
    forall i, j :: 0 <= i <= j < |starts| ==> starts[i] <= starts[j]
  }

  /**
   * However long the timers started and pushed at these instants wait: from the last push on, a top that
   * is not ready speaks for all of them.
   */
  ghost predicate BuiltTopTells(starts: seq<int>)
    requires starts != []
  {
    forall ts: seq<TimerEvent>, u: int ::
      StartedAs(ts, starts) && starts[|starts| - 1] <= u && Built(ts) != [] && !IsReady(Built(ts)[0], u) ==>
        forall e <- ts :: !IsReady(e, u)
  }

  lemma PushedNowConserves(h: seq<TimerEvent>, e: TimerEvent)
    ensures Bag(PushedNow(h, e)) == Bag(h + [e]) && |PushedNow(h, e)| == |h| + 1
  {
    hide Risen;
    StillRises(h + [e], |h|, e, e.begin);
    var rs := Still(Comparisons(h + [e], |h|, e, e.begin), e.begin);
    assert AfterPush(h, e, rs) == Risen(h + [e], |h|, e, rs);
    RisenConserves(h + [e], |h|, e, rs);
    assert (h + [e])[|h| := e] == h + [e];
  }

  lemma {:induction false} BuiltConserves(ts: seq<TimerEvent>)
    ensures Bag(Built(ts)) == Bag(ts) && |Built(ts)| == |ts|
  {
    hide PushedNow;
    if ts != [] {
      var less, e := ts[..|ts| - 1], ts[|ts| - 1];
      BuiltConserves(less);
      PushedNowConserves(Built(less), e);
      assert ts == less + [e];
      assert Bag(Built(less) + [e]) == Bag(Built(less)) + Bag([e]);
    }
  }

  lemma {:induction false} BuiltSettles(ts: seq<TimerEvent>, starts: seq<int>)
    requires starts != [] && StartedAs(ts, starts) && Ascending(starts) && SecondsApart(starts)
    ensures Settled(Built(ts), starts[0], starts[|starts| - 1])
  {
    hide TimeLeft, InPhase, ReadingsAgree, OrderedAt, Risen, Comparisons;
    var n := |ts| - 1;
    var e, now := ts[n], starts[n];
    var h := Built(ts[..n]);
    if n > 0 {
      BuiltSettles(ts[..n], starts[..n]);
      SettledLater(h, starts[0], starts[n - 1], now);
    } else {
      EmptySettles(starts[0], now);
    }
    StartedInPhase(e, starts, n);
    StillRises(h + [e], |h|, e, now);
    StillIsSteady(Comparisons(h + [e], |h|, e, now), now, starts[0]);
    PushedSettles(h, e, Still(Comparisons(h + [e], |h|, e, now), now), starts[0], now, now);
  }

  lemma StillIsSteady(n: nat, t: int, phase: int)
    ensures Within(Still(n, t), t, t) && Agreeing(Still(n, t), phase)
  {
  }

  lemma EmptySettles(phase: int, now: int)
    ensures Settled([], phase, now)
  {
  }

  lemma StartedInPhase(e: TimerEvent, starts: seq<int>, n: nat)
    requires n < |starts| && SecondsApart(starts) && e.begin == starts[n]
    ensures InPhase(e, starts[0])
  {
  }

  /** A timer that is before every other one rises to the top. */
  lemma {:induction false} LeastRisesToTop(h: seq<TimerEvent>, hole: nat, value: TimerEvent, t: int)
    requires hole < |h| && forall e <- h :: Compare(e, value, t, t)
    ensures var r := Risen(h, hole, value, Still(Comparisons(h, hole, value, t), t));
            r.Sifted? && r.heap != [] && r.heap[0] == value
    decreases hole
  {
    hide Compare;
    var rs := Still(Comparisons(h, hole, value, t), t);
    if hole > 0 {
      var up := h[hole := h[Parent(hole)]];
      LeastRisesToTop(up, Parent(hole), value, t);
      assert rs[1..] == Still(Comparisons(up, Parent(hole), value, t), t);
    }
  }

  /** A timer that is not before the top stays below it. */
  lemma {:induction false} TopStays(h: seq<TimerEvent>, hole: nat, value: TimerEvent, t: int)
    requires 0 < hole < |h| && !Compare(h[0], value, t, t)
    ensures var r := Risen(h, hole, value, Still(Comparisons(h, hole, value, t), t));
            r.Sifted? && r.heap != [] && r.heap[0] == h[0]
    decreases hole
  {
    hide Compare;
    var rs := Still(Comparisons(h, hole, value, t), t);
    if Compare(h[Parent(hole)], value, t, t) {
      var up := h[hole := h[Parent(hole)]];
      TopStays(up, Parent(hole), value, t);
      assert rs[1..] == Still(Comparisons(up, Parent(hole), value, t), t);
    }
  }

  /** A timer due at least a second later has more time left. */
  lemma DueLater(a: TimerEvent, b: TimerEvent, t: int)
    requires a.begin <= t && b.begin <= t < Deadline(b) && Deadline(a) + SECOND <= Deadline(b)
    ensures !Compare(a, b, t, t) && Compare(b, a, t, t)
  {
    TimeLeftRoundsUp(a, t);
    TimeLeftRoundsUp(b, t);
  }

  /**
   * Timers 0 and `k` have equally many seconds left when `k` is pushed, and every other one is due more
   * than a second after both: whichever of the two came last is on top.
   */
  ghost predicate Rivals(ts: seq<TimerEvent>, k: nat) {
    && 0 < k < |ts|
    && (forall i, j :: 0 <= i <= j < |ts| ==> ts[i].begin <= ts[j].begin)
    && TimeLeft(ts[0], ts[k].begin) == TimeLeft(ts[k], ts[k].begin)
    && (forall i, j :: 0 <= i < |ts| && 0 <= j < |ts| && i != 0 && i != k ==>
          ts[j].begin < Deadline(ts[i]) &&
          Deadline(ts[0]) + SECOND <= Deadline(ts[i]) && Deadline(ts[k]) + SECOND <= Deadline(ts[i]))
  }

  lemma {:induction false} LaterRivalOnTop(ts: seq<TimerEvent>, k: nat, n: nat)
    requires Rivals(ts, k) && 0 < n <= |ts|
    ensures Built(ts[..n]) != [] && Built(ts[..n])[0] == ts[if n <= k then 0 else k]
  {
    hide TimeLeft, Deadline, Compare, Risen, Comparisons;
    var less, e := ts[..n - 1], ts[n - 1];
    assert ts[..n][..n - 1] == less;
    var h := Built(less);
    BuiltConserves(less);
    if n > 1 {
      LaterRivalOnTop(ts, k, n - 1);
      if n - 1 == k {
        forall x | x in h + [e] ensures Compare(x, e, e.begin, e.begin) {
          assert x == e || x in Bag(h);
          RivalIsLeast(ts, k, x);
        }
        LeastRisesToTop(h + [e], |h|, e, e.begin);
      } else {
        DueLater(h[0], e, e.begin);
        TopStays(h + [e], |h|, e, e.begin);
      }
    } else {
      assert ts[..1] == [e];
      LoneIsBuilt(e);
    }
  }

  lemma LoneIsBuilt(e: TimerEvent)
    ensures Built([e]) == [e]
  {
    assert [e][..0] == [];
    assert [] + [e] == [e];
    assert Still(0, e.begin) == [];
    assert [e][0 := e] == [e];
  }

  /** The later rival is before everything pushed no later than itself. */
  lemma RivalIsLeast(ts: seq<TimerEvent>, k: nat, x: TimerEvent)
    requires Rivals(ts, k) && x in ts[..k + 1]
    ensures Compare(x, ts[k], ts[k].begin, ts[k].begin)
  {
    hide TimeLeft, Deadline;
    var i :| 0 <= i <= k && ts[i] == x;
    if i != 0 && i != k {
      hide Compare;
      DueLater(ts[k], x, ts[k].begin);
    }
  }

  /** Waits that make rivals of the first start point and one out of phase with it. */
  function RivalWait(starts: seq<int>, k: nat, n: int, i: nat): int
    requires k < |starts| && i < |starts|
  {
    if i == 0 then WaitFor(starts[0], starts[k], n)
    else if i == k then n
    else n + (starts[|starts| - 1] - starts[0]) / SECOND + 3
  }

  lemma OutOfPhaseRivals(starts: seq<int>, k: nat) returns (ts: seq<TimerEvent>, u: int)
    requires 0 < k < |starts| && Ascending(starts) && (starts[k] - starts[0]) % SECOND != 0
    ensures StartedAs(ts, starts) && Rivals(ts, k) && starts[|starts| - 1] <= u
    ensures forall i :: 0 <= i < |ts| ==> ts[i].id == i
    ensures IsReady(ts[0], u) && !IsReady(ts[k], u)
  {
    hide TimeLeft, WaitFor, IsReady, ToSec;
    var last := starts[|starts| - 1];
    var n := (last - starts[k]) / SECOND + 2;
    ts := seq(|starts|, i requires 0 <= i < |starts| => Clock(i, starts[i], RivalWait(starts, k, n, i), Custom(0)));
    WaitForLeaves(ts[0], starts[k], n);
    WaitForOwn(ts[k], n);
    TimeLeftRoundsUp(ts[0], starts[k]);
    u := Deadline(ts[0]);
    assert Deadline(ts[k]) == starts[k] + n * SECOND;
    assert Deadline(ts[0]) < Deadline(ts[k]) <= last + n * SECOND;
    forall i, j | 0 <= i < |ts| && 0 <= j < |ts| && i != 0 && i != k
      ensures ts[j].begin < Deadline(ts[i])
      ensures Deadline(ts[0]) + SECOND <= Deadline(ts[i]) && Deadline(ts[k]) + SECOND <= Deadline(ts[i])
    {
      DueFarOff(starts[0], starts[i], last, n);
    }
    TimeLeftRoundsUp(ts[0], u);
    TimeLeftRoundsUp(ts[k], u);
  }

  lemma WaitForOwn(e: TimerEvent, n: nat)
    requires e.wait == n
    ensures TimeLeft(e, e.begin) == n
  {
  }

  lemma DueFarOff(first: int, begin: int, last: int, n: nat)
    requires first <= begin <= last
    ensures begin + (n + (last - first) / SECOND + 3) * SECOND >= last + n * SECOND + 2 * SECOND
  {
    assert last - first == (last - first) / SECOND * SECOND + (last - first) % SECOND;
  }

  /** On heaps that pushes build, the top speaks for all exactly if all timers started whole seconds apart. */
  lemma BuiltTopTellsIffSecondsApart(starts: seq<int>)
    requires starts != [] && Ascending(starts)
    ensures BuiltTopTells(starts) <==> SecondsApart(starts)
  {
    hide TimeLeft, IsReady, PushedNow, SecondsApart, OrderedAt;
    var last := starts[|starts| - 1];
    if SecondsApart(starts) {
      forall ts: seq<TimerEvent>, u: int |
        StartedAs(ts, starts) && last <= u && Built(ts) != [] && !IsReady(Built(ts)[0], u)
        ensures forall e <- ts :: !IsReady(e, u)
      {
        BuiltSettles(ts, starts);
        SettledLater(Built(ts), starts[0], last, u);
        BuiltConserves(ts);
        forall e | e in ts ensures !IsReady(e, u) {
          assert e in Bag(ts) && e in Bag(Built(ts));
          var i :| 0 <= i < |ts| && Built(ts)[i] == e;
          NotReadyBelow(Built(ts), i, u);
        }
      }
    } else {
      var k := FirstApart(starts);
      var ts, u := OutOfPhaseRivals(starts, k);
      LaterRivalOnTop(ts, k, |ts|);
      assert ts[..|ts|] == ts;
      assert ts[0] in ts;
    }
  }

  lemma FirstApart(starts: seq<int>) returns (k: nat)
    requires starts != [] && !SecondsApart(starts)
    ensures 0 < k < |starts| && (starts[k] - starts[0]) % SECOND != 0
  {
    k :| 0 <= k < |starts| && (starts[k] - starts[0]) % SECOND != 0;
  }

  /** The sooner timer, started first, and a later one that rounding puts level with it. */
  lemma FractionApart() returns (a: TimerEvent, b: TimerEvent, t: int, now: int)
    ensures a.begin <= b.begin == t <= now && Compare(a, b, t, t)
    ensures IsReady(a, now) && !IsReady(b, now)
  {
    a, b := Clock(0, 0, 1, Custom(0)), Clock(1, 990_000_000, 1, Custom(0));
    t, now := 990_000_000, 1_200_000_000;
  }

  /** Two timers pushed in turn, out of phase: a top that is not ready above one that is. */
  lemma OutOfPhaseTopHidesReadyTimer() returns (h: seq<TimerEvent>, t: int, now: int)
    ensures |h| == 2 && h[1].begin <= h[0].begin == t <= now
    ensures Compare(h[1], h[0], t, t) && AfterPush([h[1]], h[0], [Reading(t, t)]) == Sifted(h) && OrderedAt(h, t)
    ensures !IsReady(h[0], now) && IsReady(h[1], now)
  {
    hide TimeLeft, IsReady, Risen;
    var a, b;
    a, b, t, now := FractionApart();
    PushedOntoOne(a, b, Reading(t, t));
    h := [b, a];
    assert Parent(1) == 0;
  }
}
