/**
 * The heap of timers as values: what libstdc++'s push_heap and pop_heap make of the array, comparison
 * by comparison, when the comparator reads the clock twice each time; and what the order is worth.
 */
module HeapSpec {
  import opened Events
  import opened Timers

  ghost predicate Started(h: seq<TimerEvent>, now: int) {
    forall e <- h :: e.begin <= now
  }

  ghost predicate AllInPhase(h: seq<TimerEvent>, phase: int) {
    forall e <- h :: InPhase(e, phase)
  }

  function Parent(i: int): int {
    (i - 1) / 2
  }

  /** No timer has less time left at `now` than its parent in the heap. */
  ghost predicate OrderedAt(h: seq<TimerEvent>, now: int) {
    forall i :: 0 < i < |h| ==> TimeLeft(h[Parent(i)], now) <= TimeLeft(h[i], now)
  }

  /** Ordered but for the slot `hole`, whose content does not matter. */
  ghost predicate OrderedAround(h: seq<TimerEvent>, hole: nat, now: int) {
    forall i :: 0 < i < |h| && i != hole ==>
      if Parent(i) == hole
      then hole > 0 ==> TimeLeft(h[Parent(hole)], now) <= TimeLeft(h[i], now)
      else TimeLeft(h[Parent(i)], now) <= TimeLeft(h[i], now)
  }

  /** Nothing below the slot `hole` has less time left than `value`. */
  ghost predicate AboveChildren(h: seq<TimerEvent>, hole: nat, value: TimerEvent, now: int) {
    forall i :: 0 < i < |h| && Parent(i) == hole ==> TimeLeft(value, now) <= TimeLeft(h[i], now)
  }

  /** Time alone never disturbs a heap of timers started in phase. */
  lemma OrderSurvivesTime(h: seq<TimerEvent>, phase: int, t: int, u: int)
    requires Started(h, t) && AllInPhase(h, phase) && t <= u
    requires OrderedAt(h, t)
    ensures OrderedAt(h, u)
  {
    forall i | 0 < i < |h| ensures TimeLeft(h[Parent(i)], u) <= TimeLeft(h[i], u) {
      OrderPersistsInPhase(h[Parent(i)], h[i], phase, t, u);
    }
  }

  /** A heap of timers that have been started, all in phase, and ordered. */
  ghost predicate Settled(h: seq<TimerEvent>, phase: int, now: int) {
    Started(h, now) && AllInPhase(h, phase) && OrderedAt(h, now)
  }

  lemma SettledLater(h: seq<TimerEvent>, phase: int, t: int, u: int)
    requires Settled(h, phase, t) && t <= u
    ensures Settled(h, phase, u)
  {
    OrderSurvivesTime(h, phase, t, u);
  }

  /** In an ordered heap no timer has less time left than the top. */
  lemma {:induction false} TopIsLeast(h: seq<TimerEvent>, i: nat, now: int)
    requires i < |h| && OrderedAt(h, now)
    ensures TimeLeft(h[0], now) <= TimeLeft(h[i], now)
  {
    if i > 0 {
      TopIsLeast(h, Parent(i), now);
    }
  }

  /** `value`, in phase like the rest, is about to fill the hole of an otherwise ordered heap. */
  ghost predicate Sinking(h: seq<TimerEvent>, hole: nat, value: TimerEvent, phase: int, now: int) {
    && hole < |h| && AllInPhase(h, phase) && InPhase(value, phase)
    && OrderedAround(h, hole, now)
  }

  /** Moreover `value` may go into the hole as far as the timers below it are concerned. */
  ghost predicate Rising(h: seq<TimerEvent>, hole: nat, value: TimerEvent, phase: int, now: int) {
    && Sinking(h, hole, value, phase, now)
    && AboveChildren(h, hole, value, now)
  }

  lemma FillHole(h: seq<TimerEvent>, hole: nat, value: TimerEvent, phase: int, now: int)
    requires Rising(h, hole, value, phase, now)
    requires hole > 0 ==> TimeLeft(h[Parent(hole)], now) <= TimeLeft(value, now)
    ensures AllInPhase(h[hole := value], phase) && OrderedAt(h[hole := value], now)
  {
    hide TimeLeft, InPhase;
  }

  /** Moving the parent down into the hole moves the hole up. */
  lemma HoleUp(h: seq<TimerEvent>, hole: nat, value: TimerEvent, phase: int, now: int)
    requires 0 < hole && Rising(h, hole, value, phase, now)
    requires TimeLeft(value, now) <= TimeLeft(h[Parent(hole)], now)
    ensures Rising(h[hole := h[Parent(hole)]], Parent(hole), value, phase, now)
  {
    hide TimeLeft, InPhase;
  }

  /** Moving the lesser child up into the hole moves the hole down. */
  lemma HoleDown(h: seq<TimerEvent>, hole: nat, child: nat, value: TimerEvent, phase: int, now: int)
    requires hole < child < |h| && Parent(child) == hole
    requires Sinking(h, hole, value, phase, now)
    requires child == 2 * hole + 1 || TimeLeft(h[child], now) <= TimeLeft(h[2 * hole + 1], now)
    requires child == 2 * hole + 2 || 2 * hole + 2 >= |h| || TimeLeft(h[child], now) <= TimeLeft(h[2 * hole + 2], now)
    ensures Sinking(h[hole := h[child]], child, value, phase, now)
  {
    hide TimeLeft, InPhase;
    assert forall i :: 0 < i && Parent(i) == hole ==> i == 2 * hole + 1 || i == 2 * hole + 2;
  }

  /** At a leaf nothing is below the hole. */
  lemma LeafRises(h: seq<TimerEvent>, hole: nat, value: TimerEvent, phase: int, now: int)
    requires Sinking(h, hole, value, phase, now) && |h| <= 2 * hole + 1
    ensures Rising(h, hole, value, phase, now)
  {
  }

  lemma AppendedRises(h: seq<TimerEvent>, value: TimerEvent, phase: int, now: int)
    requires AllInPhase(h, phase) && OrderedAt(h, now) && InPhase(value, phase)
    ensures Rising(h + [value], |h|, value, phase, now)
  {
    hide TimeLeft, InPhase;
  }

  /** Taking out the top and the last timer leaves a hole for the last one to sink from. */
  lemma DetachedSinks(h: seq<TimerEvent>, phase: int, now: int)
    requires |h| > 1 && AllInPhase(h, phase) && OrderedAt(h, now)
    ensures Sinking(h[..|h| - 1], 0, h[|h| - 1], phase, now)
  {
    hide TimeLeft, InPhase;
  }

  lemma DetachedCounts(h: seq<TimerEvent>)
    requires |h| > 1
    ensures Bag(h[..|h| - 1][0 := h[|h| - 1]]) == Bag(h) - Bag([h[0]])
  {
    var last := h[|h| - 1];
    assert h == [h[0]] + h[1..|h| - 1] + [last];
    assert h[..|h| - 1][0 := last] == [last] + h[1..|h| - 1];
  }

  lemma StartedUpdate(h: seq<TimerEvent>, i: nat, e: TimerEvent, now: int)
    requires i < |h| && Started(h, now) && e.begin <= now
    ensures Started(h[i := e], now)
  {
  }

  lemma StartedMove(h: seq<TimerEvent>, to: nat, from: nat, now: int)
    requires to < |h| && from < |h| && Started(h, now)
    ensures Started(h[to := h[from]], now)
  {
    StartedUpdate(h, to, h[from], now);
  }

  /** Which timer conceptually sits in the hole does not change when a neighbour moves into it. */
  lemma HoleMoveConserves(h: seq<TimerEvent>, hole: nat, from: nat, value: TimerEvent)
    requires hole < |h| && from < |h| && hole != from
    ensures Bag(h[hole := h[from]][from := value]) == Bag(h[hole := value])
  {
    assert h[hole := h[from]][from := value] == h[hole := value][from := value][hole := h[from]];
  }

  // ---------- the algorithms, driven by the clock readings ----------

  /** The readings of one comparison, for its left and its right operand. */
  datatype Reading = Reading(left: int, right: int)

  /** The array after an operation, if the readings are as many as the operation makes comparisons. */
  datatype Sifted = Mismatch | Sifted(heap: seq<TimerEvent>)

  /** `value` rises from the hole past every ancestor that is not before it. */
  function Risen(h: seq<TimerEvent>, hole: nat, value: TimerEvent, rs: seq<Reading>): Sifted
    requires hole < |h|
    decreases hole
  {
    if hole == 0 then
      if rs == [] then Sifted(h[0 := value]) else Mismatch
    else if rs == [] then Mismatch
    else if Compare(h[Parent(hole)], value, rs[0].left, rs[0].right) then
      Risen(h[hole := h[Parent(hole)]], Parent(hole), value, rs[1..])
    else if |rs| == 1 then Sifted(h[hole := value])
    else Mismatch
  }

  /** The child of the hole that moves up: the left one if the right one is not before it. */
  function Promoted(h: seq<TimerEvent>, hole: nat, r: Reading): nat
    requires 2 * hole + 2 < |h|
  {
    if Compare(h[2 * hole + 2], h[2 * hole + 1], r.left, r.right) then 2 * hole + 1 else 2 * hole + 2
  }

  /** The hole sinks to a leaf along the promoted children; `value` rises from there. */
  function Sunk(h: seq<TimerEvent>, hole: nat, value: TimerEvent, rs: seq<Reading>): Sifted
    requires hole < |h|
    decreases |h| - hole
  {
    if 2 * hole + 2 < |h| then
      if rs == [] then Mismatch
      else
        var child := Promoted(h, hole, rs[0]);
        Sunk(h[hole := h[child]], child, value, rs[1..])
    else if 2 * hole + 2 == |h| then Risen(h[hole := h[2 * hole + 1]], 2 * hole + 1, value, rs)
    else Risen(h, hole, value, rs)
  }

  function AfterPush(h: seq<TimerEvent>, e: TimerEvent, rs: seq<Reading>): Sifted {
    Risen(h + [e], |h|, e, rs)
  }

  function AfterPop(h: seq<TimerEvent>, rs: seq<Reading>): Sifted
    requires h != []
  {
    if |h| > 1 then Sunk(h[..|h| - 1], 0, h[|h| - 1], rs)
    else if rs == [] then Sifted([])
    else Mismatch
  }

  /** After the readings `rs` the rise from `start` goes on as a rise from `hole` does. */
  ghost predicate RiseGoesOn(
      before: seq<TimerEvent>, start: nat, value: TimerEvent, rs: seq<Reading>, h: seq<TimerEvent>, hole: nat)
  {
    && start < |before| && hole < |h|
    && forall rest :: Risen(before, start, value, rs + rest) == Risen(h, hole, value, rest)
  }

  lemma RiseBegins(h: seq<TimerEvent>, start: nat, value: TimerEvent)
    requires start < |h|
    ensures RiseGoesOn(h, start, value, [], h, start)
  {
    hide Risen;
    forall rest: seq<Reading> ensures Risen(h, start, value, [] + rest) == Risen(h, start, value, rest) {
      assert [] + rest == rest;
    }
  }

  lemma RiseContinues(
      before: seq<TimerEvent>, start: nat, value: TimerEvent, rs: seq<Reading>, h: seq<TimerEvent>, hole: nat,
      r: Reading)
    requires hole > 0 && RiseGoesOn(before, start, value, rs, h, hole)
    requires Compare(h[Parent(hole)], value, r.left, r.right)
    ensures RiseGoesOn(before, start, value, rs + [r], h[hole := h[Parent(hole)]], Parent(hole))
  {
    hide Compare;
    var up := h[hole := h[Parent(hole)]];
    forall rest
      ensures Risen(before, start, value, rs + [r] + rest) == Risen(up, Parent(hole), value, rest)
    {
      assert rs + [r] + rest == rs + ([r] + rest);
      assert ([r] + rest)[1..] == rest;
    }
  }

  lemma RiseEnds(
      before: seq<TimerEvent>, start: nat, value: TimerEvent, rs: seq<Reading>, h: seq<TimerEvent>, hole: nat,
      last: seq<Reading>)
    requires RiseGoesOn(before, start, value, rs, h, hole) && Risen(h, hole, value, last).Sifted?
    ensures Risen(before, start, value, rs + last) == Risen(h, hole, value, last)
  {
  }

  /** After the readings `rs` sinking from the top goes on as sinking from `hole` does. */
  ghost predicate SinkGoesOn(
      before: seq<TimerEvent>, value: TimerEvent, rs: seq<Reading>, h: seq<TimerEvent>, hole: nat)
  {
    && before != [] && hole < |h|
    && forall rest :: Sunk(before, 0, value, rs + rest) == Sunk(h, hole, value, rest)
  }

  lemma SinkBegins(h: seq<TimerEvent>, value: TimerEvent)
    requires h != []
    ensures SinkGoesOn(h, value, [], h, 0)
  {
    hide Sunk;
    forall rest: seq<Reading> ensures Sunk(h, 0, value, [] + rest) == Sunk(h, 0, value, rest) {
      assert [] + rest == rest;
    }
  }

  lemma SinkContinues(
      before: seq<TimerEvent>, value: TimerEvent, rs: seq<Reading>, h: seq<TimerEvent>, hole: nat, r: Reading)
    requires 2 * hole + 2 < |h| && SinkGoesOn(before, value, rs, h, hole)
    ensures SinkGoesOn(before, value, rs + [r], h[hole := h[Promoted(h, hole, r)]], Promoted(h, hole, r))
  {
    hide Compare, Risen;
    var child := Promoted(h, hole, r);
    forall rest
      ensures Sunk(before, 0, value, rs + [r] + rest) == Sunk(h[hole := h[child]], child, value, rest)
    {
      assert rs + [r] + rest == rs + ([r] + rest);
      assert ([r] + rest)[1..] == rest;
    }
  }

  /** Once the hole has no two children, a last timer that is its only child moves up, and `value` rises. */
  lemma SinkEnds(
      before: seq<TimerEvent>, value: TimerEvent, rs: seq<Reading>, h: seq<TimerEvent>, hole: nat,
      h': seq<TimerEvent>, leaf: nat)
    requires SinkGoesOn(before, value, rs, h, hole) && |h| <= 2 * hole + 2
    requires if |h| == 2 * hole + 2 then leaf == 2 * hole + 1 && h' == h[hole := h[leaf]] else leaf == hole && h' == h
    ensures forall rest :: Sunk(before, 0, value, rs + rest) == Risen(h', leaf, value, rest)
  {
    hide Risen;
    forall rest ensures Sunk(before, 0, value, rs + rest) == Risen(h', leaf, value, rest) {
      assert Sunk(h, hole, value, rest) == Risen(h', leaf, value, rest);
    }
  }

  /** The readings were taken between `from` and `to`. */
  ghost predicate Within(rs: seq<Reading>, from: int, to: int) {
    forall r <- rs :: from <= r.left <= to && from <= r.right <= to
  }

  /** In every comparison the left operand was read in the same second as the right one, or in the next. */
  ghost predicate Agreeing(rs: seq<Reading>, phase: int) {
    forall r <- rs :: ReadingsAgree(r.left, r.right, phase)
  }

  // ---------- contents ----------

  lemma {:induction false} RisenConserves(h: seq<TimerEvent>, hole: nat, value: TimerEvent, rs: seq<Reading>)
    requires hole < |h| && Risen(h, hole, value, rs).Sifted?
    ensures Bag(Risen(h, hole, value, rs).heap) == Bag(h[hole := value])
    ensures |Risen(h, hole, value, rs).heap| == |h|
    decreases hole
  {
    hide Compare;
    if hole > 0 {
      var up := h[hole := h[Parent(hole)]];
      if Compare(h[Parent(hole)], value, rs[0].left, rs[0].right) {
        HoleMoveConserves(h, hole, Parent(hole), value);
        RisenConserves(up, Parent(hole), value, rs[1..]);
      }
    }
  }

  lemma {:induction false} SunkConserves(h: seq<TimerEvent>, hole: nat, value: TimerEvent, rs: seq<Reading>)
    requires hole < |h| && Sunk(h, hole, value, rs).Sifted?
    ensures Bag(Sunk(h, hole, value, rs).heap) == Bag(h[hole := value])
    ensures |Sunk(h, hole, value, rs).heap| == |h|
    decreases |h| - hole
  {
    hide Compare, Risen;
    if 2 * hole + 2 < |h| {
      var child := Promoted(h, hole, rs[0]);
      HoleMoveConserves(h, hole, child, value);
      SunkConserves(h[hole := h[child]], child, value, rs[1..]);
    } else if 2 * hole + 2 == |h| {
      HoleMoveConserves(h, hole, 2 * hole + 1, value);
      RisenConserves(h[hole := h[2 * hole + 1]], 2 * hole + 1, value, rs);
    } else {
      RisenConserves(h, hole, value, rs);
    }
  }

  /** A push adds exactly its timer, whatever the clock did meanwhile. */
  lemma PushedConserves(h: seq<TimerEvent>, e: TimerEvent, rs: seq<Reading>)
    requires AfterPush(h, e, rs).Sifted?
    ensures Bag(AfterPush(h, e, rs).heap) == Bag(h) + multiset{e}
  {
    RisenConserves(h + [e], |h|, e, rs);
    assert (h + [e])[|h| := e] == h + [e];
  }

  /** A pop removes exactly the top, whatever the clock did meanwhile. */
  lemma PoppedConserves(h: seq<TimerEvent>, rs: seq<Reading>)
    requires h != [] && AfterPop(h, rs).Sifted?
    ensures Bag(AfterPop(h, rs).heap) + multiset{h[0]} == Bag(h)
    ensures |AfterPop(h, rs).heap| == |h| - 1
  {
    if |h| > 1 {
      SunkConserves(h[..|h| - 1], 0, h[|h| - 1], rs);
      DetachedCounts(h);
      assert h[0] in Bag(h);
    } else {
      assert h == [h[0]];
    }
  }

  lemma SameBagStarted(h: seq<TimerEvent>, h': seq<TimerEvent>, now: int)
    requires Started(h, now) && forall e :: e in Bag(h') ==> e in Bag(h)
    ensures Started(h', now)
  {
    forall e | e in h' ensures e.begin <= now {
      assert e in Bag(h');
    }
  }

  // ---------- order ----------

  lemma {:induction false} RisenOrders(
      h: seq<TimerEvent>, hole: nat, value: TimerEvent, rs: seq<Reading>, phase: int, from: int, to: int)
    requires hole < |h| && Risen(h, hole, value, rs).Sifted?
    requires Started(h, from) && value.begin <= from <= to && Within(rs, from, to) && Agreeing(rs, phase)
    requires Rising(h, hole, value, phase, to)
    ensures AllInPhase(Risen(h, hole, value, rs).heap, phase) && OrderedAt(Risen(h, hole, value, rs).heap, to)
    decreases hole
  {
    hide TimeLeft, InPhase, ReadingsAgree, Compare, OrderedAround, AboveChildren, OrderedAt;
    if hole == 0 {
      FillHole(h, hole, value, phase, to);
    } else {
      var parent := Parent(hole);
      VerdictLasts(h[parent], value, phase, rs[0].left, rs[0].right, to);
      if Compare(h[parent], value, rs[0].left, rs[0].right) {
        HoleUp(h, hole, value, phase, to);
        StartedMove(h, hole, parent, from);
        RisenOrders(h[hole := h[parent]], parent, value, rs[1..], phase, from, to);
      } else {
        FillHole(h, hole, value, phase, to);
      }
    }
  }

  lemma {:induction false} SunkOrders(
      h: seq<TimerEvent>, hole: nat, value: TimerEvent, rs: seq<Reading>, phase: int, from: int, to: int)
    requires hole < |h| && Sunk(h, hole, value, rs).Sifted?
    requires Started(h, from) && value.begin <= from <= to && Within(rs, from, to) && Agreeing(rs, phase)
    requires Sinking(h, hole, value, phase, to)
    ensures AllInPhase(Sunk(h, hole, value, rs).heap, phase) && OrderedAt(Sunk(h, hole, value, rs).heap, to)
    decreases |h| - hole
  {
    hide TimeLeft, InPhase, ReadingsAgree, Compare, OrderedAround, OrderedAt, Risen;
    if 2 * hole + 2 < |h| {
      VerdictLasts(h[2 * hole + 2], h[2 * hole + 1], phase, rs[0].left, rs[0].right, to);
      var child := Promoted(h, hole, rs[0]);
      HoleDown(h, hole, child, value, phase, to);
      StartedMove(h, hole, child, from);
      SunkOrders(h[hole := h[child]], child, value, rs[1..], phase, from, to);
    } else if 2 * hole + 2 == |h| {
      var child := 2 * hole + 1;
      HoleDown(h, hole, child, value, phase, to);
      StartedMove(h, hole, child, from);
      LeafRises(h[hole := h[child]], child, value, phase, to);
      RisenOrders(h[hole := h[child]], child, value, rs, phase, from, to);
    } else {
      LeafRises(h, hole, value, phase, to);
      RisenOrders(h, hole, value, rs, phase, from, to);
    }
  }

  /** Pushing a timer in phase, with agreeing readings, keeps the heap in order. */
  lemma PushedSettles(h: seq<TimerEvent>, e: TimerEvent, rs: seq<Reading>, phase: int, from: int, to: int)
    requires Settled(h, phase, from) && e.begin <= from <= to && InPhase(e, phase)
    requires Within(rs, from, to) && Agreeing(rs, phase) && AfterPush(h, e, rs).Sifted?
    ensures Settled(AfterPush(h, e, rs).heap, phase, to)
  {
    hide TimeLeft, InPhase, ReadingsAgree, OrderedAt, Risen, Rising;
    SettledLater(h, phase, from, to);
    AppendedRises(h, e, phase, to);
    assert Started(h + [e], from);
    RisenOrders(h + [e], |h|, e, rs, phase, from, to);
    PushedConserves(h, e, rs);
    assert Bag(h) + multiset{e} == Bag(h + [e]);
    SameBagStarted(h + [e], AfterPush(h, e, rs).heap, to);
  }

  /** Popping, with agreeing readings, keeps the heap in order. */
  lemma PoppedSettles(h: seq<TimerEvent>, rs: seq<Reading>, phase: int, from: int, to: int)
    requires h != [] && Settled(h, phase, from) && from <= to
    requires Within(rs, from, to) && Agreeing(rs, phase) && AfterPop(h, rs).Sifted?
    ensures Settled(AfterPop(h, rs).heap, phase, to)
  {
    hide TimeLeft, InPhase, ReadingsAgree, Sunk, Sinking;
    SettledLater(h, phase, from, to);
    if |h| > 1 {
      DetachedSinks(h, phase, to);
      SunkOrders(h[..|h| - 1], 0, h[|h| - 1], rs, phase, from, to);
      PoppedConserves(h, rs);
      SameBagStarted(h, AfterPop(h, rs).heap, to);
    }
  }

  // ---------- draining ----------

  /** In an ordered heap a top that is not ready speaks for every timer. */
  lemma NotReadyBelow(h: seq<TimerEvent>, i: nat, now: int)
    requires i < |h| && OrderedAt(h, now) && Started(h, now) && !IsReady(h[0], now)
    ensures !IsReady(h[i], now) && now < Deadline(h[i])
  {
    TopIsLeast(h, i, now);
    TimeLeftRoundsUp(h[0], now);
    TimeLeftRoundsUp(h[i], now);
  }

  /** One timer taken out: when it was found ready, the readings of its pop, and when that was over. */
  datatype Take = Take(checked: int, readings: seq<Reading>, done: int)

  /**
   * The drain loop: the top is taken out as long as it is ready; `last` is when the loop ended, with a
   * top that was not ready or with an empty heap.
   */
  ghost predicate Drains(
      h: seq<TimerEvent>, takes: seq<Take>, from: int, last: int, h': seq<TimerEvent>, drained: seq<TimerEvent>)
    decreases |takes|
  {
    if takes == [] then
      drained == [] && h' == h && from <= last && (h != [] ==> !IsReady(h[0], last))
    else
      && h != [] && drained != [] && drained[0] == h[0]
      && from <= takes[0].checked <= takes[0].done && IsReady(h[0], takes[0].checked)
      && Within(takes[0].readings, takes[0].checked, takes[0].done)
      && AfterPop(h, takes[0].readings).Sifted?
      && Drains(AfterPop(h, takes[0].readings).heap, takes[1..], takes[0].done, last, h', drained[1..])
  }

  /** After `takes`, which gave `drained`, draining `before` goes on as draining `h` from `now` on does. */
  ghost predicate DrainGoesOn(
      before: seq<TimerEvent>, from: int, takes: seq<Take>, drained: seq<TimerEvent>, h: seq<TimerEvent>, now: int)
  {
    forall rest, last: int, h', more ::
      Drains(h, rest, now, last, h', more) ==> Drains(before, takes + rest, from, last, h', drained + more)
  }

  lemma DrainBegins(h: seq<TimerEvent>, from: int)
    ensures DrainGoesOn(h, from, [], [], h, from)
  {
    hide Drains;
    forall rest: seq<Take>, last: int, h', more: seq<TimerEvent> | Drains(h, rest, from, last, h', more)
      ensures Drains(h, [] + rest, from, last, h', [] + more)
    {
      assert [] + rest == rest && [] + more == more;
    }
  }

  lemma DrainContinues(
      before: seq<TimerEvent>, from: int, takes: seq<Take>, drained: seq<TimerEvent>, h: seq<TimerEvent>, now: int,
      take: Take)
    requires DrainGoesOn(before, from, takes, drained, h, now)
    requires h != [] && now <= take.checked <= take.done && IsReady(h[0], take.checked)
    requires Within(take.readings, take.checked, take.done) && AfterPop(h, take.readings).Sifted?
    ensures DrainGoesOn(before, from, takes + [take], drained + [h[0]], AfterPop(h, take.readings).heap, take.done)
  {
    hide IsReady, AfterPop;
    var h1 := AfterPop(h, take.readings).heap;
    forall rest, last: int, h', more | Drains(h1, rest, take.done, last, h', more)
      ensures Drains(before, takes + [take] + rest, from, last, h', drained + [h[0]] + more)
    {
      assert ([take] + rest)[1..] == rest && ([h[0]] + more)[1..] == more;
      assert Drains(h, [take] + rest, now, last, h', [h[0]] + more);
      assert takes + [take] + rest == takes + ([take] + rest);
      assert drained + [h[0]] + more == drained + ([h[0]] + more);
    }
  }

  lemma DrainEnds(
      before: seq<TimerEvent>, from: int, takes: seq<Take>, drained: seq<TimerEvent>, h: seq<TimerEvent>, now: int,
      last: int)
    requires DrainGoesOn(before, from, takes, drained, h, now)
    requires now <= last && (h != [] ==> !IsReady(h[0], last))
    ensures Drains(before, takes, from, last, h, drained)
  {
    assert Drains(h, [], now, last, h, []);
    assert takes + [] == takes && drained + [] == drained;
  }

  /** The comparisons of the drain have agreeing readings. */
  ghost predicate SteadyTakes(takes: seq<Take>, phase: int) {
    forall k <- takes :: Agreeing(k.readings, phase)
  }

  /** Draining takes no negative time. */
  lemma {:induction false} DrainsForward(
      h: seq<TimerEvent>, takes: seq<Take>, from: int, last: int, h': seq<TimerEvent>, drained: seq<TimerEvent>)
    requires Drains(h, takes, from, last, h', drained)
    ensures from <= last
    decreases |takes|
  {
    hide IsReady, AfterPop;
    if takes != [] {
      DrainsForward(AfterPop(h, takes[0].readings).heap, takes[1..], takes[0].done, last, h', drained[1..]);
    }
  }

  /** The drain loses and doubles nothing, and hands over expired timers only. */
  lemma {:induction false} DrainsConserve(
      h: seq<TimerEvent>, takes: seq<Take>, from: int, last: int, h': seq<TimerEvent>, drained: seq<TimerEvent>)
    requires Drains(h, takes, from, last, h', drained) && Started(h, from)
    ensures Bag(h') + Bag(drained) == Bag(h)
    ensures from <= last && Started(h', last)
    ensures forall t <- drained :: Deadline(t) <= last
    decreases |takes|
  {
    hide IsReady, AfterPop;
    if takes != [] {
      var h1 := AfterPop(h, takes[0].readings).heap;
      PoppedConserves(h, takes[0].readings);
      SameBagStarted(h, h1, takes[0].done);
      DrainsConserve(h1, takes[1..], takes[0].done, last, h', drained[1..]);
      assert drained == [h[0]] + drained[1..];
      TimeLeftRoundsUp(h[0], takes[0].checked);
    }
  }

  /** With timers in phase and agreeing readings the drain leaves no expired timer behind. */
  lemma {:induction false} DrainsCompletely(
      h: seq<TimerEvent>, takes: seq<Take>, from: int, last: int, h': seq<TimerEvent>, drained: seq<TimerEvent>,
      phase: int)
    requires Drains(h, takes, from, last, h', drained)
    requires Settled(h, phase, from) && SteadyTakes(takes, phase)
    ensures from <= last && Settled(h', phase, last)
    ensures forall e <- h' :: !IsReady(e, last) && last < Deadline(e)
    decreases |takes|
  {
    hide IsReady, AfterPop, TimeLeft, Deadline, InPhase, OrderedAt, Agreeing;
    if takes == [] {
      SettledLater(h, phase, from, last);
      forall e | e in h ensures !IsReady(e, last) && last < Deadline(e) {
        var i :| 0 <= i < |h| && h[i] == e;
        NotReadyBelow(h, i, last);
      }
    } else {
      SettledLater(h, phase, from, takes[0].checked);
      PoppedSettles(h, takes[0].readings, phase, takes[0].checked, takes[0].done);
      DrainsCompletely(AfterPop(h, takes[0].readings).heap, takes[1..], takes[0].done, last, h', drained[1..], phase);
    }
  }
}
