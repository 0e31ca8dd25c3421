/**
 * The reactor as a state machine over its four stores, with the history of what was submitted,
 * handed over and executed; and what every run of it satisfies.
 */
module LoopSpec {
  import opened Events
  import opened HeapSpec
  import opened HeapTop
  import Timers

  /** What one update pass hands over: I/O events in hand-over order, then timers. */
  datatype Batch = Batch(io: seq<IOEvent>, timers: seq<TimerEvent>)

  function All(b: Batch): seq<Event> {
    b.io + b.timers
  }

  /** All hand-overs in order. */
  function Flatten(bs: seq<Batch>): seq<Event> {
    if bs == [] then [] else Flatten(bs[..|bs| - 1]) + All(bs[|bs| - 1])
  }

  /**
   * `container`, `stale` and `fifo` are the container, its `ready` vector and `ready_tasks`;
   * `timers` is the heap's array. The rest is history: `born[k]` is the number of passes that had
   * been made when `submitted[k]` was submitted.
   */
  datatype LoopState = LoopState(
    container: seq<IOEvent>,
    stale: seq<IOEvent>,
    fifo: seq<Event>,
    timers: seq<TimerEvent>,
    now: int,
    submitted: seq<Event>,
    born: seq<nat>,
    executed: seq<Event>,
    batches: seq<Batch>)

  /** A submission carries the clock readings of its push, a pass those of its drain. */
  datatype Step =
    | Submit(event: Event, readings: seq<Reading>)
    | Execute
    | Pass(res: set<Interest>, takes: seq<Take>, drained: seq<TimerEvent>)
    | Tick

  ghost predicate Initial(s: LoopState) {
    && s.container == [] && s.stale == [] && s.fifo == [] && s.timers == []
    && s.submitted == [] && s.born == [] && s.executed == [] && s.batches == []
  }

  /** EventQueue::empty: the stale vector counts. */
  predicate Empty(s: LoopState) {
    s.stale == [] && s.container == [] && s.fifo == [] && s.timers == []
  }

  /** No event is left to execute. */
  predicate Quiescent(s: LoopState) {
    s.container == [] && s.fifo == [] && s.timers == []
  }

  ghost predicate NextSubmit(s: LoopState, e: Event, rs: seq<Reading>, s': LoopState) {
    && e.id == |s.submitted|
    && s'.(container := s.container, timers := s.timers, now := s.now) ==
       s.(submitted := s.submitted + [e], born := s.born + [|s.batches|])
    && match e
       case IO(_, _, _, _, _) =>
         && rs == []
         && s'.container == s.container + [e]
         && s'.timers == s.timers && s'.now == s.now
       case Clock(_, _, _, _) =>
         && s'.container == s.container
         && s.now <= e.begin <= s'.now
         && Within(rs, e.begin, s'.now) && AfterPush(s.timers, e, rs) == Sifted(s'.timers)
  }

  ghost predicate NextExecute(s: LoopState, s': LoopState) {
    && s.fifo != []
    && s' == s.(fifo := s.fifo[1..], executed := s.executed + [s.fifo[0]])
  }

  ghost predicate NextPass(
      s: LoopState, res: set<Interest>, takes: seq<Take>, drained: seq<TimerEvent>, s': LoopState)
  {
    && Drains(s.timers, takes, s.now, s'.now, s'.timers, drained)
    && var ready := Taken(s.container, res);
    && s' == s.(
         container := Kept(s.container, res), stale := ready, fifo := s.fifo + (Reversed(ready) + drained),
         timers := s'.timers, now := s'.now, batches := s.batches + [Batch(Reversed(ready), drained)])
  }

  ghost predicate Next(s: LoopState, step: Step, s': LoopState) {
    match step
    case Submit(e, rs) => NextSubmit(s, e, rs, s')
    case Execute => NextExecute(s, s')
    case Pass(res, takes, drained) => NextPass(s, res, takes, drained, s')
    case Tick => s.now <= s'.now && s' == s.(now := s'.now)
  }

  /** For an I/O event the outcome of submitting is determined. */
  function AfterSubmit(s: LoopState, e: IOEvent): LoopState {
    s.(container := s.container + [e], submitted := s.submitted + [e], born := s.born + [|s.batches|])
  }

  function AfterExecute(s: LoopState): LoopState
    requires s.fifo != []
  {
    s.(fifo := s.fifo[1..], executed := s.executed + [s.fifo[0]])
  }

  lemma SubmittedIo(s: LoopState, e: IOEvent, rs: seq<Reading>, s': LoopState)
    requires NextSubmit(s, e, rs, s')
    ensures s' == AfterSubmit(s, e) && rs == []
  {
  }

  lemma NothingToDrain(
      s: LoopState, res: set<Interest>, takes: seq<Take>, drained: seq<TimerEvent>, s': LoopState)
    requires NextPass(s, res, takes, drained, s') && s.timers == []
    ensures takes == [] && drained == [] && s'.timers == []
  {
  }

  lemma SubmitIsNext(s: LoopState, e: Event, rs: seq<Reading>, s': LoopState)
    requires NextSubmit(s, e, rs, s')
    ensures Next(s, Submit(e, rs), s')
  {
  }

  lemma PassIsNext(s: LoopState, res: set<Interest>, takes: seq<Take>, drained: seq<TimerEvent>, s': LoopState)
    requires NextPass(s, res, takes, drained, s')
    ensures Next(s, Pass(res, takes, drained), s')
  {
  }

  // ---------- the invariant ----------

  ghost predicate Numbered(s: LoopState) {
    && |s.born| == |s.submitted|
    && (forall k :: 0 <= k < |s.submitted| ==> s.submitted[k].id == k)
    && (forall k :: 0 <= k < |s.born| ==> s.born[k] <= |s.batches|)
  }

  /** Every submitted event is in exactly one store, or executed. */
  ghost predicate Conserved(s: LoopState) {
    Bag(s.submitted) ==
    Bag(s.container) + Bag(s.timers) + Bag(s.fifo) + Bag(s.executed)
  }

  /** Reverse submission order among I/O events; nothing submitted at pass `n` or later. */
  ghost predicate GoodBatch(b: Batch, n: nat, s: LoopState) {
    && DecreasingIds(b.io)
    && forall e <- All(b) :: e.id < |s.born| && s.born[e.id] <= n
  }

  ghost predicate InGenerations(s: LoopState) {
    && s.executed + s.fifo == Flatten(s.batches)
    && IncreasingIds(s.container)
    && forall n :: 0 <= n < |s.batches| ==> GoodBatch(s.batches[n], n, s)
  }

  /** The stale vector is what the last pass handed over. */
  ghost predicate StaleIsLast(s: LoopState) {
    if s.batches == [] then s.stale == [] else Reversed(s.stale) == s.batches[|s.batches| - 1].io
  }

  /** No timer is in the heap before its start point, or leaves it before its deadline. */
  ghost predicate OnTime(s: LoopState) {
    && Started(s.timers, s.now)
    && (forall e <- s.fifo :: e.Clock? ==> Timers.Deadline(e) <= s.now)
    && (forall e <- s.executed :: e.Clock? ==> Timers.Deadline(e) <= s.now)
  }

  ghost predicate Inv(s: LoopState) {
    Numbered(s) && Conserved(s) && InGenerations(s) && StaleIsLast(s) && OnTime(s)
  }

  lemma InSubmitted(s: LoopState, e: Event)
    requires Numbered(s) && Conserved(s)
    requires e in s.container || e in s.timers || e in s.fifo || e in s.executed
    ensures e.id < |s.submitted| && s.submitted[e.id] == e
  {
    assert e in Bag(s.submitted);
    var k :| 0 <= k < |s.submitted| && s.submitted[k] == e;
  }

  lemma TimerKeepsConservation(s: LoopState, e: TimerEvent, rs: seq<Reading>, s': LoopState)
    requires Conserved(s) && OnTime(s) && NextSubmit(s, e, rs, s')
    ensures Conserved(s') && OnTime(s')
  {
    hide Risen, Timers.Deadline;
    PushedConserves(s.timers, e, rs);
    assert Bag(s.timers) + multiset{e} == Bag(s.timers + [e]);
    SameBagStarted(s.timers + [e], s'.timers, s'.now);
  }

  lemma IoKeepsContainer(s: LoopState, e: IOEvent, rs: seq<Reading>, s': LoopState)
    requires Numbered(s) && Conserved(s) && IncreasingIds(s.container) && NextSubmit(s, e, rs, s')
    ensures Conserved(s') && IncreasingIds(s'.container)
  {
    forall x | x in s.container ensures x.id < e.id {
      InSubmitted(s, x);
    }
    ExtendIncreasing(s.container, e);
  }

  lemma SubmitKeepsInv(s: LoopState, e: Event, rs: seq<Reading>, s': LoopState)
    requires Inv(s) && NextSubmit(s, e, rs, s')
    ensures Inv(s')
  {
    hide AfterPush, Conserved, Timers.Deadline, IncreasingIds, Flatten, DecreasingIds;
    if e.Clock? {
      TimerKeepsConservation(s, e, rs, s');
    } else {
      IoKeepsContainer(s, e, rs, s');
    }
    forall n | 0 <= n < |s'.batches| ensures GoodBatch(s'.batches[n], n, s') {
      assert GoodBatch(s.batches[n], n, s);
    }
  }

  lemma ExecuteKeepsInv(s: LoopState, s': LoopState)
    requires Inv(s) && NextExecute(s, s')
    ensures Inv(s')
  {
    assert s.fifo == [s.fifo[0]] + s.fifo[1..];
    assert s'.executed + s'.fifo == s.executed + s.fifo;
    forall n | 0 <= n < |s'.batches| ensures GoodBatch(s'.batches[n], n, s') {
      assert GoodBatch(s.batches[n], n, s);
    }
  }

  lemma PassConserves(
      s: LoopState, res: set<Interest>, takes: seq<Take>, drained: seq<TimerEvent>, s': LoopState)
    requires Conserved(s) && OnTime(s) && NextPass(s, res, takes, drained, s')
    ensures Conserved(s')
  {
    DrainsConserve(s.timers, takes, s.now, s'.now, s'.timers, drained);
    PartitionConserves(s.container, res);
    ReversedIsMirror(Taken(s.container, res));
  }

  lemma PassMakesGoodBatch(
      s: LoopState, res: set<Interest>, takes: seq<Take>, drained: seq<TimerEvent>, s': LoopState)
    requires Inv(s) && NextPass(s, res, takes, drained, s')
    ensures GoodBatch(Batch(Reversed(Taken(s.container, res)), drained), |s.batches|, s')
  {
    var ready := Taken(s.container, res);
    DrainsConserve(s.timers, takes, s.now, s'.now, s'.timers, drained);
    PartitionConserves(s.container, res);
    PartitionIsStable(s.container, res);
    ReversedIsMirror(ready);
    forall e | e in Reversed(ready) + drained ensures e.id < |s.born| && s.born[e.id] <= |s.batches| {
      if e in Reversed(ready) {
        assert e in Bag(Reversed(ready));
        assert e in ready;
      } else {
        assert e in Bag(drained);
        assert e in Bag(s.timers);
      }
      InSubmitted(s, e);
    }
  }

  lemma StaysGood(b: Batch, n: nat, s: LoopState, s': LoopState)
    requires GoodBatch(b, n, s) && s.born == s'.born
    ensures GoodBatch(b, n, s')
  {
  }

  lemma FlattenOneMore(bs: seq<Batch>, b: Batch)
    ensures Flatten(bs + [b]) == Flatten(bs) + All(b)
  {
    assert (bs + [b])[..|bs|] == bs;
  }

  lemma PassKeepsGenerations(
      s: LoopState, res: set<Interest>, takes: seq<Take>, drained: seq<TimerEvent>, s': LoopState)
    requires Inv(s) && NextPass(s, res, takes, drained, s')
    ensures InGenerations(s')
  {
    hide GoodBatch, Conserved, Numbered, OnTime, StaleIsLast, Flatten, IncreasingIds, Drains, Taken, Kept, Reversed;
    PassMakesGoodBatch(s, res, takes, drained, s');
    PartitionIsStable(s.container, res);
    var last := Batch(Reversed(Taken(s.container, res)), drained);
    FlattenOneMore(s.batches, last);
    assert s'.executed + s'.fifo == s.executed + s.fifo + All(last);
    forall n | 0 <= n < |s'.batches| ensures GoodBatch(s'.batches[n], n, s') {
      if n < |s.batches| {
        StaysGood(s.batches[n], n, s, s');
      }
    }
  }

  lemma PassKeepsTime(
      s: LoopState, res: set<Interest>, takes: seq<Take>, drained: seq<TimerEvent>, s': LoopState)
    requires OnTime(s) && NextPass(s, res, takes, drained, s')
    ensures OnTime(s')
  {
    hide Timers.Deadline, Flatten;
    DrainsConserve(s.timers, takes, s.now, s'.now, s'.timers, drained);
    var io := Reversed(Taken(s.container, res));
    assert forall e <- io :: e.IO?;
    forall e | e in s'.fifo && e.Clock? ensures Timers.Deadline(e) <= s'.now {
      assert e in s.fifo || e in io || e in drained;
    }
  }

  lemma PassKeepsInv(
      s: LoopState, res: set<Interest>, takes: seq<Take>, drained: seq<TimerEvent>, s': LoopState)
    requires Inv(s) && NextPass(s, res, takes, drained, s')
    ensures Inv(s')
  {
    hide InGenerations, Conserved, OnTime;
    PassConserves(s, res, takes, drained, s');
    PassKeepsGenerations(s, res, takes, drained, s');
    PassKeepsTime(s, res, takes, drained, s');
  }

  /** Every step keeps the invariant. */
  lemma NextKeepsInv(s: LoopState, step: Step, s': LoopState)
    requires Inv(s) && Next(s, step, s')
    ensures Inv(s')
  {
    match step
    case Submit(e, rs) => SubmitKeepsInv(s, e, rs, s');
    case Execute => ExecuteKeepsInv(s, s');
    case Pass(res, takes, drained) => PassKeepsInv(s, res, takes, drained, s');
    case Tick =>
      forall n | 0 <= n < |s'.batches| ensures GoodBatch(s'.batches[n], n, s') {
        assert GoodBatch(s.batches[n], n, s);
      }
  }

  // ---------- runs ----------

  ghost predicate IsChain(states: seq<LoopState>, steps: seq<Step>) {
    && |states| == |steps| + 1
    && forall i :: 0 <= i < |steps| ==> Next(states[i], steps[i], states[i + 1])
  }

  ghost predicate IsRun(states: seq<LoopState>, steps: seq<Step>) {
    IsChain(states, steps) && Initial(states[0])
  }

  lemma {:induction false} RunKeepsInv(states: seq<LoopState>, steps: seq<Step>, i: nat)
    requires IsRun(states, steps) && i < |states|
    ensures Inv(states[i])
  {
    if i > 0 {
      RunKeepsInv(states, steps, i - 1);
      NextKeepsInv(states[i - 1], steps[i - 1], states[i]);
    }
  }

  lemma {:induction false} OnceSubmitted(es: seq<Event>, e: Event)
    requires forall k :: 0 <= k < |es| ==> es[k].id == k
    ensures Bag(es)[e] <= 1
  {
    if es != [] {
      var init, last := es[..|es| - 1], es[|es| - 1];
      OnceSubmitted(init, e);
      assert es == init + [last];
      forall k | 0 <= k < |init| ensures init[k] != last {
        assert init[k] == es[k];
      }
    }
  }

  /** At every moment of every run a submitted event is in one place: three stores or the past. */
  lemma InOnePlace(states: seq<LoopState>, steps: seq<Step>, i: nat, e: Event)
    requires IsRun(states, steps) && i < |states| && e in states[i].submitted
    ensures var s := states[i];
            Bag(s.container)[e] + Bag(s.timers)[e] + Bag(s.fifo)[e] + Bag(s.executed)[e] == 1
  {
    RunKeepsInv(states, steps, i);
    OnceSubmitted(states[i].submitted, e);
    assert e in Bag(states[i].submitted);
  }

  /** When `run` finds the queue empty, every submitted event has been executed exactly once. */
  lemma ExactlyOnce(states: seq<LoopState>, steps: seq<Step>)
    requires IsRun(states, steps) && Empty(states[|steps|])
    ensures var s := states[|steps|];
            && |s.executed| == |s.submitted|
            && forall e :: Bag(s.executed)[e] == if e in s.submitted then 1 else 0
  {
    var s := states[|steps|];
    RunKeepsInv(states, steps, |steps|);
    assert Bag(s.executed) == Bag(s.submitted);
    assert |Bag(s.executed)| == |s.executed| && |Bag(s.submitted)| == |s.submitted|;
    forall e ensures Bag(s.executed)[e] == if e in s.submitted then 1 else 0 {
      if e in s.submitted {
        OnceSubmitted(s.submitted, e);
        assert e in Bag(s.submitted);
      } else {
        assert e !in Bag(s.submitted);
      }
    }
  }

  lemma {:induction false} FlattenPrefix(bs: seq<Batch>, cs: seq<Batch>)
    requires bs <= cs
    ensures Flatten(bs) <= Flatten(cs)
    decreases |cs|
  {
    if bs != cs {
      FlattenPrefix(bs, cs[..|cs| - 1]);
    }
  }

  /** Histories and the clock only grow. */
  ghost predicate Grows(s: LoopState, s': LoopState) {
    s.submitted <= s'.submitted && s.batches <= s'.batches && s.executed <= s'.executed && s.now <= s'.now
  }

  lemma StepGrows(s: LoopState, step: Step, s': LoopState)
    requires Next(s, step, s')
    ensures Grows(s, s')
  {
    if step.Pass? {
      DrainsForward(s.timers, step.takes, s.now, s'.now, s'.timers, step.drained);
    }
  }

  lemma GrowsTransitive(s: LoopState, t: LoopState, u: LoopState)
    requires Grows(s, t) && Grows(t, u)
    ensures Grows(s, u)
  {
  }

  lemma {:induction false} HistoryGrows(states: seq<LoopState>, steps: seq<Step>, i: nat, j: nat)
    requires IsChain(states, steps) && i <= j < |states|
    ensures Grows(states[i], states[j])
    decreases j - i
  {
    hide Next, Grows;
    if i < j {
      HistoryGrows(states, steps, i, j - 1);
      StepGrows(states[j - 1], steps[j - 1], states[j]);
      GrowsTransitive(states[i], states[j - 1], states[j]);
    } else {
      SelfGrows(states[i]);
    }
  }

  lemma SelfGrows(s: LoopState)
    ensures Grows(s, s)
  {
  }

  /**
   * What has been executed or handed over at any moment of a run is a beginning of what is executed or
   * handed over at the end: no later pass gets in front of it.
   */
  lemma HandedOverStays(states: seq<LoopState>, steps: seq<Step>, m: nat)
    requires IsRun(states, steps) && m < |states|
    ensures var s, f := states[m], states[|steps|]; s.executed + s.fifo <= f.executed + f.fifo
  {
    RunKeepsInv(states, steps, m);
    RunKeepsInv(states, steps, |steps|);
    HistoryGrows(states, steps, m, |steps|);
    FlattenPrefix(states[m].batches, states[|steps|].batches);
  }

  /**
   * Events run in generations: whatever is submitted at a step (in particular by a callback) runs
   * after everything executed so far and after everything already handed over, in that order.
   */
  lemma LaterSubmissionRunsLater(states: seq<LoopState>, steps: seq<Step>, m: nat, j: nat)
    requires IsRun(states, steps) && m < |steps| && steps[m].Submit?
    requires var f := states[|steps|]; j < |f.executed| && f.executed[j] == steps[m].event
    ensures j >= |states[m].executed| + |states[m].fifo|
  {
    var s, f := states[m], states[|steps|];
    RunKeepsInv(states, steps, m);
    HandedOverStays(states, steps, m);
    var past := s.executed + s.fifo;
    assert Next(s, steps[m], states[m + 1]);
    if j < |past| {
      assert past[j] == (f.executed + f.fifo)[j] == f.executed[j] == steps[m].event;
      assert past[j] in s.executed || past[j] in s.fifo;
      InSubmitted(s, past[j]);
    }
  }

  lemma TakeApart(before: seq<Event>, io: seq<IOEvent>, timers: seq<TimerEvent>)
    ensures var all := before + (io + timers);
            && before <= all && all[|before|..] == io + timers
            && (io + timers)[..|io|] == io && (io + timers)[|io|..] == timers
            && forall e <- (io + timers)[..|io|] :: e.IO?
  {
    var es: seq<Event> := io;
    assert (io + timers)[..|io|] == es;
    assert forall e <- es :: e in io;
  }

  /** A pass moves exactly the events whose pair was reported. */
  lemma PassSplits(
      s: LoopState, res: set<Interest>, takes: seq<Take>, drained: seq<TimerEvent>, s': LoopState)
    requires NextPass(s, res, takes, drained, s')
    ensures forall e <- s.container ::
              if PairOf(e) in res then e in s'.fifo && e !in s'.container
              else e in s'.container && (e in s'.fifo ==> e in s.fifo)
  {
    var io := Reversed(Taken(s.container, res));
    PartitionConserves(s.container, res);
    ReversedIsMirror(Taken(s.container, res));
    assert forall e :: e in s'.fifo <==> e in s.fifo || e in io || e in drained;
    forall e | e in s.container && PairOf(e) in res ensures e in io {
      assert e in Bag(io);
    }
    forall e | e in io ensures PairOf(e) in res {
      assert e in Bag(io);
    }
  }

  /** Within one pass: exactly the reported I/O events, in reverse submission order, then timers. */
  lemma PassOrder(states: seq<LoopState>, steps: seq<Step>, m: nat)
    requires IsRun(states, steps) && m < |steps| && steps[m].Pass?
    ensures states[m].fifo <= states[m + 1].fifo
    ensures var s, moved := states[m], states[m + 1].fifo[|states[m].fifo|..];
            var n := |moved| - |steps[m].drained|;
            && n >= 0
            && (forall e <- moved[..n] :: e.IO?) && DecreasingIds(moved[..n])
            && moved[n..] == steps[m].drained
            && (forall e <- moved :: e.id < |s.submitted| && s.submitted[e.id] == e)
    ensures var s, s' := states[m], states[m + 1];
            && s'.submitted == s.submitted && s'.executed == s.executed
            && forall e <- s.container ::
                 if PairOf(e) in steps[m].res then e in s'.fifo && e !in s'.container
                 else e in s'.container && (e in s'.fifo ==> e in s.fifo)
  {
    var s, s' := states[m], states[m + 1];
    PassSplits(s, steps[m].res, steps[m].takes, steps[m].drained, s');
    RunKeepsInv(states, steps, m);
    RunKeepsInv(states, steps, m + 1);
    assert Next(s, steps[m], s');
    var io := Reversed(Taken(s.container, steps[m].res));
    var moved := s'.fifo[|s.fifo|..];
    TakeApart(s.fifo, io, steps[m].drained);
    PassMakesGoodBatch(s, steps[m].res, steps[m].takes, steps[m].drained, s');
    forall e | e in moved ensures e.id < |s.submitted| && s.submitted[e.id] == e {
      assert e in s'.fifo;
      InSubmitted(s', e);
    }
  }

  /** No timer callback runs before its start point plus its wait. */
  lemma NoTimerRunsEarly(states: seq<LoopState>, steps: seq<Step>, m: nat)
    requires IsRun(states, steps) && m < |steps| && steps[m] == Execute
    ensures var s := states[m];
            s.fifo != [] && (s.fifo[0].Clock? ==> s.fifo[0].begin + s.fifo[0].wait * Timers.SECOND <= s.now)
  {
    RunKeepsInv(states, steps, m);
    assert Next(states[m], steps[m], states[m + 1]);
  }

  /**
   * The timer submitted, if any, was started in phase, and every comparison of the step read its left
   * operand in the same second as its right one, or in the next.
   */
  ghost predicate Steady(step: Step, phase: int) {
    match step
    case Submit(e, rs) => (e.Clock? ==> Timers.InPhase(e, phase)) && Agreeing(rs, phase)
    case Execute => true
    case Pass(_, takes, _) => SteadyTakes(takes, phase)
    case Tick => true
  }

  ghost predicate AllSteady(steps: seq<Step>, phase: int) {
    forall k :: 0 <= k < |steps| ==> Steady(steps[k], phase)
  }

  /** A steady step keeps the heap in order. */
  lemma StepSettles(s: LoopState, step: Step, s': LoopState, phase: int)
    requires Next(s, step, s') && Steady(step, phase) && Settled(s.timers, phase, s.now)
    ensures Settled(s'.timers, phase, s'.now)
  {
    hide Settled, Timers.InPhase, Agreeing;
    match step
    case Submit(e, rs) =>
      if e.Clock? {
        SettledLater(s.timers, phase, s.now, e.begin);
        PushedSettles(s.timers, e, rs, phase, e.begin, s'.now);
      }
    case Execute =>
    case Pass(_, takes, drained) =>
      DrainsCompletely(s.timers, takes, s.now, s'.now, s'.timers, drained, phase);
    case Tick =>
      SettledLater(s.timers, phase, s.now, s'.now);
  }

  /**
   * As long as the timers start in phase and the comparisons' readings agree, the heap is ordered by
   * `timeLeft` at every moment and would stay so at every later time, through any interleaving of
   * pushes, pops and clock readings.
   */
  lemma {:induction false} HeapStaysOrdered(
      states: seq<LoopState>, steps: seq<Step>, i: nat, phase: int, later: int)
    requires IsRun(states, steps) && i < |states| && AllSteady(steps[..i], phase) && states[i].now <= later
    ensures Settled(states[i].timers, phase, later)
    decreases i
  {
    if i > 0 {
      var s, step, s' := states[i - 1], steps[i - 1], states[i];
      assert steps[..i][i - 1] == step;
      assert steps[..i - 1] == steps[..i][..i - 1];
      HeapStaysOrdered(states, steps, i - 1, phase, s.now);
      StepSettles(s, step, s', phase);
      SettledLater(s'.timers, phase, s'.now, later);
    }
  }

  lemma ReadWithinASecond(rs: seq<Reading>, from: int, to: int, phase: int)
    requires Within(rs, from, to) && Timers.SameSecond(from, to, phase)
    ensures Agreeing(rs, phase)
  {
    forall r | r in rs ensures Timers.ReadingsAgree(r.left, r.right, phase) {
      Timers.SameSecondWithin(from, r.left, r.right, to, phase);
    }
  }

  lemma {:induction false} DrainedWithinASecond(
      h: seq<TimerEvent>, takes: seq<Take>, from: int, last: int, h': seq<TimerEvent>, drained: seq<TimerEvent>,
      phase: int)
    requires Drains(h, takes, from, last, h', drained) && Timers.SameSecond(from, last, phase)
    ensures SteadyTakes(takes, phase)
    decreases |takes|
  {
    hide AfterPop, Timers.SameSecond, Timers.IsReady, Agreeing;
    if takes != [] {
      var take := takes[0];
      DrainsForward(AfterPop(h, take.readings).heap, takes[1..], take.done, last, h', drained[1..]);
      Timers.SameSecondWithin(from, take.checked, take.done, last, phase);
      Timers.SameSecondWithin(from, take.done, take.done, last, phase);
      ReadWithinASecond(take.readings, take.checked, take.done, phase);
      DrainedWithinASecond(
        AfterPop(h, take.readings).heap, takes[1..], take.done, last, h', drained[1..], phase);
      assert takes == [take] + takes[1..];
    }
  }

  /** In particular a run is steady if its timers start in phase and no step sees the second change. */
  lemma WithinSecondsIsSteady(states: seq<LoopState>, steps: seq<Step>, phase: int)
    requires IsRun(states, steps)
    requires forall i :: 0 <= i < |steps| && !steps[i].Tick? ==>
               Timers.SameSecond(states[i].now, states[i + 1].now, phase)
    requires forall i :: 0 <= i < |steps| && steps[i].Submit? && steps[i].event.Clock? ==>
               Timers.InPhase(steps[i].event, phase)
    ensures AllSteady(steps, phase)
  {
    hide Timers.SameSecond, Timers.InPhase, Agreeing;
    forall k | 0 <= k < |steps| ensures Steady(steps[k], phase) {
      var s, s' := states[k], states[k + 1];
      assert Next(s, steps[k], s');
      match steps[k]
      case Submit(e, rs) =>
        if e.Clock? {
          assert Within(rs, s.now, s'.now);
          ReadWithinASecond(rs, s.now, s'.now, phase);
        } else {
          NothingAgrees(phase);
        }
      case Execute =>
      case Pass(_, takes, drained) =>
        DrainedWithinASecond(s.timers, takes, s.now, s'.now, s'.timers, drained, phase);
      case Tick =>
    }
  }

  lemma NothingAgrees(phase: int)
    ensures Agreeing([], phase)
  {
  }

  /**
   * Under the same condition the drain is complete: a pass leaves no expired timer in the heap, and so
   * never hands a timer over while one with an earlier or equal deadline stays.
   */
  lemma DrainIsComplete(states: seq<LoopState>, steps: seq<Step>, m: nat, phase: int)
    requires IsRun(states, steps) && m < |steps| && steps[m].Pass? && AllSteady(steps[..m + 1], phase)
    ensures forall u <- states[m + 1].timers :: states[m + 1].now < Timers.Deadline(u)
    ensures forall t, u :: t in steps[m].drained && u in states[m + 1].timers ==>
              Timers.Deadline(t) < Timers.Deadline(u)
  {
    hide Settled, Timers.Deadline;
    var s, s', takes, drained := states[m], states[m + 1], steps[m].takes, steps[m].drained;
    assert Next(s, steps[m], s');
    assert steps[..m + 1][m] == steps[m];
    assert steps[..m] == steps[..m + 1][..m];
    RunKeepsInv(states, steps, m);
    HeapStaysOrdered(states, steps, m, phase, s.now);
    DrainsConserve(s.timers, takes, s.now, s'.now, s'.timers, drained);
    DrainsCompletely(s.timers, takes, s.now, s'.now, s'.timers, drained, phase);
  }

  /**
   * The run submits timers with these start points, makes one pass and does nothing else; the
   * comparisons' readings agree.
   */
  ghost predicate TimersThenPass(states: seq<LoopState>, steps: seq<Step>, starts: seq<int>)
    requires starts != []
  {
    && IsRun(states, steps) && |steps| == |starts| + 1
    && (forall i :: 0 <= i < |starts| ==>
          && steps[i].Submit? && steps[i].event.Clock? && steps[i].event.begin == starts[i]
          && Agreeing(steps[i].readings, starts[0]))
    && steps[|starts|].Pass? && SteadyTakes(steps[|starts|].takes, starts[0])
  }

  /** Whatever the timers' waits and whenever the pass is made, it leaves no expired timer behind. */
  ghost predicate PassesDrain(starts: seq<int>)
    requires starts != []
  {
    forall states: seq<LoopState>, steps: seq<Step> :: TimersThenPass(states, steps, starts) ==>
      forall u <- states[|steps|].timers :: states[|steps|].now < Timers.Deadline(u)
  }

  lemma TimersAreSteady(states: seq<LoopState>, steps: seq<Step>, starts: seq<int>)
    requires starts != [] && SecondsApart(starts) && TimersThenPass(states, steps, starts)
    ensures AllSteady(steps, starts[0])
  {
  }

  /** A run that starts and pushes these timers in turn, each while the clock stands still. */
  lemma {:induction false} PushRun(ts: seq<TimerEvent>, n: nat, phase: int)
    returns (states: seq<LoopState>, steps: seq<Step>)
    requires 0 < n <= |ts| && forall i :: 0 <= i < |ts| ==> ts[i].id == i
    requires forall i, j :: 0 <= i <= j < |ts| ==> ts[i].begin <= ts[j].begin
    ensures IsRun(states, steps) && |steps| == n == |states| - 1
    ensures forall i :: 0 <= i < n ==>
              steps[i].Submit? && steps[i].event == ts[i] && Agreeing(steps[i].readings, phase)
    ensures states[n].timers == Built(ts[..n]) && states[n].now == ts[n - 1].begin
    ensures |states[n].submitted| == n && states[n].container == []
  {
    hide IsRun, Agreeing, Risen, Comparisons, Flatten;
    var e := ts[n - 1];
    if n == 1 {
      states, steps := [LoopState([], [], [], [], e.begin, [], [], [], [])], [];
      RunBegins(states[0]);
    } else {
      states, steps := PushRun(ts, n - 1, phase);
    }
    var s := states[n - 1];
    var h := s.timers + [e];
    assert ts[..n][..n - 1] == ts[..n - 1];
    assert s.timers == Built(ts[..n - 1]) && |s.submitted| == n - 1 && s.container == [];
    assert Built(ts[..n]) == PushedNow(s.timers, e);
    var rs := Still(Comparisons(h, |h| - 1, e, e.begin), e.begin);
    StillRises(h, |h| - 1, e, e.begin);
    StillIsSteady(|rs|, e.begin, phase);
    var s' := s.(
      timers := Built(ts[..n]), now := e.begin,
      submitted := s.submitted + [e], born := s.born + [|s.batches|]);
    assert NextSubmit(s, e, rs, s');
    ExtendRun(states, steps, Submit(e, rs), s');
    states, steps := states + [s'], steps + [Submit(e, rs)];
  }

  /** With two start points out of phase: a run whose pass leaves an expired timer in the heap. */
  lemma OutOfPhaseRun(starts: seq<int>, k: nat) returns (states: seq<LoopState>, steps: seq<Step>, u: TimerEvent)
    requires 0 < k < |starts| && Ascending(starts) && (starts[k] - starts[0]) % Timers.SECOND != 0
    ensures TimersThenPass(states, steps, starts)
    ensures var s := states[|steps|]; u in s.timers && Timers.Deadline(u) <= s.now
  {
    hide IsRun, Agreeing, Timers.Deadline, Timers.IsReady, Timers.TimeLeft, Rivals, Built;
    var n := |starts|;
    var ts, now := OutOfPhaseRivals(starts, k);
    assert ts[..n] == ts;
    LaterRivalOnTop(ts, k, n);
    BuiltConserves(ts);
    states, steps := PushRun(ts, n, starts[0]);
    var s := states[n];
    var s' := s.(stale := [], now := now, batches := s.batches + [Batch([], [])]);
    assert NextPass(s, {}, [], [], s');
    ExtendRun(states, steps, Pass({}, [], []), s');
    states, steps := states + [s'], steps + [Pass({}, [], [])];
    u := ts[0];
    assert u in Bag(ts) && u in Bag(s.timers);
    Timers.TimeLeftRoundsUp(u, now);
  }

  /**
   * When drains are complete: for timers started at these instants, whatever their waits and whenever the
   * pass, exactly if the instants are whole seconds apart.
   */
  lemma PassesDrainIffSecondsApart(starts: seq<int>)
    requires starts != [] && Ascending(starts)
    ensures PassesDrain(starts) <==> SecondsApart(starts)
  {
    if SecondsApart(starts) {
      forall states: seq<LoopState>, steps: seq<Step> | TimersThenPass(states, steps, starts)
        ensures forall u <- states[|steps|].timers :: states[|steps|].now < Timers.Deadline(u)
      {
        TimersAreSteady(states, steps, starts);
        assert steps[..|steps|] == steps;
        DrainIsComplete(states, steps, |starts|, starts[0]);
      }
    } else {
      var k := FirstApart(starts);
      var states, steps, u := OutOfPhaseRun(starts, k);
    }
  }

  lemma RunBegins(s: LoopState)
    requires Initial(s)
    ensures IsRun([s], [])
  {
  }

  lemma ExtendRun(states: seq<LoopState>, steps: seq<Step>, step: Step, s: LoopState)
    requires IsRun(states, steps) && Next(states[|steps|], step, s)
    ensures IsRun(states + [s], steps + [step])
  {
    var states', steps' := states + [s], steps + [step];
    forall i | 0 <= i < |steps'| ensures Next(states'[i], steps'[i], states'[i + 1]) {
      if i < |steps| {
        assert Next(states[i], steps[i], states[i + 1]);
      }
    }
  }

  /** The iterations of `run`: an execution or an update pass each. */
  function Turns(steps: seq<Step>): nat {
    if steps == [] then 0 else
    Turns(steps[..|steps| - 1]) + if steps[|steps| - 1].Execute? || steps[|steps| - 1].Pass? then 1 else 0
  }

  lemma {:induction false} TurnsConcat(xs: seq<Step>, ys: seq<Step>)
    ensures Turns(xs + ys) == Turns(xs) + Turns(ys)
    decreases |ys|
  {
    if ys == [] {
      assert xs + ys == xs;
    } else {
      TurnsConcat(xs, ys[..|ys| - 1]);
      assert (xs + ys)[..|xs + ys| - 1] == xs + ys[..|ys| - 1];
    }
  }

  lemma {:induction false} SubmissionsTakeNoTurn(steps: seq<Step>)
    requires forall step <- steps :: step.Submit?
    ensures Turns(steps) == 0
  {
    if steps != [] {
      SubmissionsTakeNoTurn(steps[..|steps| - 1]);
      assert steps[|steps| - 1] in steps;
    }
  }

  /** The update passes that handed nothing over. */
  function IdlePasses(bs: seq<Batch>): nat {
    if bs == [] then 0 else IdlePasses(bs[..|bs| - 1]) + if All(bs[|bs| - 1]) == [] then 1 else 0
  }

  lemma {:induction false} BusyPassesHandOver(bs: seq<Batch>)
    ensures |bs| - IdlePasses(bs) <= |Flatten(bs)|
  {
    if bs != [] {
      BusyPassesHandOver(bs[..|bs| - 1]);
    }
  }

  lemma {:induction false} TurnsAreHistory(states: seq<LoopState>, steps: seq<Step>)
    requires IsRun(states, steps)
    ensures Turns(steps) == |states[|steps|].executed| + |states[|steps|].batches|
  {
    if steps != [] {
      var n := |steps| - 1;
      TurnsAreHistory(states[..n + 1], steps[..n]);
      assert Next(states[n], steps[n], states[n + 1]);
    }
  }

  /** In a run that submits N events `run` iterates at most 2N times, idle passes aside. */
  lemma WorkBound(states: seq<LoopState>, steps: seq<Step>)
    requires IsRun(states, steps)
    ensures var s := states[|steps|]; Turns(steps) <= 2 * |s.submitted| + IdlePasses(s.batches)
  {
    var s := states[|steps|];
    RunKeepsInv(states, steps, |steps|);
    TurnsAreHistory(states, steps);
    BusyPassesHandOver(s.batches);
    assert |Bag(s.submitted)| == |s.submitted|;
    assert |Bag(s.fifo)| + |Bag(s.executed)| == |s.fifo| + |s.executed|;
  }

  /**
   * With nothing left to execute, `run` exits at once or after one more pass: at once iff the last
   * pass handed over no I/O event.
   */
  lemma OneMorePass(states: seq<LoopState>, steps: seq<Step>, m: nat)
    requires IsRun(states, steps) && m < |states| && Quiescent(states[m])
    ensures var bs := states[m].batches; Empty(states[m]) <==> bs == [] || bs[|bs| - 1].io == []
    ensures m < |steps| && steps[m].Pass? ==> Empty(states[m + 1])
  {
    RunKeepsInv(states, steps, m);
    ReversedIsMirror(states[m].stale);
    if m < |steps| && steps[m].Pass? {
      assert Next(states[m], steps[m], states[m + 1]);
      var s' := states[m + 1];
      NothingToDrain(states[m], steps[m].res, steps[m].takes, steps[m].drained, s');
    }
  }

  /** The stale vector points at events that are over by the next pass, yet it keeps `run` going. */
  lemma StaleEventsAreOver(states: seq<LoopState>, steps: seq<Step>, m: nat, e: IOEvent)
    requires IsRun(states, steps) && m < |states| && states[m].fifo == [] && e in states[m].stale
    ensures e in states[m].executed && !Empty(states[m])
  {
    var s := states[m];
    RunKeepsInv(states, steps, m);
    ReversedIsMirror(s.stale);
    assert e in Bag(Reversed(s.stale));
    var last := s.batches[|s.batches| - 1];
    assert e in last.io;
    assert e in All(last);
    assert e in Flatten(s.batches);
  }
}
