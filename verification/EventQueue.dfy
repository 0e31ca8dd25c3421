/** The event queue: the FIFO of ready tasks in front of the I/O container and the timer heap. */
module EventQueue {
  import opened Backends
  import opened Events
  import opened HeapSpec
  import opened Interests
  import opened IOEventContainer
  import opened LoopSpec
  import opened TimerHeap
  import opened Timers

  class Queue {
    var readyTasks: seq<Event>
    const ioEvents: Container
    const timerEvents: Heap
    const clock: SystemClock
    /** Gives every new event its identity. */
    var nextId: nat
    ghost var submitted: seq<Event>
    ghost var born: seq<nat>
    ghost var executed: seq<Event>
    ghost var batches: seq<Batch>
    /** The run of this queue so far. */
    ghost var states: seq<LoopState>
    ghost var steps: seq<Step>

    ghost function Repr(): set<object> {
      {this, ioEvents, timerEvents, clock} + ioEvents.tracker.Repr()
    }

    ghost predicate Sound()
      reads Repr()
    {
      && ioEvents.Valid()
      && timerEvents.clock == clock && timerEvents.Valid()
      && nextId == |submitted|
      && {this, ioEvents, timerEvents, clock} !! ioEvents.tracker.Repr()
    }

    ghost predicate Valid()
      reads Repr()
    {
      Sound() && IsRun(states, steps) && |states| == |steps| + 1 && states[|steps|] == State()
    }

    ghost function State(): LoopState
      reads Repr()
    {
      LoopState(ioEvents.container, ioEvents.ready, readyTasks, timerEvents.heap,
                clock.now, submitted, born, executed, batches)
    }

    /** What the tracker wants. */
    ghost function Wanted(): set<Interest>
      reads Repr()
    {
      ioEvents.tracker.Interests()
    }

    ghost predicate Coupled()
      reads Repr()
    {
      ioEvents.Coupled()
    }

    lemma FifoInState()
      ensures State().fifo == readyTasks
    {
    }

    lemma CoupledIfWanted()
      ensures Coupled() <==> Wanted() == Pairs(ioEvents.container)
    {
    }

    constructor (tracker: IOManager, start: int)
      requires tracker.Valid() && tracker.Interests() == {}
      ensures Valid() && Coupled() && Initial(State()) && steps == []
      ensures ioEvents.tracker == tracker && fresh(Repr() - tracker.Repr())
    {
      hide IsRun, Heap.Valid;
      var c := new SystemClock(start);
      clock := c;
      ioEvents := new Container(tracker);
      timerEvents := new Heap(c);
      readyTasks, nextId := [], 0;
      submitted, born, executed, batches, steps := [], [], [], [], [];
      new;
      RunBegins(State());
      states := [State()];
    }

    ghost method NoteBatch(b: Batch)
      requires Sound()
      modifies this`batches
      ensures Sound() && batches == old(batches) + [b]
      ensures Coupled() == old(Coupled()) && Wanted() == old(Wanted())
    {
      batches := batches + [b];
    }

    /** Records in the history that `step` has led to the current state. */
    ghost method Record(step: Step)
      requires Sound() && IsRun(states, steps) && Next(states[|steps|], step, State())
      modifies this`states, this`steps
      ensures Valid() && State() == old(State())
      ensures Coupled() == old(Coupled()) && Wanted() == old(Wanted())
      ensures states == old(states) + [State()] && steps == old(steps) + [step]
    {
      hide Next;
      ExtendRun(states, steps, step, State());
      states, steps := states + [State()], steps + [step];
    }

    /** `new ReadEvent` or `new WriteEvent`, then submit. */
    method SubmitIO(socket: SocketId, fd: Fd, dir: Dir, cb: Callback) returns (e: IOEvent)
      requires Valid() && ioEvents.tracker.Admits(fd)
      modifies Repr()
      ensures Valid() && e == IO(|old(submitted)|, socket, fd, dir, cb)
      ensures NextSubmit(old(State()), e, [], State())
      ensures steps == old(steps) + [Submit(e, [])] && states == old(states) + [State()]
      ensures Wanted() == ioEvents.tracker.Joined(old(Wanted()), Interest(fd, dir))
      ensures old(Coupled()) ==>
                (Coupled() <==>
                 !ioEvents.tracker.Epolling? || Opposite(PairOf(e)) !in Pairs(old(ioEvents.container)))
    {
      e := IO(nextId, socket, fd, dir, cb);
      ioEvents.Append(e);
      nextId := nextId + 1;
      submitted, born := submitted + [e], born + [|batches|];
      SubmitIsNext(old(State()), e, [], State());
      Record(Submit(e, []));
    }

    /** Builds the timer, whose start point is a clock reading, and pushes it onto the heap. */
    method Arm(wait: int, cb: Callback) returns (e: TimerEvent, ghost rs: seq<Reading>)
      requires Sound()
      modifies timerEvents, clock
      ensures Sound() && (old(Coupled()) ==> Coupled()) && Wanted() == old(Wanted())
      ensures e.id == nextId && e.wait == wait && e.cb == cb
      ensures old(clock.now) <= e.begin <= clock.now
      ensures Within(rs, e.begin, clock.now) && AfterPush(old(timerEvents.heap), e, rs) == Sifted(timerEvents.heap)
    {
      hide AfterPush, Heap.Valid, Container.Valid, Container.Coupled;
      var begin := timerEvents.Tick();
      e := Clock(nextId, begin, wait, cb);
      rs := timerEvents.Push(e);
      assert unchanged(ioEvents) && unchanged(ioEvents.tracker.Repr());
    }

    /** `new ClockEvent`, then submit. */
    method SubmitTimer(wait: int, cb: Callback) returns (e: TimerEvent, ghost rs: seq<Reading>)
      requires Valid()
      modifies Repr()
      ensures Valid() && e.id == |old(submitted)| && e.wait == wait && e.cb == cb
      ensures NextSubmit(old(State()), e, rs, State())
      ensures steps == old(steps) + [Submit(e, rs)] && states == old(states) + [State()]
      ensures (old(Coupled()) ==> Coupled()) && Wanted() == old(Wanted())
    {
      hide IsRun, Next, AfterPush, Container.Valid, Container.Coupled, Heap.Valid;
      e, rs := Arm(wait, cb);
      nextId := nextId + 1;
      submitted, born := submitted + [e], born + [|batches|];
      SubmitIsNext(old(State()), e, rs, State());
      Record(Submit(e, rs));
    }

    /** Any reading of the clock outside the queue. */
    method Now() returns (now: int)
      requires Valid()
      modifies Repr()
      ensures Valid() && old(clock.now) <= clock.now == now
      ensures State() == old(State()).(now := now)
      ensures steps == old(steps) + [Step.Tick] && states == old(states) + [State()]
      ensures (old(Coupled()) ==> Coupled()) && Wanted() == old(Wanted())
    {
      now := timerEvents.Tick();
      Record(Step.Tick);
    }

    method Pop() returns (e: Popped)
      requires Valid()
      modifies this
      ensures Valid()
      ensures old(readyTasks) == [] ==>
                e == Null && State() == old(State()) && steps == old(steps) && states == old(states)
      ensures old(readyTasks) != [] ==>
                && e == Popped(old(readyTasks)[0]) && NextExecute(old(State()), State())
                && steps == old(steps) + [Execute] && states == old(states) + [State()]
      ensures (old(Coupled()) ==> Coupled()) && Wanted() == old(Wanted())
    {
      if |readyTasks| != 0 {
        e := Popped(readyTasks[0]);
        executed := executed + [readyTasks[0]];
        readyTasks := readyTasks[1..];
        Record(Execute);
      } else {
        e := Null;
      }
    }

    /** Moves the ready I/O events into the FIFO, last one first. */
    method PushReadyIo()
      modifies this`readyTasks
      ensures readyTasks == old(readyTasks) + Reversed(ioEvents.ready)
    {
      var readyIo := ioEvents.GetReadyIoEvs();
      while readyIo != []
        invariant readyTasks + Reversed(readyIo) == old(readyTasks) + Reversed(ioEvents.ready)
        decreases |readyIo|
      {
        readyTasks := readyTasks + [readyIo[|readyIo| - 1]];
        readyIo := readyIo[..|readyIo| - 1];
      }
    }

    /** Replaces the ready vector by the events the tracker reports, and pushes them into the FIFO. */
    method CollectIo(a: Answer) returns (thrown: bool, ghost res: set<Interest>)
      requires Sound() && ioEvents.tracker.MayAnswer(a)
      modifies this`readyTasks, ioEvents, ioEvents.tracker.Repr()
      ensures Sound() && thrown == a.Failed?
      ensures thrown ==>
                && ioEvents.container == old(ioEvents.container) && ioEvents.ready == old(ioEvents.ready)
                && readyTasks == old(readyTasks) && (old(Coupled()) ==> Coupled()) && Wanted() == old(Wanted())
      ensures !thrown ==>
                && ioEvents.container == Kept(old(ioEvents.container), res)
                && ioEvents.ready == Taken(old(ioEvents.container), res)
                && res == ioEvents.tracker.HandedOut(old(Wanted()), a) <= a.ready
                && Wanted() == ioEvents.tracker.Left(old(Wanted()), a)
                && readyTasks == old(readyTasks) + Reversed(ioEvents.ready)
      ensures !thrown && old(Coupled()) ==>
                && res == ioEvents.tracker.HandedOut(Pairs(old(ioEvents.container)), a)
                && (Coupled() <==> ioEvents.tracker.ForgetsOnlyReported(Pairs(old(ioEvents.container)), a))
      ensures !thrown && old(Coupled()) &&
              (ioEvents.tracker.Epolling? ==>
                 old(ioEvents.tracker.Fits()) && Clean(Pairs(old(ioEvents.container)), a)) ==>
                res == Pairs(old(ioEvents.container)) * a.ready
    {
      hide Clean, Pairs;
      thrown, res := ioEvents.UpdateAllP(a);
      if !thrown {
        PushReadyIo();
      }
    }

    /** Moves timers from the top of the heap into the FIFO until the top is not ready. */
    method DrainTimers() returns (ghost takes: seq<Take>, ghost drained: seq<TimerEvent>)
      requires timerEvents.clock == clock && timerEvents.Valid()
      modifies this`readyTasks, timerEvents`heap, clock
      ensures timerEvents.Valid() && readyTasks == old(readyTasks) + drained
      ensures Drains(old(timerEvents.heap), takes, old(clock.now), clock.now, timerEvents.heap, drained)
    {
      hide IsReady, AfterPop, DrainGoesOn, Drains;
      takes, drained := [], [];
      var more := true;
      ghost var from := clock.now;
      DrainBegins(timerEvents.heap, from);
      while more && timerEvents.heap != []
        invariant timerEvents.Valid() && readyTasks == old(readyTasks) + drained
        invariant DrainGoesOn(old(timerEvents.heap), old(clock.now), takes, drained, timerEvents.heap, from)
        invariant from <= clock.now && (more ==> from == clock.now)
        invariant !more ==> timerEvents.heap != [] && !IsReady(timerEvents.heap[0], clock.now)
        decreases |timerEvents.heap|, more
      {
        more := timerEvents.TopIsReady();
        if more {
          ghost var before, checked, top := timerEvents.heap, clock.now, timerEvents.heap[0];
          readyTasks := readyTasks + [timerEvents.heap[0]];
          ghost var rs := timerEvents.Pop();
          ghost var take := Take(checked, rs, clock.now);
          DrainContinues(old(timerEvents.heap), old(clock.now), takes, drained, before, from, take);
          PoppedConserves(before, rs);
          takes, drained, from := takes + [take], drained + [top], clock.now;
        }
      }
      DrainEnds(old(timerEvents.heap), old(clock.now), takes, drained, timerEvents.heap, from, clock.now);
    }

    method DrainAll() returns (ghost takes: seq<Take>, ghost drained: seq<TimerEvent>)
      requires Sound()
      modifies this`readyTasks, timerEvents, clock
      ensures Sound() && Coupled() == old(Coupled()) && Wanted() == old(Wanted())
      ensures readyTasks == old(readyTasks) + drained
      ensures Drains(old(timerEvents.heap), takes, old(clock.now), clock.now, timerEvents.heap, drained)
    {
      hide Drains, Heap.Valid, Container.Valid, Container.Coupled;
      takes, drained := DrainTimers();
      assert unchanged(ioEvents) && unchanged(ioEvents.tracker.Repr());
    }

    method UpdateReadyTasks(a: Answer)
      returns (thrown: bool, ghost res: set<Interest>, ghost takes: seq<Take>, ghost drained: seq<TimerEvent>)
      requires Valid() && ioEvents.tracker.MayAnswer(a)
      modifies Repr()
      ensures Valid() && thrown == a.Failed?
      ensures thrown ==>
                State() == old(State()) && steps == old(steps) && states == old(states)
      ensures thrown ==> (old(Coupled()) ==> Coupled()) && Wanted() == old(Wanted())
      ensures !thrown ==>
                && res == ioEvents.tracker.HandedOut(old(Wanted()), a) <= a.ready
                && Wanted() == ioEvents.tracker.Left(old(Wanted()), a)
                && NextPass(old(State()), res, takes, drained, State())
                && steps == old(steps) + [Pass(res, takes, drained)] && states == old(states) + [State()]
      ensures !thrown && old(Coupled()) ==>
                && res == ioEvents.tracker.HandedOut(Pairs(old(ioEvents.container)), a)
                && (Coupled() <==> ioEvents.tracker.ForgetsOnlyReported(Pairs(old(ioEvents.container)), a))
      ensures !thrown && old(Coupled()) &&
              (ioEvents.tracker.Epolling? ==>
                 old(ioEvents.tracker.Fits()) && Clean(Pairs(old(ioEvents.container)), a)) ==>
                res == Pairs(old(ioEvents.container)) * a.ready
    {
      hide Clean, Drains, IsRun, Next, Sound, Pairs, Taken, Kept, Reversed;
      hide IOManager.HandedOut, IOManager.ForgetsOnlyReported, IOManager.MayAnswer, IOManager.Fits;
      takes, drained := [], [];
      thrown, res := CollectIo(a);
      if !thrown {
        takes, drained := DrainAll();
        NoteBatch(Batch(Reversed(ioEvents.ready), drained));
        ghost var s, s' := old(State()), State();
        assert s'.stale == Taken(s.container, res) && s'.container == Kept(s.container, res);
        assert s'.fifo == s.fifo + (Reversed(s'.stale) + drained);
        PassIsNext(s, res, takes, drained, s');
        Record(Pass(res, takes, drained));
      }
    }

    predicate Empty()
      requires Valid()
      reads Repr()
      ensures Empty() == LoopSpec.Empty(State())
    {
      ioEvents.Empty() && readyTasks == [] && timerEvents.heap == []
    }
  }
}
