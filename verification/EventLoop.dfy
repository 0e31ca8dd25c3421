/** EventLoop::run, for callbacks that submit whatever they like. */
module EventLoop {
  import opened Backends
  import opened Events
  import opened EventQueue
  import opened HeapSpec
  import opened Interests
  import opened IOEventContainer
  import opened LoopSpec

  /** A submission: `async_read`, `async_write` and `async_accept`, or `setTime`. */
  datatype Request =
    | Watch(socket: SocketId, fd: Fd, dir: Dir, cb: Callback)
    | Wait(seconds: int, cb: Callback)

  /**
   * The environment's part in one iteration of `run`: what the callback submits if an event is
   * executed, and what the kernel answers if a pass is made.
   */
  datatype Turn = Turn(requests: seq<Request>, answer: Answer)

  /** Requests the tracker has room for. */
  ghost predicate Admissible(tracker: IOManager, requests: seq<Request>) {
    forall r <- requests :: r.Watch? ==> tracker.Admits(r.fd)
  }

  /** `e` is the event that `r` asks for. */
  ghost predicate Requested(e: Event, r: Request) {
    match r
    case Watch(socket, fd, dir, cb) => e == IO(e.id, socket, fd, dir, cb)
    case Wait(seconds, cb) => e.Clock? && e.wait == seconds && e.cb == cb
  }

  /** The steps submit the requests one by one, in their order. */
  ghost predicate Submissions(steps: seq<Step>, requests: seq<Request>) {
    && |steps| == |requests|
    && forall k :: 0 <= k < |steps| ==> steps[k].Submit? && Requested(steps[k].event, requests[k])
  }

  /** What a tracker that wanted `w` wants after the requests. */
  ghost function Enlisted(tracker: IOManager, w: set<Interest>, requests: seq<Request>): set<Interest>
    decreases |requests|
  {
    if requests == [] then w else
    var rest := Enlisted(tracker, w, requests[..|requests| - 1]);
    match requests[|requests| - 1]
    case Watch(_, fd, dir, _) => tracker.Joined(rest, Interest(fd, dir))
    case Wait(_, _) => rest
  }

  /**
   * What one iteration of `run` makes of its turn, starting in `s` with the tracker wanting `w`: with an
   * event in the FIFO, its execution and the submissions its callback asks for; otherwise the pass that
   * the answer determines, or nothing if the call failed. `w'` is what the tracker wants afterwards.
   */
  ghost predicate TurnMade(
      tracker: IOManager, s: LoopState, w: set<Interest>, t: Turn, made: seq<Step>, w': set<Interest>)
  {
    if s.fifo != [] then
      && made != [] && made[0] == Execute && Submissions(made[1..], t.requests)
      && w' == Enlisted(tracker, w, t.requests)
    else if t.answer.Failed? then
      made == [] && w' == w
    else
      && |made| == 1 && made[0].Pass? && made[0].res == tracker.HandedOut(w, t.answer)
      && w' == tracker.Left(w, t.answer)
  }

  /**
   * The steps are the turns, one after the other: turn `k` begins at position `heads[k]` of the run, with
   * the tracker wanting `wants[k]`.
   */
  ghost predicate Played(
      tracker: IOManager, states: seq<LoopState>, steps: seq<Step>, heads: seq<nat>, wants: seq<set<Interest>>,
      turns: seq<Turn>)
  {
    && 0 < |heads| == |wants| <= |turns| + 1 && |states| == |steps| + 1
    && (forall k :: 0 <= k < |heads| ==> heads[k] <= |steps|)
    && forall k :: 0 <= k < |heads| - 1 ==>
         && heads[k] <= heads[k + 1]
         && TurnMade(tracker, states[heads[k]], wants[k], turns[k], steps[heads[k]..heads[k + 1]], wants[k + 1])
  }

  lemma PlayBegins(
      tracker: IOManager, states: seq<LoopState>, steps: seq<Step>, w: set<Interest>, turns: seq<Turn>)
    requires |states| == |steps| + 1
    ensures Played(tracker, states, steps, [|steps|], [w], turns)
  {
  }

  /** One more turn has been made. */
  lemma PlayOn(
      tracker: IOManager, states: seq<LoopState>, steps: seq<Step>, heads: seq<nat>, wants: seq<set<Interest>>,
      turns: seq<Turn>, states': seq<LoopState>, made: seq<Step>, w': set<Interest>)
    requires Played(tracker, states, steps, heads, wants, turns) && |heads| <= |turns|
    requires heads[|heads| - 1] == |steps| && states <= states' && |states'| == |steps + made| + 1
    requires TurnMade(tracker, states[|steps|], wants[|heads| - 1], turns[|heads| - 1], made, w')
    ensures Played(tracker, states', steps + made, heads + [|steps + made|], wants + [w'], turns)
  {
    hide TurnMade;
    var heads', steps', n := heads + [|steps + made|], steps + made, |heads| - 1;
    forall k | 0 <= k < |heads'| - 1
      ensures TurnMade(tracker, states'[heads'[k]], wants[k], turns[k], steps'[heads'[k]..heads'[k + 1]],
                       (wants + [w'])[k + 1])
    {
      assert states'[heads[k]] == states[heads[k]];
      if k < n {
        assert TurnMade(tracker, states[heads[k]], wants[k], turns[k], steps[heads[k]..heads[k + 1]], wants[k + 1]);
        assert steps'[heads[k]..heads[k + 1]] == steps[heads[k]..heads[k + 1]];
      } else {
        assert heads'[k] == |steps| && heads'[k + 1] == |steps'|;
        assert steps'[|steps|..|steps'|] == made;
      }
    }
  }

  /** All the events pending for one descriptor wait for the same direction. */
  ghost predicate OneWay(s: LoopState) {
    OneDirection(Pairs(s.container))
  }

  /** No descriptor that the kernel reports is in an error or hang-up condition. */
  ghost predicate FaultFree(turns: seq<Turn>) {
    forall t <- turns :: Unfaulted(t.answer)
  }

  /** For poll and epoll: no descriptor is ever wanted both ways. */
  ghost predicate Unclashing(tracker: IOManager, states: seq<LoopState>) {
    !tracker.Selecting? ==> forall s <- states :: OneWay(s)
  }

  /** What keeps the container and the back end in step; epoll must not meet faults either. */
  ghost predicate Harmless(tracker: IOManager, states: seq<LoopState>, turns: seq<Turn>) {
    && Unclashing(tracker, states)
    && (tracker.Epolling? ==> FaultFree(turns))
  }

  /** With the pending events one way, and no fault for epoll, a pass forgets only what it reports. */
  lemma HarmlessPass(tracker: IOManager, s: LoopState, a: Answer)
    requires a.Reports? && (tracker.Polling? ==> OneWay(s))
    requires tracker.Epolling? ==> Unfaulted(a)
    ensures tracker.ForgetsOnlyReported(Pairs(s.container), a)
  {
  }

  lemma EnlistOneMore(tracker: IOManager, w: set<Interest>, requests: seq<Request>, i: nat)
    requires i < |requests|
    ensures var before := Enlisted(tracker, w, requests[..i]);
            Enlisted(tracker, w, requests[..i + 1]) ==
            if requests[i].Watch? then tracker.Joined(before, Interest(requests[i].fd, requests[i].dir)) else before
  {
    assert requests[..i + 1][..i] == requests[..i];
  }

  class Loop {
    const eventQ: Queue

    ghost function Repr(): set<object> {
      {this} + eventQ.Repr()
    }

    ghost predicate Valid()
      reads Repr()
    {
      this !in eventQ.Repr() && eventQ.Valid()
    }

    constructor (q: Queue)
      requires q.Valid()
      ensures Valid() && eventQ == q
    {
      eventQ := q;
    }

    /** EventLoop::addEvent, for each of the requests in turn. */
    method AddEvents(requests: seq<Request>) returns (ghost added: seq<Step>)
      requires Valid() && Admissible(eventQ.ioEvents.tracker, requests)
      modifies eventQ.Repr()
      ensures Valid() && Submissions(added, requests)
      ensures eventQ.steps == old(eventQ.steps) + added && old(eventQ.states) <= eventQ.states
      ensures eventQ.Wanted() == Enlisted(eventQ.ioEvents.tracker, old(eventQ.Wanted()), requests)
      ensures old(eventQ.Coupled()) && Unclashing(eventQ.ioEvents.tracker, eventQ.states) ==> eventQ.Coupled()
    {
      hide IsRun, NextSubmit, OneDirection, Queue.Sound, Requested;
      added := [];
      var i := 0;
      while i < |requests|
        invariant 0 <= i <= |requests| && Valid()
        invariant Submissions(added, requests[..i])
        invariant eventQ.steps == old(eventQ.steps) + added && old(eventQ.states) <= eventQ.states
        invariant eventQ.Wanted() == Enlisted(eventQ.ioEvents.tracker, old(eventQ.Wanted()), requests[..i])
        invariant old(eventQ.Coupled()) && Unclashing(eventQ.ioEvents.tracker, eventQ.states) ==> eventQ.Coupled()
      {
        ghost var e, rs := AddEvent(requests[i]);
        added := added + [Submit(e, rs)];
        EnlistOneMore(eventQ.ioEvents.tracker, old(eventQ.Wanted()), requests, i);
        i := i + 1;
      }
      assert requests[..i] == requests;
    }

    method AddEvent(r: Request) returns (ghost e: Event, ghost rs: seq<Reading>)
      requires Valid() && Admissible(eventQ.ioEvents.tracker, [r])
      modifies eventQ.Repr()
      ensures Valid() && Requested(e, r)
      ensures eventQ.steps == old(eventQ.steps) + [Submit(e, rs)]
      ensures eventQ.states == old(eventQ.states) + [eventQ.State()]
      ensures eventQ.Wanted() ==
              if r.Watch? then eventQ.ioEvents.tracker.Joined(old(eventQ.Wanted()), Interest(r.fd, r.dir))
              else old(eventQ.Wanted())
      ensures old(eventQ.Coupled()) && (eventQ.ioEvents.tracker.Epolling? ==> OneWay(eventQ.State())) ==>
                eventQ.Coupled()
    {
      hide IsRun, OneDirection, Queue.Sound;
      assert r in [r];
      match r {
        case Watch(socket, fd, dir, cb) =>
          ghost var pending := eventQ.ioEvents.container;
          var io := eventQ.SubmitIO(socket, fd, dir, cb);
          if OneWay(eventQ.State()) {
            AppendedDirections(pending, io);
          }
          e, rs := io, [];
        case Wait(seconds, cb) =>
          ghost var readings;
          var timer;
          timer, readings := eventQ.SubmitTimer(seconds, cb);
          e, rs := timer, readings;
      }
    }

    /** One iteration of `run`: executes the next event, or makes an update pass if there is none. */
    method Iterate(t: Turn) returns (thrown: bool, ghost made: seq<Step>)
      requires Valid() && Admissible(eventQ.ioEvents.tracker, t.requests)
      requires eventQ.readyTasks == [] ==> eventQ.ioEvents.tracker.MayAnswer(t.answer)
      modifies eventQ.Repr()
      ensures Valid()
      ensures eventQ.steps == old(eventQ.steps) + made && old(eventQ.states) <= eventQ.states
      ensures old(eventQ.readyTasks) != [] ==>
                !thrown && made != [] && made[0] == Execute && Submissions(made[1..], t.requests)
      ensures old(eventQ.readyTasks) == [] ==>
                && thrown == t.answer.Failed?
                && (if thrown then made == []
                    else |made| == 1 && made[0].Pass? &&
                         made[0].res == eventQ.ioEvents.tracker.HandedOut(old(eventQ.Wanted()), t.answer))
      ensures TurnMade(eventQ.ioEvents.tracker, old(eventQ.State()), old(eventQ.Wanted()), t, made, eventQ.Wanted())
      ensures old(eventQ.Coupled()) && Harmless(eventQ.ioEvents.tracker, eventQ.states, [t]) ==> eventQ.Coupled()
    {
      hide IsRun, OneDirection, Queue.Sound, NextSubmit, NextPass, NextExecute, Submissions;
      thrown := false;
      assert eventQ.states[|eventQ.steps|] in eventQ.states && t in [t];
      var event := eventQ.Pop();
      if event.Popped? {
        ghost var added := AddEvents(t.requests);
        made := [Execute] + added;
        assert made[1..] == added;
      } else {
        ghost var res, takes, drained;
        ghost var before := eventQ.State();
        thrown, res, takes, drained := eventQ.UpdateReadyTasks(t.answer);
        made := if thrown then [] else [Pass(res, takes, drained)];
        assert eventQ.states[|old(eventQ.steps)|] in eventQ.states;
        if !thrown && Harmless(eventQ.ioEvents.tracker, eventQ.states, [t]) {
          HarmlessPass(eventQ.ioEvents.tracker, before, t.answer);
        }
      }
    }

    /**
     * `run`, observed for as many iterations as there are turns, or until it returns or throws or
     * the next turn is one the kernel cannot make; `turned` counts the iterations. The run it extends
     * records every step; when `run` returns, every event ever submitted has been executed exactly
     * once. As long as what its back end asks for holds, the tracker wants exactly the pending events
     * at every loop head.
     */
    method Run(turns: seq<Turn>)
      returns (returned: bool, thrown: bool, turned: nat, ghost heads: seq<nat>, ghost wants: seq<set<Interest>>)
      requires Valid()
      requires forall t <- turns :: Admissible(eventQ.ioEvents.tracker, t.requests)
      modifies eventQ.Repr()
      ensures Valid()
      ensures old(eventQ.steps) <= eventQ.steps && old(eventQ.states) <= eventQ.states
      ensures turned <= |turns|
      ensures Played(eventQ.ioEvents.tracker, eventQ.states, eventQ.steps, heads, wants, turns)
      ensures |heads| == |wants| == turned + 1 && heads[0] == |old(eventQ.steps)| && heads[turned] == |eventQ.steps|
      ensures wants[0] == old(eventQ.Wanted()) && wants[turned] == eventQ.Wanted()
      ensures thrown ==> turned > 0 && heads[turned - 1] == heads[turned] && turns[turned - 1].answer.Failed?
      ensures Turns(eventQ.steps) == Turns(old(eventQ.steps)) + turned - if thrown then 1 else 0
      ensures returned == Empty(eventQ.State())
      ensures !returned && !thrown && turned < |turns| ==>
                && eventQ.readyTasks == [] && eventQ.ioEvents.tracker.Epolling?
                && !EpollMayReport(eventQ.ioEvents.tracker.epoller.kernel, turns[turned].answer)
      ensures returned ==> |eventQ.executed| == |eventQ.submitted| &&
                           forall e :: multiset(eventQ.executed)[e] == if e in eventQ.submitted then 1 else 0
      ensures old(eventQ.Coupled()) && Harmless(eventQ.ioEvents.tracker, eventQ.states, turns) ==> eventQ.Coupled()
    {
      hide IsRun, Queue.Sound, OneWay, NextExecute, Turns, TurnMade, Played;
      thrown := false;
      heads, wants := [|eventQ.steps|], [eventQ.Wanted()];
      PlayBegins(eventQ.ioEvents.tracker, eventQ.states, eventQ.steps, eventQ.Wanted(), turns);
      turned := 0;
      while turned < |turns| && !thrown && !eventQ.Empty()
        invariant turned <= |turns| && Valid()
        invariant Played(eventQ.ioEvents.tracker, eventQ.states, eventQ.steps, heads, wants, turns)
        invariant |heads| == |wants| == turned + 1 && heads[0] == |old(eventQ.steps)| && heads[turned] == |eventQ.steps|
        invariant wants[0] == old(eventQ.Wanted()) && wants[turned] == eventQ.Wanted()
        invariant thrown ==> turned > 0 && heads[turned - 1] == heads[turned] && turns[turned - 1].answer.Failed?
        invariant old(eventQ.steps) <= eventQ.steps && old(eventQ.states) <= eventQ.states
        invariant Turns(eventQ.steps) == Turns(old(eventQ.steps)) + turned - if thrown then 1 else 0
        invariant old(eventQ.Coupled()) && Harmless(eventQ.ioEvents.tracker, eventQ.states, turns) ==> eventQ.Coupled()
      {
        if eventQ.readyTasks == [] && !eventQ.ioEvents.tracker.MayAnswer(turns[turned].answer) {
          break;
        }
        assert turns[turned] in turns;
        ghost var before, states := eventQ.steps, eventQ.states;
        ghost var made;
        thrown, made := Iterate(turns[turned]);
        OneTurn(before, made, thrown, turns[turned]);
        PlayOn(eventQ.ioEvents.tracker, states, before, heads, wants, turns, eventQ.states, made, eventQ.Wanted());
        heads, wants := heads + [|eventQ.steps|], wants + [eventQ.Wanted()];
        turned := turned + 1;
      }
      returned := eventQ.Empty();
      if returned {
        ExactlyOnce(eventQ.states, eventQ.steps);
      }
    }
  }

  /** An iteration that does not throw makes exactly one execution or pass. */
  lemma OneTurn(before: seq<Step>, made: seq<Step>, thrown: bool, t: Turn)
    requires thrown ==> made == []
    requires !thrown ==>
               || (made != [] && made[0] == Execute && Submissions(made[1..], t.requests))
               || (|made| == 1 && made[0].Pass?)
    ensures Turns(before + made) == Turns(before) + if thrown then 0 else 1
  {
    TurnsConcat(before, made);
    if made != [] {
      TurnsConcat([made[0]], made[1..]);
      assert made == [made[0]] + made[1..];
      SubmissionsTakeNoTurn(made[1..]);
    }
  }

  // ---------- what the turns come to ----------

  /** Request `r` has become the `id`-th event submitted, and waits where its kind waits. */
  ghost predicate Filed(r: Request, id: nat, from: int, f: LoopState) {
    && id < |f.submitted|
    && var e := f.submitted[id];
    && match r
       case Watch(socket, fd, dir, cb) => e == IO(id, socket, fd, dir, cb) && e in f.container
       case Wait(seconds, cb) =>
         e.Clock? && e.id == id && e.wait == seconds && e.cb == cb && from <= e.begin <= f.now && e in f.timers
  }

  lemma FiledStays(r: Request, id: nat, from: int, f: LoopState, e: Event, rs: seq<Reading>, f': LoopState)
    requires Filed(r, id, from, f) && NextSubmit(f, e, rs, f')
    ensures Filed(r, id, from, f')
  {
    if e.Clock? && r.Wait? {
      PushedConserves(f.timers, e, rs);
      assert f.submitted[id] in Bag(f'.timers);
    }
  }

  lemma NewlyFiled(r: Request, from: int, f: LoopState, e: Event, rs: seq<Reading>, f': LoopState)
    requires Requested(e, r) && NextSubmit(f, e, rs, f') && from <= f.now
    ensures Filed(r, |f.submitted|, from, f')
  {
    if e.Clock? {
      PushedConserves(f.timers, e, rs);
      assert e in Bag(f'.timers);
    }
  }

  /** Submitting the requests files them all, in their order, and touches neither the FIFO nor the past. */
  lemma {:induction false} RequestsAreFiled(
      states: seq<LoopState>, steps: seq<Step>, p: nat, n: nat, requests: seq<Request>)
    requires IsChain(states, steps) && p + n <= |steps| && n <= |requests|
    requires Submissions(steps[p..p + n], requests[..n])
    ensures var s, f := states[p], states[p + n];
            && f.executed == s.executed && f.fifo == s.fifo && s.now <= f.now
            && |f.submitted| == |s.submitted| + n
            && forall j :: 0 <= j < n ==> Filed(requests[j], |s.submitted| + j, s.now, f)
  {
    hide Requested, Filed, AfterPush;
    if n > 0 {
      var f, f', step := states[p + n - 1], states[p + n], steps[p + n - 1];
      assert steps[p..p + n - 1] == steps[p..p + n][..n - 1] && requests[..n - 1] == requests[..n][..n - 1];
      RequestsAreFiled(states, steps, p, n - 1, requests);
      assert steps[p..p + n][n - 1] == step && requests[..n][n - 1] == requests[n - 1];
      assert Next(f, step, f');
      forall j | 0 <= j < n - 1 ensures Filed(requests[j], |states[p].submitted| + j, states[p].now, f') {
        FiledStays(requests[j], |states[p].submitted| + j, states[p].now, f, step.event, step.readings, f');
      }
      NewlyFiled(requests[n - 1], states[p].now, f, step.event, step.readings, f');
    }
  }

  /** A turn with an event in the FIFO: it is executed, and what its callback asked for is pending afterwards. */
  lemma TurnExecutes(
      tracker: IOManager, states: seq<LoopState>, steps: seq<Step>, heads: seq<nat>, wants: seq<set<Interest>>,
      turns: seq<Turn>, k: nat)
    requires IsRun(states, steps) && Played(tracker, states, steps, heads, wants, turns) && k < |heads| - 1
    requires states[heads[k]].fifo != []
    ensures var s, f := states[heads[k]], states[heads[k + 1]];
            && f.executed == s.executed + [s.fifo[0]] && f.fifo == s.fifo[1..]
            && |f.submitted| == |s.submitted| + |turns[k].requests|
            && forall j :: 0 <= j < |turns[k].requests| ==>
                 Filed(turns[k].requests[j], |s.submitted| + j, s.now, f)
  {
    hide Filed, NextSubmit, Submissions;
    var s, p, n := states[heads[k]], heads[k], |turns[k].requests|;
    var made := steps[p..heads[k + 1]];
    SubmissionsMatch(made[1..], turns[k].requests);
    assert Next(s, steps[p], states[p + 1]);
    assert made[1..] == steps[p + 1..p + 1 + n] && turns[k].requests[..n] == turns[k].requests;
    RequestsAreFiled(states, steps, p + 1, n, turns[k].requests);
  }

  lemma SubmissionsMatch(steps: seq<Step>, requests: seq<Request>)
    requires Submissions(steps, requests)
    ensures |steps| == |requests|
  {
  }

  /** A turn with an empty FIFO and an answer: exactly the wanted events that it reports are handed over. */
  lemma TurnPasses(
      tracker: IOManager, states: seq<LoopState>, steps: seq<Step>, heads: seq<nat>, wants: seq<set<Interest>>,
      turns: seq<Turn>, k: nat)
    requires IsRun(states, steps) && Played(tracker, states, steps, heads, wants, turns) && k < |heads| - 1
    requires states[heads[k]].fifo == [] && turns[k].answer.Reports?
    ensures var s, f, a := states[heads[k]], states[heads[k + 1]], turns[k].answer;
            && f.submitted == s.submitted && f.executed == s.executed
            && forall e <- s.container ::
                 if PairOf(e) in wants[k] && PairOf(e) in a.ready &&
                    (tracker.Epolling? ==> e.fd in a.batch && e.fd !in a.faults)
                 then e in f.fifo && e !in f.container
                 else e in f.container && e !in f.fifo
  {
    hide NextPass;
    var made := steps[heads[k]..heads[k + 1]];
    assert made[0] == steps[heads[k]];
    PassOrder(states, steps, heads[k]);
  }
}
