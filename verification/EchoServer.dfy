/** The echo server: callbacks that re-submit events and delete sockets, and the loop that runs them. */
module EchoServer {
  import opened Backends
  import opened Connections
  import opened EchoExchange
  import opened EchoSpec
  import opened Events
  import opened EventQueue
  import opened Interests
  import opened IOEventContainer
  import opened LoopSpec
  import opened Sockets

  /** The environment's choices for one iteration of `run`. */
  datatype Turn = Turn(child: Fd, chunk: seq<Byte>, taken: nat, answer: Answer)

  lemma Begins(s: EchoState, l: LoopState)
    requires Initial(l) && s.loop == AfterSubmit(l, AcceptEvent(s, 0))
    requires s.acceptor < s.nextSocket && s.open == map[]
    requires s.alive == 0 && s.reported == [] && s.log == [] && s.received == map[] && s.replied == map[]
    ensures IsEchoRun([s], [])
  {
  }

  lemma LoneEvent(e: IOEvent)
    ensures Pairs([]) == {} && Pairs([e]) == {PairOf(e)} && [] + [e] == [e]
  {
    assert e in [e];
  }

  /** What a tracker that wants `w` wants once the step has been made in `s`. */
  ghost function Wanting(
      tracker: IOManager, s: EchoState, w: set<Interest>, step: EchoStep, a: Answer): set<Interest>
  {
    match step
    case Accepted(child, _, _) => tracker.Joined(tracker.Joined(w, Interest(s.listenFd, Read)), Interest(child, Read))
    case Received(_) =>
      if s.loop.fifo != [] && s.loop.fifo[0].IO? then tracker.Joined(w, Interest(s.loop.fifo[0].fd, Write)) else w
    case Replied(_) => w
    case Passed(_) => if a.Reports? then tracker.Left(w, a) else w
  }

  /** The step made in `s`, with the tracker wanting `w` before and `w'` after, takes the turn's choices. */
  ghost predicate Chosen(
      tracker: IOManager, s: EchoState, w: set<Interest>, step: EchoStep, t: Turn, w': set<Interest>)
  {
    && w' == Wanting(tracker, s, w, step, t.answer)
    && (step.Passed? <==> s.loop.fifo == [])
    && match step
       case Accepted(child, _, _) => child == t.child
       case Received(chunk) => chunk == t.chunk
       case Replied(taken) => taken == t.taken
       case Passed(res) => t.answer.Reports? && res == tracker.HandedOut(w, t.answer)
  }

  /** A tracker that wants exactly the pending events before an event is executed does so afterwards. */
  lemma ServingKeepsCoupling(
      tracker: IOManager, s: EchoState, w: set<Interest>, step: EchoStep, a: Answer, s': EchoState)
    requires EchoNext(s, step, s') && !step.Passed? && OneDirection(Pairs(s'.loop.container))
    requires step.Received? ==> var e := s.loop.fifo[0]; e.IO? && e.fd == s.open[e.cb.session].fd
    requires w == Pairs(s.loop.container)
    ensures Wanting(tracker, s, w, step, a) == Pairs(s'.loop.container)
  {
    hide IsLive, ReportDue, Padded;
    var es := s.loop.container;
    match step
    case Accepted(child, _, _) =>
      var n := |s.loop.submitted|;
      var accept, read := AcceptEvent(s, n), IO(n + 1, s.nextSocket, child, Read, Callback.HandleRead(s.nextSocket));
      PairsOfAppended(es, accept);
      PairsOfAppended(es + [accept], read);
      assert s'.loop.container == es + [accept] + [read];
      AppendedDirections(es + [accept], read);
      assert Opposite(PairOf(accept)) !in Pairs(s'.loop.container);
    case Received(_) =>
      var e := s.loop.fifo[0];
      var write := IO(|s.loop.submitted|, e.cb.session, e.fd, Write, Callback.HandleWrite(e.cb.session));
      PairsOfAppended(es, write);
      assert s'.loop.container == es + [write];
      AppendedDirections(es, write);
    case Replied(_) =>
  }

  /**
   * Every step from position `from` on takes the choices of its turn; `wants` tells what the tracker wanted
   * before the first of them and after each.
   */
  ghost predicate Served(
      tracker: IOManager, states: seq<EchoState>, steps: seq<EchoStep>, from: nat, wants: seq<set<Interest>>,
      turns: seq<Turn>)
  {
    && |states| == |steps| + 1 && from + |wants| == |states| && 0 < |wants| <= |turns| + 1
    && forall k :: 0 <= k < |wants| - 1 ==>
         Chosen(tracker, states[from + k], wants[k], steps[from + k], turns[k], wants[k + 1])
  }

  lemma ServeBegins(
      tracker: IOManager, states: seq<EchoState>, steps: seq<EchoStep>, w: set<Interest>, turns: seq<Turn>)
    requires |states| == |steps| + 1
    ensures Served(tracker, states, steps, |steps|, [w], turns)
  {
  }

  lemma ServeOn(
      tracker: IOManager, states: seq<EchoState>, steps: seq<EchoStep>, from: nat, wants: seq<set<Interest>>,
      turns: seq<Turn>, states': seq<EchoState>, steps': seq<EchoStep>, w: set<Interest>)
    requires Served(tracker, states, steps, from, wants, turns) && |wants| <= |turns|
    requires states <= states' && |states'| == |states| + 1 && steps <= steps' && |steps'| == |steps| + 1
    requires Chosen(tracker, states[|steps|], wants[|wants| - 1], steps'[|steps|], turns[|wants| - 1], w)
    ensures Served(tracker, states', steps', from, wants + [w], turns)
  {
    hide Chosen;
    var wants' := wants + [w];
    forall k | 0 <= k < |wants'| - 1
      ensures Chosen(tracker, states'[from + k], wants'[k], steps'[from + k], turns[k], wants'[k + 1])
    {
      assert states'[from + k] == states[from + k];
      if k < |wants| - 1 {
        assert Chosen(tracker, states[from + k], wants[k], steps[from + k], turns[k], wants[k + 1]);
        assert steps'[from + k] == steps[from + k];
      }
    }
  }

  ghost function SocketsOf(sessions: map<SocketId, SessionSocket>): set<object> {
    set sid <- sessions.Keys :: sessions[sid]
  }

  ghost function OpenOf(sessions: map<SocketId, SessionSocket>): map<SocketId, Session>
    reads SocketsOf(sessions)
  {
    map sid <- sessions.Keys :: Session(sessions[sid].fd, sessions[sid].buf)
  }

  lemma OpenAt(sessions: map<SocketId, SessionSocket>, sid: SocketId)
    requires sid in sessions
    ensures sid in OpenOf(sessions) && OpenOf(sessions)[sid] == Session(sessions[sid].fd, sessions[sid].buf)
  {
  }

  lemma NoneOpen(sessions: map<SocketId, SessionSocket>)
    requires sessions == map[]
    ensures OpenOf(sessions) == map[] && SocketsOf(sessions) == {}
  {
  }

  class Server {
    const context: Queue
    const acceptor: ServerSocket
    /** The session sockets that have not been deleted. */
    var sessions: map<SocketId, SessionSocket>
    var nextSocket: SocketId
    var connectionsAlive: nat
    var loop: nat
    var start: int
    ghost var reported: seq<nat>
    ghost var log: seq<Action>
    ghost var received: map<SocketId, seq<Byte>>
    ghost var replied: map<SocketId, seq<Byte>>
    /** The run of this server so far. */
    ghost var states: seq<EchoState>
    ghost var steps: seq<EchoStep>

    ghost function Sockets(): set<object>
      reads this
    {
      SocketsOf(sessions)
    }

    ghost function Repr(): set<object>
      reads this
    {
      {this, acceptor} + context.Repr() + Sockets()
    }

    ghost predicate Sound()
      reads this, Repr()
    {
      && context.Valid()
      && this !in context.Repr() && acceptor !in context.Repr() && Sockets() !! context.Repr() + {this, acceptor}
      && (forall sid <- sessions.Keys :: sessions[sid].id == sid)
      && loop == |reported|
    }

    ghost function State(): EchoState
      reads this, Repr()
    {
      EchoState(context.State(), acceptor.id, acceptor.fd, OpenOf(sessions),
                nextSocket, connectionsAlive, reported, start, log, received, replied)
    }

    ghost predicate Valid()
      reads this, Repr()
    {
      Sound() && IsEchoRun(states, steps) && |states| == |steps| + 1 && states[|steps|] == State()
    }

    method StartAccept()
      requires context.Valid() && context.ioEvents.tracker.Admits(acceptor.fd)
      modifies context.Repr()
      ensures context.Valid()
      ensures context.State() == AfterSubmit(old(context.State()),
                IO(|old(context.submitted)|, acceptor.id, acceptor.fd, Read, Callback.HandleAccept))
      ensures context.Wanted() == context.ioEvents.tracker.Joined(old(context.Wanted()), Interest(acceptor.fd, Read))
    {
      ghost var s := context.State();
      var e := context.SubmitIO(acceptor.id, acceptor.fd, Read, Callback.HandleAccept);
      SubmittedIo(s, e, [], context.State());
    }

    /** Builds the server on a loop that has run nothing yet, and starts accepting. */
    constructor (context: Queue, acceptor: ServerSocket)
      requires context.Valid() && Initial(context.State()) && context.Coupled()
      requires context.ioEvents.tracker.Admits(acceptor.fd) && acceptor !in context.Repr()
      modifies context.Repr()
      ensures Valid() && context.Coupled() && this.context == context && this.acceptor == acceptor
      ensures Sockets() == {}
    {
      hide Queue.Valid, Queue.Coupled, Queue.Wanted, IsEchoRun, OpenOf;
      this.context, this.acceptor := context, acceptor;
      sessions, nextSocket, connectionsAlive, loop := map[], acceptor.id + 1, 0, 0;
      reported, log, received, replied, steps := [], [], map[], map[], [];
      var now := context.Now();
      start := now;
      new;
      Open();
    }

    /** The constructor's `start_accept()`, with which the history begins. */
    method Open()
      requires context.Valid() && Initial(context.State()) && context.Coupled()
      requires context.ioEvents.tracker.Admits(acceptor.fd) && this !in context.Repr() && acceptor !in context.Repr()
      requires sessions == map[] && nextSocket == acceptor.id + 1 && connectionsAlive == loop == 0
      requires reported == [] && log == [] && received == map[] && replied == map[] && steps == []
      modifies this`states, context.Repr()
      ensures Valid() && context.Coupled() && Sockets() == {}
    {
      hide Queue.Valid, Queue.Coupled, Queue.Wanted, Pairs, IsEchoRun, EchoInitial, OpenOf;
      context.CoupledIfWanted();
      ghost var l := context.State();
      LoneEvent(AcceptEvent(State(), 0));
      assert context.ioEvents.container == [];
      assert context.Wanted() == {};
      StartAccept();
      assert context.ioEvents.container == [AcceptEvent(State(), 0)];
      assert context.Wanted() == {Interest(acceptor.fd, Read)};
      context.CoupledIfWanted();
      NoneOpen(sessions);
      ghost var s := State();
      Begins(s, l);
      states := [s];
      assert State() == s;
    }

    /** `start_accept()` and then `session->async_read(...)`. */
    method WatchBoth(session: SessionSocket)
      requires Sound()
      requires context.ioEvents.tracker.Admits(session.fd) && context.ioEvents.tracker.Admits(acceptor.fd)
      modifies context.Repr()
      ensures Sound() && context.clock.now == old(context.clock.now) && unchanged(this) && unchanged(acceptor)
      ensures var s, n := old(State()), |old(context.submitted)|;
              State() == s.(loop :=
                AfterSubmit(AfterSubmit(s.loop, AcceptEvent(s, n)),
                            IO(n + 1, session.id, session.fd, Read, Callback.HandleRead(session.id))))
      ensures context.Wanted() == context.ioEvents.tracker.Joined(
                context.ioEvents.tracker.Joined(old(context.Wanted()), Interest(acceptor.fd, Read)),
                Interest(session.fd, Read))
    {
      hide Queue.Valid, Queue.Coupled, OpenOf;
      StartAccept();
      ghost var again := context.State();
      var e := context.SubmitIO(session.id, session.fd, Read, Callback.HandleRead(session.id));
      SubmittedIo(again, e, [], context.State());
    }

    /** The once-a-second report at the end of handle_accept. */
    method Report() returns (ghost first: int, ghost second: int)
      requires Sound()
      modifies this`connectionsAlive, this`start, this`loop, this`reported, context.Repr()
      ensures Sound() && unchanged(acceptor)
      ensures unchanged(this`sessions) && unchanged(this`states) && unchanged(this`steps)
      ensures old(context.clock.now) <= first <= second
      ensures var s, due := old(State()), ReportDue(first, old(start));
              State() == s.(
                loop := s.loop.(now := second),
                alive := if due then 0 else s.alive,
                reported := if due then s.reported + [s.alive] else s.reported,
                start := if due then second else s.start)
      ensures context.Wanted() == old(context.Wanted())
    {
      hide Queue.Valid, Queue.Coupled, Queue.Wanted, Queue.State, OpenOf, ReportDue;
      var now := context.Now();
      first, second := now, now;
      if ReportDue(now, start) {
        var later := context.Now();
        second := later;
        start := later;
        reported := reported + [connectionsAlive];
        connectionsAlive := 0;
        loop := loop + 1;
      }
    }

    /** Counts the connection and keeps its session until it is deleted. */
    method Enrol(session: SessionSocket)
      requires Sound() && session.id == nextSocket && nextSocket !in sessions
      requires session !in context.Repr() + {this, acceptor}
      modifies this`sessions, this`nextSocket, this`connectionsAlive, this`log
      ensures Sound() && Sockets() <= old(Sockets()) + {session}
      ensures sessions == old(sessions)[old(nextSocket) := session]
      ensures var s := old(State());
              State() == s.(
                open := s.open[session.id := Session(session.fd, session.buf)],
                nextSocket := session.id + 1, alive := s.alive + 1, log := s.log + [Accept(session.fd)])
      ensures context.Wanted() == old(context.Wanted())
    {
      hide Queue.Valid, Queue.Coupled, Queue.Wanted, Queue.State;
      connectionsAlive := connectionsAlive + 1;
      sessions := sessions[nextSocket := session];
      nextSocket := nextSocket + 1;
      log := log + [Accept(session.fd)];
      assert OpenOf(sessions) == old(OpenOf(sessions))[session.id := Session(session.fd, session.buf)];
    }

    /** handle_accept: counts, accepts again, starts reading from the new session, reports once a second. */
    method HandleAccept() returns (ghost first: int, ghost second: int)
      requires Sound() && acceptor.currentSession != null
      requires var session := acceptor.currentSession;
               && session.id == nextSocket && session.buf == seq(BUF_SIZE, _ => ' ' as int)
               && session !in context.Repr() + {this, acceptor} && nextSocket !in sessions
               && context.ioEvents.tracker.Admits(session.fd) && context.ioEvents.tracker.Admits(acceptor.fd)
      modifies this, context.Repr()
      ensures Sound() && states == old(states) && steps == old(steps)
      ensures sessions == old(sessions)[old(nextSocket) := acceptor.currentSession]
      ensures old(context.clock.now) <= first <= second
      ensures State() == AcceptEffect(old(State()), acceptor.currentSession.fd, first, second)
      ensures context.Wanted() == context.ioEvents.tracker.Joined(
                context.ioEvents.tracker.Joined(old(context.Wanted()), Interest(acceptor.fd, Read)),
                Interest(acceptor.currentSession.fd, Read))
    {
      hide Sound, ReportDue, OpenOf, AfterSubmit, AcceptEffect, Queue.Valid, Queue.Coupled;
      ghost var s := State();
      var session := acceptor.GetCurrentSession();
      Enrol(session);
      ghost var enrolled := State();
      WatchBoth(session);
      ghost var watching := State();
      first, second := Report();
      AcceptEffectInSteps(s, session.fd, first, second, enrolled, watching, State());
    }

    /** handle_read: starts writing back what the session has just read. */
    method HandleRead(session: SessionSocket)
      requires Sound() && context.ioEvents.tracker.Admits(session.fd)
      requires session.id in received && |received[session.id]| <= BUF_SIZE
      requires session.buf == Padded(received[session.id], BUF_SIZE)
      modifies context.Repr()
      ensures Sound() && unchanged(this) && unchanged(acceptor) && unchanged(Sockets())
      ensures var s := old(State());
              State() == s.(loop :=
                AfterSubmit(s.loop,
                            IO(|s.loop.submitted|, session.id, session.fd, Write, Callback.HandleWrite(session.id))))
      ensures context.Wanted() == context.ioEvents.tracker.Joined(old(context.Wanted()), Interest(session.fd, Write))
    {
      hide Queue.Valid, Queue.Coupled, OpenOf;
      ghost var l := context.State();
      var e := context.SubmitIO(session.id, session.fd, Write, Callback.HandleWrite(session.id));
      SubmittedIo(l, e, [], context.State());
    }

    /** handle_write: deletes the session, whose reply is out, and so closes its descriptor. */
    method HandleWrite(session: SessionSocket)
      requires Sound() && session.id in sessions && sessions[session.id] == session
      requires session.id in replied && replied[session.id] <= session.buf
      modifies this`sessions, this`log
      ensures Sound() && sessions == old(sessions) - {session.id}
      ensures var s := old(State());
              State() == s.(open := s.open - {session.id}, log := s.log + [Reply(session.fd)])
      ensures context.Wanted() == old(context.Wanted())
    {
      hide Queue.Valid, Queue.Coupled, Queue.Wanted, Queue.State;
      sessions := sessions - {session.id};
      log := log + [Reply(session.fd)];
      assert OpenOf(sessions) == old(OpenOf(sessions)) - {session.id};
    }

    /** ReadEvent::execute on the listener. */
    method ExecuteAccept(child: Fd) returns (ghost first: int, ghost second: int)
      requires Sound() && nextSocket !in sessions
      requires context.ioEvents.tracker.Admits(child) && context.ioEvents.tracker.Admits(acceptor.fd)
      modifies this, acceptor, context.Repr()
      ensures Sound() && states == old(states) && steps == old(steps) && fresh(Sockets() - old(Sockets()))
      ensures acceptor.currentSession != null && acceptor.currentSession.fd == child
      ensures sessions == old(sessions)[old(nextSocket) := acceptor.currentSession]
      ensures old(context.clock.now) <= first <= second
      ensures State() == AcceptEffect(old(State()), child, first, second)
      ensures context.Wanted() == context.ioEvents.tracker.Joined(
                context.ioEvents.tracker.Joined(old(context.Wanted()), Interest(acceptor.fd, Read)),
                Interest(child, Read))
    {
      hide Queue.Valid, AcceptEffect, OpenOf;
      acceptor.SRead(child, nextSocket);
      first, second := HandleAccept();
    }

    /** SessionSocket::sread on a live session. */
    method Receive(sid: SocketId, chunk: seq<Byte>)
      requires Sound() && sid in sessions && |chunk| <= BUF_SIZE == |sessions[sid].buf|
      modifies sessions[sid], this`received
      ensures Sound() && sid in received && received[sid] == chunk && sessions[sid].buf == Padded(chunk, BUF_SIZE)
      ensures var s := old(State());
              State() == s.(open := s.open[sid := Session(s.open[sid].fd, Padded(chunk, BUF_SIZE))],
                            received := s.received[sid := chunk])
      ensures context.Wanted() == old(context.Wanted())
    {
      hide Queue.Valid, Queue.Coupled, Queue.Wanted, Queue.State, Padded;
      var thrown := sessions[sid].SRead(Done(chunk));
      received := received[sid := chunk];
      assert OpenOf(sessions) == old(OpenOf(sessions))[sid := Session(sessions[sid].fd, Padded(chunk, BUF_SIZE))];
    }

    /** ReadEvent::execute on a session. */
    method ExecuteRead(sid: SocketId, chunk: seq<Byte>)
      requires Sound() && sid in sessions && |chunk| <= BUF_SIZE == |sessions[sid].buf|
      requires context.ioEvents.tracker.Admits(sessions[sid].fd)
      modifies sessions[sid], this`received, this`log, context.Repr()
      ensures Sound() && sessions == old(sessions) && states == old(states) && steps == old(steps)
      ensures sid in received && received[sid] == chunk && |sessions[sid].buf| == 20
      ensures forall k :: 0 <= k < 20 ==> sessions[sid].buf[k] == if k < |chunk| then chunk[k] else 0
      ensures State() == ReadEffect(old(State()), sid, chunk)
      ensures context.Wanted() ==
              context.ioEvents.tracker.Joined(old(context.Wanted()), Interest(sessions[sid].fd, Write))
    {
      hide Queue.Valid, Queue.Coupled, OpenOf;
      OpenAt(sessions, sid);
      Receive(sid, chunk);
      HandleRead(sessions[sid]);
      log := log + [Action.Receive(sessions[sid].fd)];
    }

    /** WriteEvent::execute on a session. */
    method ExecuteWrite(sid: SocketId, taken: nat)
      requires Sound() && sid in sessions && taken <= |sessions[sid].buf|
      modifies this`sessions, this`replied, this`log
      ensures Sound() && sessions == old(sessions) - {sid}
      ensures sid in replied && |replied[sid]| == taken && replied[sid] <= old(sessions[sid].buf)
      ensures State() == WriteEffect(old(State()), sid, taken)
      ensures context.Wanted() == old(context.Wanted())
    {
      hide Queue.Valid, Queue.Coupled, Queue.Wanted, Queue.State, OpenOf;
      var session := sessions[sid];
      var thrown, sent := session.SWrite(taken);
      OpenAt(sessions, sid);
      assert sent == State().open[sid].buf[..taken];
      replied := replied[sid := sent];
      HandleWrite(session);
    }

    /** Records in the history that `step` has led to the current state. */
    ghost method Record(step: EchoStep)
      requires Sound() && IsEchoRun(states, steps) && |states| == |steps| + 1
      requires EchoNext(states[|steps|], step, State())
      modifies this`states, this`steps
      ensures Valid() && State() == old(State()) && EchoInv(State())
      ensures states == old(states) + [State()] && steps == old(steps) + [step]
      ensures context.Wanted() == old(context.Wanted())
    {
      hide Queue.Valid, Queue.Coupled, Queue.Wanted, Queue.State, OpenOf, IsEchoRun, EchoNext, EchoInv;
      ExtendEchoRun(states, steps, step, State());
      EchoRunKeepsInv(states + [State()], steps + [step], |steps| + 1);
      states, steps := states + [State()], steps + [step];
    }

    /** The environment's choices are ones the kernel can make now. */
    predicate Possible(t: Turn)
      requires Sound()
      reads this, Repr()
    {
      && context.ioEvents.tracker.MayAnswer(t.answer)
      && t.child != acceptor.fd && (forall sid <- sessions.Keys :: sessions[sid].fd != t.child)
      && context.ioEvents.tracker.Admits(t.child)
      && |t.chunk| <= BUF_SIZE && t.taken <= BUF_SIZE
    }

    /** Every live descriptor is one the tracker has room for. */
    ghost predicate Roomy()
      reads this, Repr()
    {
      && context.ioEvents.tracker.Admits(acceptor.fd)
      && forall sid <- sessions.Keys :: context.ioEvents.tracker.Admits(sessions[sid].fd)
    }

    lemma Servable()
      requires Valid() && context.readyTasks != []
      ensures var e, s := context.readyTasks[0], State();
              && EchoInv(s) && e.IO? && nextSocket !in sessions
              && (e.cb.HandleRead? ==> e.cb.session in sessions && e.fd == sessions[e.cb.session].fd)
              && (e.cb == Callback.HandleAccept ||
                  ((e.cb.HandleRead? || e.cb.HandleWrite?) && e.cb.session in sessions &&
                   e.socket == e.cb.session && |sessions[e.cb.session].buf| == BUF_SIZE &&
                   e.cb.session in s.open && |s.open[e.cb.session].buf| == BUF_SIZE))
    {
      hide IsEchoRun, Queue.Valid;
      EchoRunKeepsInv(states, steps, |steps|);
      HeadIsServable(State());
      NumberingFacts(State());
    }

    /** Choices the kernel can make: accept() returns a free descriptor, and no call moves more than a buffer. */
    lemma PossibleIff(t: Turn)
      requires Sound()
      ensures Possible(t) <==>
                && context.ioEvents.tracker.MayAnswer(t.answer)
                && IsFree(State(), t.child) && context.ioEvents.tracker.Admits(t.child)
                && |t.chunk| <= 20 && t.taken <= 20
    {
      forall sid | sid in sessions.Keys
        ensures sid in State().open.Keys && State().open[sid].fd == sessions[sid].fd
      {
        OpenAt(sessions, sid);
      }
    }

    /** `execute()` and the callback of the event just taken from the queue. */
    method Execute(e: Event, t: Turn) returns (ghost step: EchoStep)
      requires Sound() && nextSocket !in sessions && Roomy() && Possible(t)
      requires e.cb == Callback.HandleAccept ||
               ((e.cb.HandleRead? || e.cb.HandleWrite?) &&
                e.cb.session in sessions && |sessions[e.cb.session].buf| == BUF_SIZE)
      modifies Repr()
      ensures Sound() && Roomy() && states == old(states) && steps == old(steps) && fresh(Sockets() - old(Sockets()))
      ensures match e.cb
              case HandleAccept =>
                && step.Accepted? && step.child == t.child && old(context.clock.now) <= step.first <= step.second
                && State() == AcceptEffect(old(State()), t.child, step.first, step.second)
                && context.Wanted() == context.ioEvents.tracker.Joined(
                     context.ioEvents.tracker.Joined(old(context.Wanted()), Interest(acceptor.fd, Read)),
                     Interest(t.child, Read))
              case HandleRead(sid) =>
                && step == Received(t.chunk) && State() == ReadEffect(old(State()), sid, t.chunk)
                && context.Wanted() ==
                   context.ioEvents.tracker.Joined(old(context.Wanted()), Interest(old(sessions)[sid].fd, Write))
              case HandleWrite(sid) =>
                && step == Replied(t.taken) && State() == WriteEffect(old(State()), sid, t.taken)
                && context.Wanted() == old(context.Wanted())
              case Custom(_) => true
    {
      hide Queue.Valid, Queue.Coupled, Queue.Wanted, Queue.State, OpenOf, AcceptEffect, ReadEffect, WriteEffect;
      match e.cb {
        case HandleAccept =>
          ghost var first, second := ExecuteAccept(t.child);
          step := Accepted(t.child, first, second);
        case HandleRead(sid) =>
          ExecuteRead(sid, t.chunk);
          step := Received(t.chunk);
        case HandleWrite(sid) =>
          ExecuteWrite(sid, t.taken);
          step := Replied(t.taken);
      }
    }

    /** Takes the next event from the queue and executes it. */
    method Serve(t: Turn)
      requires Valid() && Roomy() && Possible(t) && context.readyTasks != []
      modifies Repr()
      ensures Valid() && Roomy() && fresh(Sockets() - old(Sockets()))
      ensures old(states) <= states && |steps| == |old(steps)| + 1 && old(steps) <= steps
      ensures !steps[|old(steps)|].Passed?
      ensures Chosen(context.ioEvents.tracker, old(State()), old(context.Wanted()), steps[|old(steps)|], t,
                     context.Wanted())
      ensures old(context.Coupled()) ==> context.Coupled()
    {
      hide Queue.Valid, Queue.Coupled, Queue.Wanted, OneDirection, Pairs, OpenOf;
      hide IOManager.Joined, IOManager.MayAnswer, AcceptEffect, ReadEffect, WriteEffect, IsEchoRun, EchoInv;
      Servable();
      PossibleIff(t);
      context.CoupledIfWanted();
      ghost var s, w := State(), context.Wanted();
      var event := context.Pop();
      assert State() == Dequeued(s);
      ghost var step := Execute(event.event, t);
      assert EchoNext(s, step, State());
      Record(step);
      context.CoupledIfWanted();
      if old(context.Coupled()) {
        InvIsOneWay(State());
        HeadIsServable(s);
        ServingKeepsCoupling(context.ioEvents.tracker, s, w, step, t.answer, State());
      }
    }

    /** A pass that finds out which of the server's events are ready. */
    method Update(a: Answer) returns (thrown: bool)
      requires Valid() && Roomy() && context.ioEvents.tracker.MayAnswer(a)
      modifies context.Repr(), this`states, this`steps
      ensures Valid() && Roomy() && sessions == old(sessions) && thrown == a.Failed?
      ensures old(states) <= states && old(steps) <= steps
      ensures thrown ==> State() == old(State()) && states == old(states) && steps == old(steps)
      ensures thrown ==> context.Wanted() == old(context.Wanted())
      ensures !thrown ==>
                && |steps| == |old(steps)| + 1 && steps[|old(steps)|].Passed?
                && steps[|old(steps)|].res == context.ioEvents.tracker.HandedOut(old(context.Wanted()), a)
                && context.Wanted() == context.ioEvents.tracker.Left(old(context.Wanted()), a)
      ensures !thrown && old(context.Coupled()) &&
              (context.ioEvents.tracker.Epolling? ==>
                 old(context.ioEvents.tracker.Fits()) && Clean(Pairs(old(context.ioEvents.container)), a)) ==>
                steps[|old(steps)|].res == Pairs(old(context.ioEvents.container)) * a.ready
      ensures old(context.Coupled()) ==>
                (context.Coupled() <==> (context.ioEvents.tracker.Epolling? ==> Unfaulted(a)))
    {
      hide Queue.Valid, Queue.Coupled, Queue.Wanted, OneDirection, Pairs, OpenOf, IsEchoRun, EchoInv;
      ghost var s := State();
      EchoRunKeepsInv(states, steps, |steps|);
      if a.Reports? {
        PassForgets(context.ioEvents.tracker, s, a);
      }
      ghost var res, takes, drained;
      thrown, res, takes, drained := context.UpdateReadyTasks(a);
      if !thrown {
        NoTimersIn(s);
        NothingToDrain(s.loop, res, takes, drained, context.State());
        Record(Passed(res));
      }
    }

    /** One iteration of `run`: executes the next event, or makes an update pass if there is none. */
    method Iterate(t: Turn) returns (thrown: bool)
      requires Valid() && Roomy() && Possible(t)
      modifies Repr()
      ensures Valid() && Roomy() && fresh(Sockets() - old(Sockets()))
      ensures old(states) <= states && old(steps) <= steps
      ensures thrown <==> old(context.readyTasks) == [] && t.answer.Failed?
      ensures thrown ==> states == old(states) && steps == old(steps) && context.Wanted() == old(context.Wanted())
      ensures !thrown ==>
                && |steps| == |old(steps)| + 1
                && Chosen(context.ioEvents.tracker, old(State()), old(context.Wanted()), steps[|old(steps)|], t,
                          context.Wanted())
      ensures !thrown ==> (steps[|old(steps)|].Passed? <==> old(context.readyTasks) == [])
      ensures old(context.Coupled()) ==>
                (context.Coupled() <==>
                 old(context.readyTasks) == [] && context.ioEvents.tracker.Epolling? ==> Unfaulted(t.answer))
      ensures !context.Empty() && EchoInv(State())
    {
      hide Queue.Valid, Queue.Coupled, Queue.Wanted, Queue.State, OpenOf, IsEchoRun, EchoInv;
      thrown := false;
      context.FifoInState();
      if context.readyTasks != [] {
        Serve(t);
      } else {
        thrown := Update(t.answer);
      }
      NotEmptyNow();
    }

    /**
     * `run` on the server's loop, observed for as many iterations as there are turns, or until the
     * kernel fails a call or the next turn is one it cannot make; `turned` counts the iterations. The
     * loop never finds its queue empty; and its tracker always wants exactly what the server's pending
     * events wait for, over select and poll in any case, over epoll as long as it reports no fault.
     */
    method Run(turns: seq<Turn>)
      returns (returned: bool, thrown: bool, turned: nat, ghost wants: seq<set<Interest>>)
      requires Valid() && Roomy()
      modifies Repr()
      ensures Valid() && Roomy() && EchoInv(State())
      ensures old(states) <= states && old(steps) <= steps
      ensures turned <= |turns| && |steps| == |old(steps)| + turned - if thrown then 1 else 0
      ensures Served(context.ioEvents.tracker, states, steps, |old(steps)|, wants, turns)
      ensures |wants| == |steps| - |old(steps)| + 1
      ensures wants[0] == old(context.Wanted()) && wants[|wants| - 1] == context.Wanted()
      ensures !returned
      ensures !thrown && turned < |turns| ==> !Possible(turns[turned])
      ensures old(context.Coupled()) && (context.ioEvents.tracker.Epolling? ==> FaultFree(turns)) ==>
                context.Coupled()
    {
      hide Queue.Valid, Queue.Coupled, Queue.Wanted, Queue.State, OpenOf, IsEchoRun, EchoInv, EchoNext;
      hide Served, Chosen, Unfaulted, IOManager.MayAnswer;
      thrown := false;
      NotEmptyNow();
      turned := 0;
      wants := [context.Wanted()];
      ServeBegins(context.ioEvents.tracker, states, steps, context.Wanted(), turns);
      while turned < |turns| && !thrown && !context.Empty()
        invariant turned <= |turns| && Valid() && Roomy() && fresh(Sockets() - old(Sockets()))
        invariant old(states) <= states && old(steps) <= steps
        invariant |steps| == |old(steps)| + turned - if thrown then 1 else 0
        invariant Served(context.ioEvents.tracker, states, steps, |old(steps)|, wants, turns)
        invariant |wants| == |steps| - |old(steps)| + 1
        invariant wants[0] == old(context.Wanted()) && wants[|wants| - 1] == context.Wanted()
        invariant old(context.Coupled()) && (context.ioEvents.tracker.Epolling? ==> FaultFree(turns)) ==>
                    context.Coupled()
        invariant !context.Empty() && EchoInv(State())
      {
        if !Possible(turns[turned]) {
          break;
        }
        assert turns[turned] in turns;
        ghost var before, history := states, steps;
        thrown := Iterate(turns[turned]);
        if !thrown {
          ServeOn(context.ioEvents.tracker, before, history, |old(steps)|, wants, turns, states, steps,
                  context.Wanted());
          wants := wants + [context.Wanted()];
        }
        turned := turned + 1;
      }
      returned := context.Empty();
    }

    lemma NotEmptyNow()
      requires Valid()
      ensures !context.Empty() && EchoInv(State())
    {
      hide Queue.Valid, IsEchoRun, EchoInv;
      EchoRunKeepsInv(states, steps, |steps|);
      NeverDry(states, steps, |steps|);
    }
  }

  /** No descriptor that the kernel reports is in an error or hang-up condition. */
  ghost predicate FaultFree(turns: seq<Turn>) {
    forall t <- turns :: Unfaulted(t.answer)
  }

  /** With the pending events one way, only epoll can forget more than it reports: when it meets a fault. */
  lemma PassForgets(tracker: IOManager, s: EchoState, a: Answer)
    requires a.Reports? && EchoInv(s)
    ensures tracker.ForgetsOnlyReported(Pairs(s.loop.container), a) <==> (tracker.Epolling? ==> Unfaulted(a))
  {
    InvIsOneWay(s);
  }

  // ---------- what the turns come to ----------

  /** With an event in the FIFO, the turn's child is opened, its chunk stored, or that much of a buffer sent. */
  lemma TurnIsServed(
      tracker: IOManager, states: seq<EchoState>, steps: seq<EchoStep>, from: nat, wants: seq<set<Interest>>,
      turns: seq<Turn>, k: nat)
    requires IsEchoRun(states, steps) && Served(tracker, states, steps, from, wants, turns) && k < |wants| - 1
    requires states[from + k].loop.fifo != []
    ensures var s, s', t, e := states[from + k], states[from + k + 1], turns[k], states[from + k].loop.fifo[0];
            && e.IO? && IsLive(s, e.socket) && s'.loop.executed == s.loop.executed + [e]
            && (e.socket == s.acceptor ==>
                  s.nextSocket in s'.open && s'.open[s.nextSocket].fd == t.child && s'.log == s.log + [Accept(t.child)])
            && (e.socket != s.acceptor && e.dir == Read ==>
                  && e.socket in s'.open && s'.open[e.socket].fd == e.fd && s'.log == s.log + [Action.Receive(e.fd)]
                  && |t.chunk| <= 20 == |s'.open[e.socket].buf|
                  && forall j :: 0 <= j < 20 ==> s'.open[e.socket].buf[j] == if j < |t.chunk| then t.chunk[j] else 0)
            && (e.dir == Write ==>
                  && e.socket in s.open && e.socket !in s'.open && s'.log == s.log + [Reply(e.fd)]
                  && e.socket in s'.replied && |s'.replied[e.socket]| == t.taken <= |s.open[e.socket].buf|
                  && forall j :: 0 <= j < t.taken ==> s'.replied[e.socket][j] == s.open[e.socket].buf[j])
  {
    hide Wanting, EchoInv, OthersKept;
    var m := from + k;
    var e := states[m].loop.fifo[0];
    assert Chosen(tracker, states[m], wants[k], steps[m], turns[k], wants[k + 1]);
    assert EchoNext(states[m], steps[m], states[m + 1]);
    EchoRunKeepsInv(states, steps, m);
    HeadIsServable(states[m]);
    match steps[m]
    case Accepted(_, _, _) => AcceptOpens(states, steps, m);
    case Received(_) => ReadFillsBuffer(states, steps, m, e.socket);
    case Replied(_) => ReplySendsPrefix(states, steps, m, e.socket);
    case Passed(_) => assert false;
  }

  /** With an empty FIFO, exactly the wanted events that the turn's answer reports are handed over. */
  lemma TurnIsPassed(
      tracker: IOManager, states: seq<EchoState>, steps: seq<EchoStep>, from: nat, wants: seq<set<Interest>>,
      turns: seq<Turn>, k: nat)
    requires IsEchoRun(states, steps) && Served(tracker, states, steps, from, wants, turns) && k < |wants| - 1
    requires states[from + k].loop.fifo == []
    ensures var s, s', a := states[from + k], states[from + k + 1], turns[k].answer;
            && a.Reports? && s' == s.(loop := s'.loop) && s'.loop.executed == s.loop.executed
            && forall e <- s.loop.container ::
                 if PairOf(e) in wants[k] && PairOf(e) in a.ready &&
                    (tracker.Epolling? ==> e.fd in a.batch && e.fd !in a.faults)
                 then e in s'.loop.fifo && e !in s'.loop.container
                 else e in s'.loop.container && e !in s'.loop.fifo
  {
    hide Wanting;
    var m := from + k;
    assert Chosen(tracker, states[m], wants[k], steps[m], turns[k], wants[k + 1]);
    assert EchoNext(states[m], steps[m], states[m + 1]);
    PassSplits(states[m].loop, steps[m].res, [], [], states[m + 1].loop);
  }
}
