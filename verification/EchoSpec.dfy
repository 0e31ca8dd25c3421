/** The echo server as a state machine on top of the reactor's, and what every run of it satisfies. */
module EchoSpec {
  import opened Connections
  import opened Events
  import opened LoopSpec
  import opened Sockets

  datatype Session = Session(fd: Fd, buf: seq<Byte>)

  /**
   * `open` holds the live session sockets and `nextSocket` an identity not used so far. `alive` and
   * `reported` are the running count and the counts printed so far; `start` is when the current
   * count began. The rest is history: what was done on connections, the chunk each session read
   * and what was sent back on it.
   */
  datatype EchoState = EchoState(
    loop: LoopState,
    acceptor: SocketId,
    listenFd: Fd,
    open: map<SocketId, Session>,
    nextSocket: SocketId,
    alive: nat,
    reported: seq<nat>,
    start: int,
    log: seq<Action>,
    received: map<SocketId, seq<Byte>>,
    replied: map<SocketId, seq<Byte>>)

  /** One iteration of `run`, with the environment's choices. */
  datatype EchoStep =
    | Accepted(child: Fd, first: int, second: int)
    | Received(chunk: seq<Byte>)
    | Replied(taken: nat)
    | Passed(res: set<Interest>)

  /** The sockets that are not deleted. */
  predicate IsLive(s: EchoState, sid: SocketId) {
    sid == s.acceptor || sid in s.open
  }

  function FdOf(s: EchoState, sid: SocketId): Fd
    requires IsLive(s, sid)
  {
    if sid == s.acceptor then s.listenFd else s.open[sid].fd
  }

  /** accept() may return it: no live socket has it. */
  predicate IsFree(s: EchoState, fd: Fd) {
    fd != s.listenFd && forall sid <- s.open.Keys :: s.open[sid].fd != fd
  }

  /** Microseconds are what the report interval is measured in. */
  const MICROSECOND: int := 1000

  function ToUs(d: int): int {
    if d >= 0 then d / MICROSECOND else -(-d / MICROSECOND)
  }

  /** handle_accept found the second over when it read the clock. */
  predicate ReportDue(now: int, start: int) {
    ToUs(now - start) > 1_000_000
  }

  function AcceptEvent(s: EchoState, id: nat): IOEvent {
    IO(id, s.acceptor, s.listenFd, Read, HandleAccept)
  }

  /** ServerSocket::sread, which accepts `child`, and then handle_accept, reading the clock twice. */
  function AcceptEffect(s: EchoState, child: Fd, first: int, second: int): EchoState {
    var sid, n := s.nextSocket, |s.loop.submitted|;
    var again := AfterSubmit(s.loop, AcceptEvent(s, n));
    var waiting := AfterSubmit(again, IO(n + 1, sid, child, Read, HandleRead(sid)));
    var due := ReportDue(first, s.start);
    s.(
      loop := waiting.(now := second),
      open := s.open[sid := Session(child, seq(BUF_SIZE, _ => ' ' as int))],
      nextSocket := sid + 1,
      alive := if due then 0 else s.alive + 1,
      reported := if due then s.reported + [s.alive + 1] else s.reported,
      start := if due then second else s.start,
      log := s.log + [Accept(child)])
  }

  lemma AcceptEffectInSteps(
      s: EchoState, child: Fd, first: int, second: int, enrolled: EchoState, watching: EchoState, s': EchoState)
    requires enrolled == s.(
      open := s.open[s.nextSocket := Session(child, seq(BUF_SIZE, _ => ' ' as int))],
      nextSocket := s.nextSocket + 1, alive := s.alive + 1, log := s.log + [Accept(child)])
    requires var sid, n := s.nextSocket, |s.loop.submitted|;
             watching == enrolled.(loop :=
               AfterSubmit(AfterSubmit(s.loop, AcceptEvent(s, n)), IO(n + 1, sid, child, Read, HandleRead(sid))))
    requires var due := ReportDue(first, s.start);
             s' == watching.(
               loop := watching.loop.(now := second),
               alive := if due then 0 else watching.alive,
               reported := if due then watching.reported + [watching.alive] else watching.reported,
               start := if due then second else watching.start)
    ensures s' == AcceptEffect(s, child, first, second)
  {
  }

  /** SessionSocket::sread, which receives `chunk`, and then handle_read. */
  function ReadEffect(s: EchoState, sid: SocketId, chunk: seq<Byte>): EchoState
    requires sid in s.open && |chunk| <= BUF_SIZE
  {
    var fd := s.open[sid].fd;
    s.(
      loop := AfterSubmit(s.loop, IO(|s.loop.submitted|, sid, fd, Write, HandleWrite(sid))),
      open := s.open[sid := Session(fd, Padded(chunk, BUF_SIZE))],
      log := s.log + [Receive(fd)],
      received := s.received[sid := chunk])
  }

  /** SessionSocket::swrite, which sends `taken` bytes, and then handle_write, which deletes the socket. */
  function WriteEffect(s: EchoState, sid: SocketId, taken: nat): EchoState
    requires sid in s.open && taken <= |s.open[sid].buf|
  {
    s.(
      open := s.open - {sid},
      log := s.log + [Reply(s.open[sid].fd)],
      replied := s.replied[sid := s.open[sid].buf[..taken]])
  }

  function Dequeued(s: EchoState): EchoState
    requires s.loop.fifo != []
  {
    s.(loop := AfterExecute(s.loop))
  }

  ghost predicate NextAccepted(s: EchoState, child: Fd, first: int, second: int, s': EchoState) {
    && s.loop.fifo != [] && s.loop.fifo[0].cb == HandleAccept
    && IsFree(s, child) && s.loop.now <= first <= second
    && s' == AcceptEffect(Dequeued(s), child, first, second)
  }

  ghost predicate NextReceived(s: EchoState, chunk: seq<Byte>, s': EchoState) {
    && s.loop.fifo != [] && s.loop.fifo[0].cb.HandleRead?
    && |chunk| <= BUF_SIZE && s.loop.fifo[0].cb.session in s.open
    && s' == ReadEffect(Dequeued(s), s.loop.fifo[0].cb.session, chunk)
  }

  ghost predicate NextReplied(s: EchoState, taken: nat, s': EchoState) {
    && s.loop.fifo != [] && s.loop.fifo[0].cb.HandleWrite?
    && s.loop.fifo[0].cb.session in s.open && taken <= |s.open[s.loop.fifo[0].cb.session].buf|
    && s' == WriteEffect(Dequeued(s), s.loop.fifo[0].cb.session, taken)
  }

  ghost predicate EchoNext(s: EchoState, step: EchoStep, s': EchoState) {
    match step
    case Accepted(child, first, second) => NextAccepted(s, child, first, second, s')
    case Received(chunk) => NextReceived(s, chunk, s')
    case Replied(taken) => NextReplied(s, taken, s')
    case Passed(res) => NextPass(s.loop, res, [], [], s'.loop) && s' == s.(loop := s'.loop)
  }

  // ---------- the invariant ----------

  /** The events still to be executed. */
  ghost function Outstanding(l: LoopState): multiset<Event> {
    Bag(l.container) + Bag(l.fifo)
  }

  /** The event belongs to a live socket, carries its descriptor, and its session is in the matching phase. */
  ghost predicate WellFormed(e: Event, s: EchoState) {
    && e.IO?
    && if e.socket == s.acceptor then e.fd == s.listenFd && e.dir == Read && e.cb == HandleAccept
       else
         && e.socket in s.open && e.fd == s.open[e.socket].fd
         && (e.dir == Read ==> e.cb == HandleRead(e.socket) && e.socket !in s.received)
         && (e.dir == Write ==> e.cb == HandleWrite(e.socket) && e.socket in s.received)
  }

  /** Each live socket has exactly one outstanding event, and there are no others. */
  ghost predicate Paired(m: multiset<Event>, s: EchoState) {
    && (forall e <- m :: m[e] == 1 && WellFormed(e, s))
    && (forall e <- m, f <- m :: e.IO? && f.IO? && e.socket == f.socket ==> e == f)
    && (forall sid :: IsLive(s, sid) ==> exists e :: e in m && e.IO? && e.socket == sid)
  }

  ghost predicate DistinctFds(s: EchoState) {
    && (forall sid <- s.open.Keys :: s.open[sid].fd != s.listenFd)
    && (forall a <- s.open.Keys, b <- s.open.Keys :: s.open[a].fd == s.open[b].fd ==> a == b)
  }

  ghost predicate Numbering(s: EchoState) {
    && s.acceptor < s.nextSocket && s.acceptor !in s.open
    && (forall sid <- s.open.Keys :: sid < s.nextSocket)
    && (forall sid <- s.received.Keys :: sid < s.nextSocket)
    && (forall sid <- s.replied.Keys :: sid < s.nextSocket && sid in s.received && sid !in s.open)
  }

  /** A reply is a prefix of the session's own chunk, padded; and so is what is waiting to be sent. */
  ghost predicate Isolated(s: EchoState) {
    && (forall sid <- s.received.Keys :: |s.received[sid]| <= BUF_SIZE)
    && (forall sid <- s.open.Keys :: |s.open[sid].buf| == BUF_SIZE)
    && (forall sid <- s.open.Keys :: sid in s.received ==> s.open[sid].buf == Padded(s.received[sid], BUF_SIZE))
    && (forall sid <- s.replied.Keys :: sid in s.received && s.replied[sid] <= Padded(s.received[sid], BUF_SIZE))
  }

  function PhaseOfSession(s: EchoState, sid: SocketId): Phase {
    if sid in s.received then Writing else Reading
  }

  /** The connections' history is legal and leads to the sessions that are open. */
  ghost predicate Follows(s: EchoState) {
    && Legal(map[], s.log)
    && var t := AfterAll(map[], s.log);
    && (forall sid <- s.open.Keys :: s.open[sid].fd in t && t[s.open[sid].fd] == PhaseOfSession(s, sid))
    && (forall fd <- t.Keys :: exists sid :: sid in s.open && s.open[sid].fd == fd)
  }

  function Sum(ns: seq<nat>): nat {
    if ns == [] then 0 else Sum(ns[..|ns| - 1]) + ns[|ns| - 1]
  }

  function Accepts(log: seq<Action>): nat {
    if log == [] then 0 else Accepts(log[..|log| - 1]) + if log[|log| - 1].Accept? then 1 else 0
  }

  /** The printed counts and the running count add up to the accepts executed. */
  ghost predicate Counted(s: EchoState) {
    Sum(s.reported) + s.alive == Accepts(s.log)
  }

  ghost predicate EchoInv(s: EchoState) {
    && s.loop.timers == []
    && Paired(Outstanding(s.loop), s) && DistinctFds(s) && Numbering(s)
    && Isolated(s) && Follows(s) && Counted(s)
  }

  // ---------- every step keeps it ----------

  lemma ExecuteRemoves(l: LoopState)
    requires l.fifo != []
    ensures l.fifo[0] in Outstanding(l)
    ensures Outstanding(AfterExecute(l)) == Outstanding(l) - multiset{l.fifo[0]}
    ensures AfterExecute(l).submitted == l.submitted
  {
    assert l.fifo == [l.fifo[0]] + l.fifo[1..];
    assert l.fifo[0] in Bag(l.fifo);
  }

  lemma SubmitAdds(l: LoopState, e: IOEvent)
    ensures Outstanding(AfterSubmit(l, e)) == Outstanding(l) + multiset{e}
  {
  }

  lemma PassMoves(l: LoopState, res: set<Interest>, l': LoopState)
    requires NextPass(l, res, [], [], l')
    ensures Outstanding(l') == Outstanding(l)
  {
    PartitionConserves(l.container, res);
    ReversedIsMirror(Taken(l.container, res));
    var moved := Reversed(Taken(l.container, res));
    assert l'.fifo == l.fifo + moved;
    assert Bag(l'.fifo) == Bag(l.fifo) + Bag(moved);
  }

  /** Replacing a socket's event by another of the same socket keeps the pairing. */
  lemma PairedReplace(m: multiset<Event>, s: EchoState, e: Event, f: Event, s': EchoState)
    requires Paired(m, s) && e in m && f.IO? && f.socket == e.socket
    requires forall sid :: IsLive(s', sid) ==> IsLive(s, sid)
    requires WellFormed(f, s')
    requires forall g <- m :: g != e ==> WellFormed(g, s')
    ensures Paired(m - multiset{e} + multiset{f}, s')
  {
    var m' := m - multiset{e} + multiset{f};
    assert forall g :: g in m' ==> g == f || (g in m && g != e);
    forall g | g in m' ensures m'[g] == 1 {
      if g != f {
        assert m[g] == 1;
      } else {
        assert f in m ==> f == e;
      }
    }
    forall sid | IsLive(s', sid) ensures exists g :: g in m' && g.IO? && g.socket == sid {
      if sid == f.socket {
        assert f in m';
      } else {
        var g :| g in m && g.IO? && g.socket == sid;
        assert g in m';
      }
    }
  }

  /** A new socket comes with its event. */
  lemma PairedAdd(m: multiset<Event>, s: EchoState, f: Event, s': EchoState)
    requires Paired(m, s) && f.IO? && !IsLive(s, f.socket)
    requires forall sid :: IsLive(s', sid) ==> IsLive(s, sid) || sid == f.socket
    requires WellFormed(f, s') && forall g <- m :: WellFormed(g, s') && g.socket != f.socket
    ensures Paired(m + multiset{f}, s')
  {
    var m' := m + multiset{f};
    assert forall g :: g in m' <==> g == f || g in m;
    forall sid | IsLive(s', sid) ensures exists g :: g in m' && g.IO? && g.socket == sid {
      if sid == f.socket {
        assert f in m';
      } else {
        var g :| g in m && g.IO? && g.socket == sid;
        assert g in m';
      }
    }
  }

  /** A socket is deleted together with its last event. */
  lemma PairedRemove(m: multiset<Event>, s: EchoState, e: Event, s': EchoState)
    requires Paired(m, s) && e in m
    requires forall sid :: IsLive(s', sid) ==> IsLive(s, sid) && sid != e.socket
    requires forall g <- m :: g != e ==> WellFormed(g, s')
    ensures Paired(m - multiset{e}, s')
  {
    var m' := m - multiset{e};
    assert m[e] == 1;
    assert forall g :: g in m' <==> g in m && g != e;
    forall sid | IsLive(s', sid) ensures exists g :: g in m' && g.IO? && g.socket == sid {
      var g :| g in m && g.IO? && g.socket == sid;
      assert g in m';
    }
  }

  lemma OnlyEventOf(m: multiset<Event>, s: EchoState, e: Event)
    requires Paired(m, s) && e in m
    ensures forall g <- m :: g != e ==> g.IO? && g.socket != e.socket
  {
    forall g | g in m && g != e ensures g.IO? && g.socket != e.socket {
      assert WellFormed(g, s) && WellFormed(e, s);
    }
  }

  // The parts of the invariant that say nothing of events are kept by what a step does to the sessions.

  lemma AcceptedSessions(s: EchoState, child: Fd, s': EchoState)
    requires DistinctFds(s) && Numbering(s) && Isolated(s) && IsFree(s, child)
    requires s'.open == s.open[s.nextSocket := Session(child, seq(BUF_SIZE, _ => ' ' as int))]
    requires s'.nextSocket == s.nextSocket + 1
    requires s'.(open := s.open, nextSocket := s.nextSocket, loop := s.loop, alive := s.alive, reported := s.reported,
                 start := s.start, log := s.log) == s
    ensures DistinctFds(s') && Numbering(s') && Isolated(s')
  {
  }

  lemma AcceptedFollows(s: EchoState, child: Fd, s': EchoState)
    requires Follows(s) && IsFree(s, child) && s.nextSocket !in s.received
    requires s.nextSocket !in s.open && s'.received == s.received
    requires s'.open == s.open[s.nextSocket := Session(child, seq(BUF_SIZE, _ => ' ' as int))]
    requires s'.log == s.log + [Accept(child)]
    ensures Follows(s')
  {
    hide Legal, AfterAll;
    var t := AfterAll(map[], s.log);
    LegalStep(map[], s.log, Accept(child));
    var t' := AfterAll(map[], s'.log);
    assert t' == t[child := Reading];
    forall sid | sid in s'.open ensures s'.open[sid].fd in t' && t'[s'.open[sid].fd] == PhaseOfSession(s', sid) {
      if sid != s.nextSocket {
        assert s'.open[sid] == s.open[sid];
      }
    }
    forall fd | fd in t'.Keys ensures exists sid :: sid in s'.open && s'.open[sid].fd == fd {
      if fd == child {
        assert s'.open[s.nextSocket].fd == fd;
      } else {
        var sid :| sid in s.open && s.open[sid].fd == fd;
        assert s'.open[sid].fd == fd;
      }
    }
  }

  lemma ReceivedSessions(s: EchoState, sid: SocketId, chunk: seq<Byte>, s': EchoState)
    requires DistinctFds(s) && Numbering(s) && Isolated(s) && sid in s.open && |chunk| <= BUF_SIZE
    requires s'.open == s.open[sid := Session(s.open[sid].fd, Padded(chunk, BUF_SIZE))]
    requires s'.received == s.received[sid := chunk]
    requires s'.(open := s.open, received := s.received, loop := s.loop, log := s.log) == s
    ensures DistinctFds(s') && Numbering(s') && Isolated(s')
  {
    hide Padded;
    assert |Padded(chunk, BUF_SIZE)| == BUF_SIZE by {
      PaddedSize(chunk);
    }
  }

  lemma PaddedSize(chunk: seq<Byte>)
    requires |chunk| <= BUF_SIZE
    ensures |Padded(chunk, BUF_SIZE)| == BUF_SIZE
  {
  }

  lemma ReceivedFollows(s: EchoState, sid: SocketId, chunk: seq<Byte>, s': EchoState)
    requires Follows(s) && DistinctFds(s) && sid in s.open && sid !in s.received && |chunk| <= BUF_SIZE
    requires s'.open == s.open[sid := Session(s.open[sid].fd, Padded(chunk, BUF_SIZE))]
    requires s'.received == s.received[sid := chunk]
    requires s'.log == s.log + [Receive(s.open[sid].fd)]
    ensures Follows(s')
  {
    hide Legal, AfterAll, Padded;
    LegalStep(map[], s.log, Receive(s.open[sid].fd));
    forall fd | fd in AfterAll(map[], s.log).Keys ensures exists x :: x in s'.open && s'.open[x].fd == fd {
      var x :| x in s.open && s.open[x].fd == fd;
      assert s'.open[x].fd == fd;
    }
  }

  lemma RepliedSessions(s: EchoState, sid: SocketId, taken: nat, s': EchoState)
    requires DistinctFds(s) && Numbering(s) && Isolated(s) && sid in s.open && sid in s.received
    requires taken <= |s.open[sid].buf|
    requires s'.open == s.open - {sid} && s'.replied == s.replied[sid := s.open[sid].buf[..taken]]
    requires s'.(open := s.open, replied := s.replied, loop := s.loop, log := s.log) == s
    ensures DistinctFds(s') && Numbering(s') && Isolated(s')
  {
    hide Padded;
  }

  lemma RepliedFollows(s: EchoState, sid: SocketId, s': EchoState)
    requires Follows(s) && DistinctFds(s) && sid in s.open && sid in s.received
    requires s'.open == s.open - {sid} && s'.received == s.received
    requires s'.log == s.log + [Reply(s.open[sid].fd)]
    ensures Follows(s')
  {
    hide Legal, AfterAll;
    var fd := s.open[sid].fd;
    LegalStep(map[], s.log, Reply(fd));
    forall f | f in AfterAll(map[], s.log).Keys - {fd} ensures exists x :: x in s'.open && s'.open[x].fd == f {
      var x :| x in s.open && s.open[x].fd == f;
      assert s'.open[x].fd == f;
    }
  }

  lemma AcceptedCounts(s: EchoState, child: Fd, due: bool, s': EchoState)
    requires Counted(s) && s'.log == s.log + [Accept(child)]
    requires s'.alive == if due then 0 else s.alive + 1
    requires s'.reported == if due then s.reported + [s.alive + 1] else s.reported
    ensures Counted(s')
  {
    assert s'.log[..|s.log|] == s.log;
    assert due ==> s'.reported[..|s.reported|] == s.reported;
  }

  lemma OthersCount(s: EchoState, a: Action, s': EchoState)
    requires Counted(s) && s'.log == s.log + [a] && !a.Accept?
    requires s'.alive == s.alive && s'.reported == s.reported
    ensures Counted(s')
  {
    assert s'.log[..|s.log|] == s.log;
  }

  lemma NumberingFacts(s: EchoState)
    requires Numbering(s)
    ensures !IsLive(s, s.nextSocket) && s.nextSocket !in s.received && s.acceptor !in s.open
  {
  }

  lemma AcceptedPairs(s: EchoState, child: Fd, first: int, second: int, s': EchoState)
    requires Paired(Outstanding(s.loop), s) && Numbering(s) && NextAccepted(s, child, first, second, s')
    ensures Paired(Outstanding(s'.loop), s')
  {
    hide Numbering, ReportDue, Outstanding, AfterExecute, AfterSubmit, Paired;
    NumberingFacts(s);
    var head, sid, n := s.loop.fifo[0], s.nextSocket, |s.loop.submitted|;
    var accept, read := AcceptEvent(s, n), IO(n + 1, sid, child, Read, HandleRead(sid));
    var popped := AfterExecute(s.loop);
    var again := AfterSubmit(popped, accept);
    ExecuteRemoves(s.loop);
    SubmitAdds(popped, accept);
    SubmitAdds(again, read);
    SameOutstanding(AfterSubmit(again, read), s'.loop);
    AcceptedEvents(Outstanding(s.loop), s, head, accept, read, s');
  }

  lemma SameOutstanding(l: LoopState, l': LoopState)
    requires l.container == l'.container && l.fifo == l'.fifo
    ensures Outstanding(l) == Outstanding(l')
  {
  }

  /** What accepting does to the outstanding events. */
  lemma AcceptedEvents(m: multiset<Event>, s: EchoState, head: Event, accept: IOEvent, read: IOEvent, s': EchoState)
    requires Paired(m, s) && head in m && head.cb == HandleAccept && s.acceptor !in s.open
    requires WellFormed(accept, s) && accept.socket == s.acceptor
    requires !IsLive(s, read.socket) && read.socket !in s.received
    requires s'.open.Keys == s.open.Keys + {read.socket} && forall sid <- s.open.Keys :: s'.open[sid] == s.open[sid]
    requires s'.acceptor == s.acceptor && s'.listenFd == s.listenFd && s'.received == s.received
    requires WellFormed(read, s')
    ensures Paired(m - multiset{head} + multiset{accept} + multiset{read}, s')
  {
    assert WellFormed(head, s);
    PairedReplace(m, s, head, accept, s);
    var m' := m - multiset{head} + multiset{accept};
    forall g | g in m' ensures WellFormed(g, s') && g.socket != read.socket {
      assert WellFormed(g, s);
    }
    PairedAdd(m', s, read, s');
  }

  lemma ReceivedPairs(s: EchoState, chunk: seq<Byte>, s': EchoState)
    requires Paired(Outstanding(s.loop), s) && Numbering(s) && NextReceived(s, chunk, s')
    ensures Paired(Outstanding(s'.loop), s')
    ensures s.loop.fifo[0].cb.session !in s.received
  {
    hide Numbering, Outstanding, AfterExecute, AfterSubmit, Padded;
    NumberingFacts(s);
    var head, n := s.loop.fifo[0], |s.loop.submitted|;
    var m := Outstanding(s.loop);
    ExecuteRemoves(s.loop);
    assert WellFormed(head, s);
    var sid := head.socket;
    var write := IO(n, sid, s.open[sid].fd, Write, HandleWrite(sid));
    SubmitAdds(AfterExecute(s.loop), write);
    OnlyEventOf(m, s, head);
    forall g | g in m && g != head ensures WellFormed(g, s') {
      assert WellFormed(g, s);
    }
    PairedReplace(m, s, head, write, s');
  }

  lemma RepliedPairs(s: EchoState, taken: nat, s': EchoState)
    requires Paired(Outstanding(s.loop), s) && Numbering(s) && NextReplied(s, taken, s')
    ensures Paired(Outstanding(s'.loop), s')
    ensures s.loop.fifo[0].cb.session in s.received
  {
    hide Numbering, Outstanding, AfterExecute;
    NumberingFacts(s);
    var head := s.loop.fifo[0];
    var m := Outstanding(s.loop);
    ExecuteRemoves(s.loop);
    assert WellFormed(head, s);
    OnlyEventOf(m, s, head);
    forall g | g in m && g != head ensures WellFormed(g, s') {
      assert WellFormed(g, s);
    }
    PairedRemove(m, s, head, s');
  }

  /** Moving events between the stores touches nothing else. */
  lemma PassedSessions(s: EchoState, s': EchoState)
    requires DistinctFds(s) && Numbering(s) && Isolated(s) && Follows(s) && Counted(s)
    requires s' == s.(loop := s'.loop)
    ensures DistinctFds(s') && Numbering(s') && Isolated(s') && Follows(s') && Counted(s')
  {
    hide Legal, AfterAll, Padded, Sum, Accepts;
  }

  lemma PassedPairs(m: multiset<Event>, s: EchoState, s': EchoState)
    requires Paired(m, s) && s' == s.(loop := s'.loop)
    ensures Paired(m, s')
  {
    forall e | e in m ensures WellFormed(e, s') {
      assert WellFormed(e, s);
    }
    assert forall sid :: IsLive(s', sid) ==> IsLive(s, sid);
  }

  lemma PassedKeepsInv(s: EchoState, res: set<Interest>, s': EchoState)
    requires EchoInv(s) && EchoNext(s, Passed(res), s')
    ensures EchoInv(s')
  {
    hide Outstanding, Paired, DistinctFds, Numbering, Isolated, Follows, Counted;
    PassMoves(s.loop, res, s'.loop);
    NothingToDrain(s.loop, res, [], [], s'.loop);
    PassedPairs(Outstanding(s.loop), s, s');
    PassedSessions(s, s');
  }

  /** Every step of the echo server keeps its invariant, whatever the environment chooses. */
  lemma EchoNextKeepsInv(s: EchoState, step: EchoStep, s': EchoState)
    requires EchoInv(s) && EchoNext(s, step, s')
    ensures EchoInv(s')
  {
    hide Paired, DistinctFds, Numbering, Isolated, Follows, Counted, ReportDue, Padded;
    match step
    case Accepted(child, first, second) =>
      NumberingFacts(s);
      AcceptedPairs(s, child, first, second, s');
      AcceptedSessions(s, child, s');
      AcceptedFollows(s, child, s');
      AcceptedCounts(s, child, ReportDue(first, s.start), s');
    case Received(chunk) =>
      var sid := s.loop.fifo[0].cb.session;
      ReceivedPairs(s, chunk, s');
      ReceivedSessions(s, sid, chunk, s');
      ReceivedFollows(s, sid, chunk, s');
      OthersCount(s, Receive(s.open[sid].fd), s');
    case Replied(taken) =>
      var sid := s.loop.fifo[0].cb.session;
      RepliedPairs(s, taken, s');
      RepliedSessions(s, sid, taken, s');
      RepliedFollows(s, sid, s');
      OthersCount(s, Reply(s.open[sid].fd), s');
    case Passed(res) =>
      PassedKeepsInv(s, res, s');
  }

  // ---------- runs ----------

  /** EchoServer's constructor has just submitted the first accept event. */
  ghost predicate EchoInitial(s: EchoState) {
    && s.loop == LoopState([AcceptEvent(s, 0)], [], [], [], s.loop.now, [AcceptEvent(s, 0)], [0], [], [])
    && s.acceptor < s.nextSocket && s.open == map[]
    && s.alive == 0 && s.reported == [] && s.log == [] && s.received == map[] && s.replied == map[]
  }

  ghost predicate IsEchoRun(states: seq<EchoState>, steps: seq<EchoStep>) {
    && |states| == |steps| + 1 && EchoInitial(states[0])
    && forall i :: 0 <= i < |steps| ==> EchoNext(states[i], steps[i], states[i + 1])
  }

  lemma EchoStarts(s: EchoState)
    requires EchoInitial(s)
    ensures EchoInv(s)
  {
    var e := AcceptEvent(s, 0);
    assert Outstanding(s.loop) == multiset{e};
    forall sid | IsLive(s, sid) ensures exists f :: f in Outstanding(s.loop) && f.IO? && f.socket == sid {
      assert e in Outstanding(s.loop) && e.socket == sid;
    }
  }

  lemma {:induction false} EchoRunKeepsInv(states: seq<EchoState>, steps: seq<EchoStep>, i: nat)
    requires IsEchoRun(states, steps) && i < |states|
    ensures EchoInv(states[i])
  {
    hide EchoInv, EchoNext, EchoInitial;
    if i == 0 {
      EchoStarts(states[0]);
    } else {
      EchoRunKeepsInv(states, steps, i - 1);
      EchoNextKeepsInv(states[i - 1], steps[i - 1], states[i]);
    }
  }

  lemma ExtendEchoRun(states: seq<EchoState>, steps: seq<EchoStep>, step: EchoStep, s: EchoState)
    requires IsEchoRun(states, steps) && EchoNext(states[|steps|], step, s)
    ensures IsEchoRun(states + [s], steps + [step])
  {
    hide EchoNext;
    var states', steps' := states + [s], steps + [step];
    forall i | 0 <= i < |steps'| ensures EchoNext(states'[i], steps'[i], states'[i + 1]) {
      if i < |steps| {
        assert EchoNext(states[i], steps[i], states[i + 1]);
      }
    }
  }

  /** How many of the events belong to the socket. */
  function CountOn(es: seq<Event>, sid: SocketId): nat {
    if es == [] then 0 else
    CountOn(es[..|es| - 1], sid) + if es[|es| - 1].IO? && es[|es| - 1].socket == sid then 1 else 0
  }

  lemma {:induction false} CountedOnce(es: seq<Event>, sid: SocketId)
    requires forall i, j :: 0 <= i < j < |es| && es[i].IO? && es[j].IO? ==> es[i].socket != es[j].socket
    ensures CountOn(es, sid) == if exists e :: e in es && e.IO? && e.socket == sid then 1 else 0
  {
    if es != [] {
      var init, last := es[..|es| - 1], es[|es| - 1];
      CountedOnce(init, sid);
      assert es == init + [last];
      assert forall e :: e in es <==> e in init || e == last;
      if last.IO? && last.socket == sid {
        forall e | e in init && e.IO? ensures e.socket != sid {
          var k :| 0 <= k < |init| && init[k] == e;
        }
      }
    }
  }

  lemma {:induction false} TwiceInBag(es: seq<Event>, i: nat, j: nat)
    requires i < j < |es| && es[i] == es[j]
    ensures Bag(es)[es[i]] >= 2
  {
    assert es == es[..i] + [es[i]] + es[i + 1..];
    assert es[i + 1..][j - i - 1] == es[i];
    assert Bag(es) == Bag(es[..i]) + multiset{es[i]} + Bag(es[i + 1..]);
    assert es[i] in Bag(es[i + 1..]);
  }

  /**
   * At every loop head there is exactly one outstanding event on the listener and on each open
   * session, none on anything else, and it carries the descriptor its socket has now.
   */
  lemma OneOutstandingEach(states: seq<EchoState>, steps: seq<EchoStep>, i: nat, sid: SocketId)
    requires IsEchoRun(states, steps) && i < |states|
    ensures var s := states[i]; CountOn(s.loop.container + s.loop.fifo, sid) == if IsLive(s, sid) then 1 else 0
    ensures var s := states[i];
            forall e <- s.loop.container + s.loop.fifo :: e.IO? && IsLive(s, e.socket) && e.fd == FdOf(s, e.socket)
  {
    EchoRunKeepsInv(states, steps, i);
    var s := states[i];
    var es := s.loop.container + s.loop.fifo;
    var m := Outstanding(s.loop);
    assert Bag(es) == m;
    assert forall e :: e in es <==> e in m;
    forall a, b | 0 <= a < b < |es| && es[a].IO? && es[b].IO? ensures es[a].socket != es[b].socket {
      assert es[a] in m && es[b] in m;
      if es[a] == es[b] {
        TwiceInBag(es, a, b);
      }
    }
    CountedOnce(es, sid);
    forall e | e in es ensures e.IO? && IsLive(s, e.socket) && e.fd == FdOf(s, e.socket) {
      assert WellFormed(e, s);
    }
  }

  /** Live sockets never share a descriptor, although closed descriptors are reused. */
  lemma LiveDescriptorsDiffer(states: seq<EchoState>, steps: seq<EchoStep>, i: nat, a: SocketId, b: SocketId)
    requires IsEchoRun(states, steps) && i < |states|
    requires IsLive(states[i], a) && IsLive(states[i], b) && a != b
    ensures FdOf(states[i], a) != FdOf(states[i], b)
  {
    EchoRunKeepsInv(states, steps, i);
  }

  lemma InvIsOneWay(s: EchoState)
    requires EchoInv(s)
    ensures OneDirection(Pairs(s.loop.container))
  {
    var m := Outstanding(s.loop);
    forall e, f | e in s.loop.container && f in s.loop.container ensures PairOf(f) != Opposite(PairOf(e)) {
      assert e in Bag(s.loop.container) && f in Bag(s.loop.container);
      assert e in m && f in m;
      assert WellFormed(e, s) && WellFormed(f, s);
    }
  }

  /** The server never wants a descriptor both ways, so it is safe over any back end. */
  lemma ServerIsOneWay(states: seq<EchoState>, steps: seq<EchoStep>, i: nat)
    requires IsEchoRun(states, steps) && i < |states|
    ensures OneDirection(Pairs(states[i].loop.container))
  {
    EchoRunKeepsInv(states, steps, i);
    InvIsOneWay(states[i]);
  }

  /** `run` never runs dry. */
  lemma NeverDry(states: seq<EchoState>, steps: seq<EchoStep>, i: nat)
    requires IsEchoRun(states, steps) && i < |states|
    ensures !Quiescent(states[i].loop) && !Empty(states[i].loop)
  {
    EchoRunKeepsInv(states, steps, i);
    var s := states[i];
    assert IsLive(s, s.acceptor);
    var e :| e in Outstanding(s.loop) && e.IO? && e.socket == s.acceptor;
  }

  /** At a loop head one of the environment's steps is always possible: callbacks never meet a dead session. */
  lemma HeadIsServable(s: EchoState)
    requires EchoInv(s) && s.loop.fifo != []
    ensures var e := s.loop.fifo[0];
            && e.IO?
            && (e.cb == HandleAccept <==> e.socket == s.acceptor)
            && (e.cb == HandleAccept ==> e.fd == s.listenFd && e.dir == Read)
            && (e.cb != HandleAccept ==>
                  && (e.cb.HandleRead? || e.cb.HandleWrite?)
                  && e.cb.session in s.open && |s.open[e.cb.session].buf| == BUF_SIZE
                  && e.socket == e.cb.session && e.fd == s.open[e.socket].fd)
            && (e.cb.HandleRead? <==> e.dir == Read && e.socket != s.acceptor)
            && (e.cb.HandleWrite? <==> e.dir == Write)
  {
    ExecuteRemoves(s.loop);
    assert WellFormed(s.loop.fifo[0], s);
  }

  /** Each descriptor's life is accept, read, write and close, over and over. */
  lemma ConnectionsCycle(states: seq<EchoState>, steps: seq<EchoStep>, i: nat, fd: Fd)
    requires IsEchoRun(states, steps) && i < |states|
    ensures Legal(map[], states[i].log) && Cyclic(On(states[i].log, fd), fd)
  {
    EchoRunKeepsInv(states, steps, i);
    LegalTracesCycle(states[i].log, fd);
  }

  /** Each step of the server is a sequence of steps of the reactor underneath. */
  lemma EchoStepIsReactorSteps(s: EchoState, step: EchoStep, s': EchoState)
    returns (loops: seq<LoopState>, moves: seq<Step>)
    requires EchoNext(s, step, s')
    ensures IsChain(loops, moves) && loops[0] == s.loop && loops[|moves|] == s'.loop
  {
    match step
    case Accepted(child, first, second) =>
      var sid, n := s.nextSocket, |s.loop.submitted|;
      var accept, read := AcceptEvent(s, n), IO(n + 1, sid, child, Read, HandleRead(sid));
      var popped := AfterExecute(s.loop);
      var again := AfterSubmit(popped, accept);
      var waiting := AfterSubmit(again, read);
      moves := [Execute, Submit(accept, []), Submit(read, []), Tick];
      loops := [s.loop, popped, again, waiting, s'.loop];
      assert Next(loops[0], moves[0], loops[1]);
      assert Next(loops[1], moves[1], loops[2]);
      assert Next(loops[2], moves[2], loops[3]);
      assert Next(loops[3], moves[3], loops[4]);
    case Received(chunk) =>
      var sid := s.loop.fifo[0].cb.session;
      var write := IO(|s.loop.submitted|, sid, s.open[sid].fd, Write, HandleWrite(sid));
      moves := [Execute, Submit(write, [])];
      loops := [s.loop, AfterExecute(s.loop), s'.loop];
      assert Next(loops[0], moves[0], loops[1]);
      assert Next(loops[1], moves[1], loops[2]);
    case Replied(_) =>
      moves := [Execute];
      loops := [s.loop, s'.loop];
    case Passed(res) =>
      moves := [Pass(res, [], [])];
      loops := [s.loop, s'.loop];
  }

  /** A reactor run goes on with further steps from the state it has reached. */
  lemma ContinueRun(
      loops: seq<LoopState>, moves: seq<Step>, more: seq<LoopState>, extra: seq<Step>)
    requires IsRun(loops, moves) && IsChain(more, extra) && more[0] == loops[|moves|]
    ensures IsRun(loops + more[1..], moves + extra)
    ensures (loops + more[1..])[|moves + extra|] == more[|extra|]
  {
    var all, steps := loops + more[1..], moves + extra;
    forall k | 0 <= k < |steps| ensures Next(all[k], steps[k], all[k + 1]) {
      if k < |moves| {
        assert Next(loops[k], moves[k], loops[k + 1]);
      } else {
        assert Next(more[k - |moves|], extra[k - |moves|], more[k - |moves| + 1]);
      }
    }
  }

  /** The server's first state is an empty reactor's, one submission later. */
  lemma StartIsReactorRun(s: EchoState) returns (loops: seq<LoopState>, moves: seq<Step>)
    requires EchoInitial(s)
    ensures IsRun(loops, moves) && loops[|moves|] == s.loop
  {
    var accept := AcceptEvent(s, 0);
    var empty := LoopState([], [], [], [], s.loop.now, [], [], [], []);
    loops, moves := [empty, s.loop], [Submit(accept, [])];
    assert Next(empty, Submit(accept, []), s.loop);
  }

  /**
   * `loops` and `moves` are a run of the reactor, and the echo run is that run observed at the loop
   * heads: its states are the ones at the positions `heads`.
   */
  ghost predicate Observes(states: seq<EchoState>, loops: seq<LoopState>, moves: seq<Step>, heads: seq<nat>) {
    && IsRun(loops, moves) && |heads| == |states|
    && (forall i, j :: 0 <= i <= j < |heads| ==> heads[i] <= heads[j])
    && (forall i :: 0 <= i < |heads| ==> heads[i] < |loops| && loops[heads[i]] == states[i].loop)
  }

  lemma ObserveMore(
      states: seq<EchoState>, loops: seq<LoopState>, moves: seq<Step>, heads: seq<nat>, s: EchoState,
      more: seq<LoopState>, extra: seq<Step>)
    requires Observes(states, loops, moves, heads) && heads != [] && heads[|heads| - 1] == |moves|
    requires IsChain(more, extra) && more[0] == states[|states| - 1].loop && more[|extra|] == s.loop
    ensures Observes(states + [s], loops + more[1..], moves + extra, heads + [|moves + extra|])
  {
    hide Next;
    ContinueRun(loops, moves, more, extra);
  }

  /** Every run of the server is a run of the reactor underneath, so all that holds of those holds of it. */
  lemma {:induction false} EchoRunIsReactorRun(states: seq<EchoState>, steps: seq<EchoStep>)
    returns (loops: seq<LoopState>, moves: seq<Step>, heads: seq<nat>)
    requires IsEchoRun(states, steps)
    ensures Observes(states, loops, moves, heads) && heads[|steps|] == |moves|
    decreases |steps|
  {
    hide EchoNext, EchoInitial, IsRun, IsChain;
    if steps == [] {
      loops, moves := StartIsReactorRun(states[0]);
      RunEnds(loops, moves);
      heads := [|moves|];
    } else {
      var n := |steps| - 1;
      loops, moves, heads := EchoRunIsReactorRun(states[..n + 1], steps[..n]);
      var more, extra := EchoStepIsReactorSteps(states[n], steps[n], states[n + 1]);
      ObserveMore(states[..n + 1], loops, moves, heads, states[n + 1], more, extra);
      assert states[..n + 1] + [states[n + 1]] == states;
      loops, moves := loops + more[1..], moves + extra;
      heads := heads + [|moves|];
    }
  }

  lemma RunEnds(loops: seq<LoopState>, moves: seq<Step>)
    requires IsRun(loops, moves)
    ensures |loops| == |moves| + 1
  {
  }

  /** An event of the server is in exactly one place: pending, ready or executed, and executed at most once. */
  lemma EchoEventsInOnePlace(states: seq<EchoState>, steps: seq<EchoStep>, i: nat, e: Event)
    requires IsEchoRun(states, steps) && i < |states| && e in states[i].loop.submitted
    ensures var l := states[i].loop; Bag(l.container)[e] + Bag(l.fifo)[e] + Bag(l.executed)[e] == 1
  {
    hide IsRun, EchoNext, EchoInitial;
    var loops, moves, heads := EchoRunIsReactorRun(states, steps);
    InOnePlace(loops, moves, heads[i], e);
    EchoRunKeepsInv(states, steps, i);
    NoTimersIn(states[i]);
  }

  lemma NoTimersIn(s: EchoState)
    requires EchoInv(s)
    ensures s.loop.timers == []
  {
  }

  /**
   * The server runs in generations: what is executed or handed over at a loop head stays in front of all
   * that a callback submits from then on.
   */
  lemma EchoRunsInGenerations(states: seq<EchoState>, steps: seq<EchoStep>, i: nat, j: nat)
    requires IsEchoRun(states, steps) && i < |states|
    ensures var l, f := states[i].loop, states[|steps|].loop; l.executed + l.fifo <= f.executed + f.fifo
    ensures var l, f := states[i].loop, states[|steps|].loop;
            j < |f.executed| && f.executed[j] !in l.submitted ==> j >= |l.executed| + |l.fifo|
  {
    hide IsRun, EchoNext, EchoInitial;
    var loops, moves, heads := EchoRunIsReactorRun(states, steps);
    RunEnds(loops, moves);
    HandedOverStays(loops, moves, heads[i]);
    RunKeepsInv(loops, moves, heads[i]);
    var l, f := states[i].loop, states[|steps|].loop;
    var past := l.executed + l.fifo;
    if j < |past| && j < |f.executed| {
      assert past[j] == (f.executed + f.fifo)[j] == f.executed[j];
      assert past[j] in l.executed || past[j] in l.fifo;
      InSubmitted(l, past[j]);
    }
  }

  /** The printed counts and the running count total the accepts executed. */
  lemma CountsAddUp(states: seq<EchoState>, steps: seq<EchoStep>, i: nat)
    requires IsEchoRun(states, steps) && i < |states|
    ensures Sum(states[i].reported) + states[i].alive == Accepts(states[i].log)
  {
    EchoRunKeepsInv(states, steps, i);
  }
}
