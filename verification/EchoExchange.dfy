/**
 * What the steps of the echo server come to, told from the environment's choices: which connection is
 * opened, whose bytes are read, what is sent back to whom, and when a count is printed.
 */
module EchoExchange {
  import opened Connections
  import opened EchoSpec
  import opened Events
  import opened LoopSpec
  import opened Sockets
  import Timers

  // ---------- single steps ----------

  /** An event of `sid` is executed at step `m`. */
  ghost predicate Runs(states: seq<EchoState>, m: nat, sid: SocketId) {
    m < |states| && states[m].loop.fifo != [] && states[m].loop.fifo[0].IO? && states[m].loop.fifo[0].socket == sid
  }

  /** The sessions other than `sid` are what they were. */
  ghost predicate OthersKept(s: EchoState, s': EchoState, sid: SocketId) {
    forall o :: o != sid ==>
      && (o in s'.open <==> o in s.open) && (o in s.open ==> s'.open[o] == s.open[o])
      && (o in s'.received <==> o in s.received) && (o in s.received ==> s'.received[o] == s.received[o])
      && (o in s'.replied <==> o in s.replied) && (o in s.replied ==> s'.replied[o] == s.replied[o])
  }

  /** The event at the head has been executed, and these events were submitted. */
  ghost predicate Executed(s: EchoState, submitted: seq<IOEvent>, s': EchoState) {
    && s.loop.fifo != [] && s'.loop.fifo == s.loop.fifo[1..]
    && s'.loop.executed == s.loop.executed + [s.loop.fifo[0]]
    && s'.loop.container == s.loop.container + submitted
  }

  /**
   * Accepting opens a session with a blank buffer on the accepted descriptor, and waits for the next
   * connection and then for the session's chunk. The count goes up by one, or is printed and begun anew
   * if a microsecond more than a second has passed.
   */
  lemma AcceptOpens(states: seq<EchoState>, steps: seq<EchoStep>, m: nat)
    requires IsEchoRun(states, steps) && m < |steps| && steps[m].Accepted?
    ensures var s, s', child, n := states[m], states[m + 1], steps[m].child, |states[m].loop.submitted|;
            var sid := s.nextSocket;
            && Runs(states, m, s.acceptor) && !IsLive(s, sid) && OthersKept(s, s', sid)
            && sid in s'.open && s'.open[sid].fd == child
            && |s'.open[sid].buf| == 20 && (forall k :: 0 <= k < 20 ==> s'.open[sid].buf[k] == 32)
            && s'.log == s.log + [Accept(child)]
            && Executed(s, [IO(n, s.acceptor, s.listenFd, Read, HandleAccept),
                            IO(n + 1, sid, child, Read, HandleRead(sid))], s')
    ensures var s, s', first, second := states[m], states[m + 1], steps[m].first, steps[m].second;
            && s.loop.now <= first <= second == s'.loop.now
            && if first >= s.start + Timers.SECOND + 1_000
               then s'.reported == s.reported + [s.alive + 1] && s'.alive == 0 && s'.start == second
               else s'.reported == s.reported && s'.alive == s.alive + 1 && s'.start == s.start
  {
    EchoRunKeepsInv(states, steps, m);
    assert EchoNext(states[m], steps[m], states[m + 1]);
    HeadIsServable(states[m]);
    NumberingFacts(states[m]);
    AppendTwice(states[m].loop.container,
                IO(|states[m].loop.submitted|, states[m].acceptor, states[m].listenFd, Read, HandleAccept),
                IO(|states[m].loop.submitted| + 1, states[m].nextSocket, steps[m].child, Read,
                   HandleRead(states[m].nextSocket)));
    DueAfterASecond(steps[m].first, states[m].start);
  }

  lemma AppendTwice(es: seq<IOEvent>, e: IOEvent, f: IOEvent)
    ensures es + [e] + [f] == es + [e, f]
  {
  }

  lemma DueAfterASecond(now: int, start: int)
    ensures ReportDue(now, start) <==> now >= start + Timers.SECOND + 1_000
  {
  }

  /** Reading puts the chunk, followed by zeros, into the session's own buffer, and waits to write. */
  lemma ReadFillsBuffer(states: seq<EchoState>, steps: seq<EchoStep>, m: nat, sid: SocketId)
    requires IsEchoRun(states, steps) && m < |steps| && steps[m].Received? && Runs(states, m, sid)
    ensures var s, s', chunk := states[m], states[m + 1], steps[m].chunk;
            && sid in s.open && sid !in s.received && OthersKept(s, s', sid)
            && sid in s'.received && s'.received[sid] == chunk && |chunk| <= 20
            && sid in s'.open && s'.open[sid].fd == s.open[sid].fd && |s'.open[sid].buf| == 20
            && (forall k :: 0 <= k < 20 ==> s'.open[sid].buf[k] == if k < |chunk| then chunk[k] else 0)
            && s'.log == s.log + [Receive(s.open[sid].fd)]
            && Executed(s, [IO(|s.loop.submitted|, sid, s.open[sid].fd, Write, HandleWrite(sid))], s')
            && s'.reported == s.reported && s'.alive == s.alive && s'.start == s.start
  {
    EchoRunKeepsInv(states, steps, m);
    assert EchoNext(states[m], steps[m], states[m + 1]);
    HeadIsServable(states[m]);
    ReceivedPairs(states[m], steps[m].chunk, states[m + 1]);
  }

  /** Writing sends as much of the session's buffer as write() took, and deletes the session. */
  lemma ReplySendsPrefix(states: seq<EchoState>, steps: seq<EchoStep>, m: nat, sid: SocketId)
    requires IsEchoRun(states, steps) && m < |steps| && steps[m].Replied? && Runs(states, m, sid)
    ensures var s, s', taken := states[m], states[m + 1], steps[m].taken;
            && sid in s.open && sid in s.received && sid !in s.replied && OthersKept(s, s', sid)
            && taken <= |s.open[sid].buf|
            && sid in s'.replied && |s'.replied[sid]| == taken
            && (forall k :: 0 <= k < taken ==> s'.replied[sid][k] == s.open[sid].buf[k])
            && sid !in s'.open && sid in s'.received && s'.received[sid] == s.received[sid]
            && s'.log == s.log + [Reply(s.open[sid].fd)]
            && Executed(s, [], s')
            && s'.reported == s.reported && s'.alive == s.alive && s'.start == s.start
  {
    EchoRunKeepsInv(states, steps, m);
    assert EchoNext(states[m], steps[m], states[m + 1]);
    HeadIsServable(states[m]);
    RepliedPairs(states[m], steps[m].taken, states[m + 1]);
    assert states[m].loop.container + [] == states[m].loop.container;
  }

  // ---------- whole runs ----------

  /** What a session has read or been sent is the same in `s'`. */
  ghost predicate ExchangeKept(s: EchoState, s': EchoState, sid: SocketId) {
    && (sid in s.received ==> sid in s'.received && s'.received[sid] == s.received[sid])
    && (sid in s.replied ==> sid in s'.replied && s'.replied[sid] == s.replied[sid])
  }

  lemma StepKeepsExchange(s: EchoState, step: EchoStep, s': EchoState, sid: SocketId)
    requires EchoInv(s) && EchoNext(s, step, s')
    ensures ExchangeKept(s, s', sid)
  {
    hide Paired, DistinctFds, Isolated, Follows, Counted, AfterSubmit, AfterExecute, ReportDue;
    if step.Received? {
      ReceivedPairs(s, step.chunk, s');
    }
  }

  /** A session reads once and is answered once: what it read and what was sent back never change. */
  lemma {:induction false} OneExchangeEach(states: seq<EchoState>, steps: seq<EchoStep>, i: nat, j: nat, sid: SocketId)
    requires IsEchoRun(states, steps) && i <= j < |states|
    ensures ExchangeKept(states[i], states[j], sid)
    decreases j - i
  {
    hide EchoNext, EchoInv;
    if i < j {
      OneExchangeEach(states, steps, i, j - 1, sid);
      EchoRunKeepsInv(states, steps, j - 1);
      StepKeepsExchange(states[j - 1], steps[j - 1], states[j], sid);
    }
  }

  /** What a session is on record as having read was read at one of its steps. */
  lemma {:induction false} ChunkCameFrom(states: seq<EchoState>, steps: seq<EchoStep>, i: nat, sid: SocketId)
    returns (m: nat)
    requires IsEchoRun(states, steps) && i < |states| && sid in states[i].received
    ensures m < i && Runs(states, m, sid) && steps[m] == Received(states[i].received[sid])
  {
    m := i - 1;
    var s := states[m];
    assert EchoNext(s, steps[m], states[i]);
    if sid in s.received && (steps[m].Received? ==> s.loop.fifo[0].cb.session != sid) {
      m := ChunkCameFrom(states, steps, i - 1, sid);
    } else {
      EchoRunKeepsInv(states, steps, m);
      HeadIsServable(s);
    }
  }

  /** And what it is on record as having been sent, at another. */
  lemma {:induction false} ReplyCameFrom(states: seq<EchoState>, steps: seq<EchoStep>, i: nat, sid: SocketId)
    returns (n: nat)
    requires IsEchoRun(states, steps) && i < |states| && sid in states[i].replied
    ensures n < i && Runs(states, n, sid) && steps[n].Replied?
    ensures sid in states[n + 1].replied && states[n + 1].replied[sid] == states[i].replied[sid]
  {
    n := i - 1;
    var s := states[n];
    assert EchoNext(s, steps[n], states[i]);
    if sid in s.replied && (steps[n].Replied? ==> s.loop.fifo[0].cb.session != sid) {
      n := ReplyCameFrom(states, steps, i - 1, sid);
    } else {
      EchoRunKeepsInv(states, steps, n);
      HeadIsServable(s);
    }
  }

  /** A session reads at one step only. */
  lemma ReadOnce(states: seq<EchoState>, steps: seq<EchoStep>, m: nat, j: nat, sid: SocketId)
    requires IsEchoRun(states, steps) && m < |steps| && j < |steps|
    requires steps[m].Received? && Runs(states, m, sid) && steps[j].Received? && Runs(states, j, sid)
    ensures m == j
  {
    hide IsEchoRun;
    var a, b := if m <= j then m else j, if m <= j then j else m;
    ReadFillsBuffer(states, steps, a, sid);
    ReadFillsBuffer(states, steps, b, sid);
    if a < b {
      StatesFollow(states, steps);
      OneExchangeEach(states, steps, a + 1, b, sid);
    }
  }

  lemma StatesFollow(states: seq<EchoState>, steps: seq<EchoStep>)
    requires IsEchoRun(states, steps)
    ensures |states| == |steps| + 1
  {
  }

  /**
   * The reply of a session, sent at step `n`, is byte for byte the chunk that read() gave at the one step
   * `m` at which the session read, padded with zeros, as far as write() took it; whatever others do.
   */
  lemma PayloadIsolation(states: seq<EchoState>, steps: seq<EchoStep>, i: nat, sid: SocketId) returns (m: nat, n: nat)
    requires IsEchoRun(states, steps) && i < |states| && sid in states[i].replied
    ensures m < n < i && Runs(states, m, sid) && steps[m].Received? && Runs(states, n, sid) && steps[n].Replied?
    ensures forall j :: 0 <= j < |steps| && steps[j].Received? && Runs(states, j, sid) ==> j == m
    ensures var chunk, reply := steps[m].chunk, states[i].replied[sid];
            && |chunk| <= 20 && |reply| == steps[n].taken <= 20
            && forall k :: 0 <= k < |reply| ==> reply[k] == if k < |chunk| then chunk[k] else 0
  {
    hide IsEchoRun, Runs;
    StatesFollow(states, steps);
    n := ReplyCameFrom(states, steps, i, sid);
    ReplySendsPrefix(states, steps, n, sid);
    m := ChunkCameFrom(states, steps, n, sid);
    BufferIsChunk(states, steps, n, sid);
    forall j | 0 <= j < |steps| && steps[j].Received? && Runs(states, j, sid) ensures j == m {
      ReadOnce(states, steps, m, j, sid);
    }
  }

  lemma BufferIsChunk(states: seq<EchoState>, steps: seq<EchoStep>, i: nat, sid: SocketId)
    requires IsEchoRun(states, steps) && i < |states| && sid in states[i].open && sid in states[i].received
    ensures var chunk, buf := states[i].received[sid], states[i].open[sid].buf;
            && |chunk| <= 20 && |buf| == 20
            && forall k :: 0 <= k < 20 ==> buf[k] == if k < |chunk| then chunk[k] else 0
  {
    EchoRunKeepsInv(states, steps, i);
  }
}
