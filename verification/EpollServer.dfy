/** The hand-written epoll loop: ADD, MOD and DEL while a batch of reports is being worked off. */
module EpollServer {
  import opened Backends
  import opened Connections
  import opened Events
  import opened Interests

  /** What EPOLL_CTL_MOD does to a registered descriptor. */
  function EpollMod(kernel: EpollSet, fd: Fd, dir: Dir): EpollSet {
    if fd in kernel then kernel[fd := dir] else kernel
  }

  /** Apart from the listener, exactly the open connections are registered, each in its phase. */
  ghost predicate Represents(t: Table, kernel: EpollSet, parentFd: Fd) {
    && parentFd in kernel && kernel[parentFd] == Read && parentFd !in t
    && kernel.Keys == t.Keys + {parentFd}
    && forall fd <- t.Keys :: fd in kernel && t[fd] == PhaseOf(kernel[fd])
  }

  function Other(d: Dir): Dir {
    if d == Read then Write else Read
  }

  /** The reported descriptor is open and registered, and registered for what was reported. */
  ghost predicate Meant(e: EpollEvent, kernel: EpollSet) {
    e.fd in kernel && Bit(Other(kernel[e.fd])) !in e.events
  }

  /** A batch as epoll_wait returns it for `kernel`: each descriptor once, each report meaningful. */
  ghost predicate Batch(events: seq<EpollEvent>, kernel: EpollSet) {
    && (forall k :: 0 <= k < |events| ==> Meant(events[k], kernel))
    && (forall i, j :: 0 <= i < j < |events| ==> events[i].fd != events[j].fd)
  }

  lemma ReportsAreBatch(kernel: EpollSet, a: Answer)
    requires a.Reports? && EpollMayReport(kernel, a)
    ensures Batch(EpollReports(kernel, a), kernel)
  {
    var events := EpollReports(kernel, a);
    forall k | 0 <= k < |events| ensures Meant(events[k], kernel) {
      assert a.batch[k] in a.batch;
    }
  }

  /** The report makes the loop call accept(). */
  predicate Accepts(e: EpollEvent, parentFd: Fd) {
    e.events == {IN} && e.fd == parentFd
  }

  /** What handling a report does to connections; `child` is what accept() returns, if called. */
  function Handled(e: EpollEvent, parentFd: Fd, child: Fd): seq<Action> {
    if e.events == {IN} then [if e.fd == parentFd then Accept(child) else Receive(e.fd)]
    else if e.events == {OUT} then [Reply(e.fd)]
    else []
  }

  /** What it does to the epoll set. */
  function Rearmed(kernel: EpollSet, e: EpollEvent, parentFd: Fd, child: Fd): EpollSet {
    if e.events == {IN} then
      if e.fd == parentFd then EpollAdd(kernel, Interest(child, Read)) else EpollMod(kernel, e.fd, Write)
    else if e.events == {OUT} then kernel - {e.fd}
    else kernel
  }

  function HandledAll(events: seq<EpollEvent>, parentFd: Fd, child: Fd): seq<Action> {
    if events == [] then [] else
    HandledAll(events[..|events| - 1], parentFd, child) + Handled(events[|events| - 1], parentFd, child)
  }

  function RearmedAll(kernel: EpollSet, events: seq<EpollEvent>, parentFd: Fd, child: Fd): EpollSet
    decreases |events|
  {
    if events == [] then kernel else
    Rearmed(RearmedAll(kernel, events[..|events| - 1], parentFd, child), events[|events| - 1], parentFd, child)
  }

  /** accept() is only ever called while `child` is not open. */
  ghost predicate ChildIsFree(kernel: EpollSet, events: seq<EpollEvent>, parentFd: Fd, child: Fd) {
    forall k :: 0 <= k < |events| && Accepts(events[k], parentFd) ==>
      child !in RearmedAll(kernel, events[..k], parentFd, child)
  }

  /**
   * After any part of a batch, every report not yet handled still names an open descriptor
   * registered as it was when reported, even if accept() has reused a number closed in the batch.
   */
  lemma {:induction false} RestStaysMeant(
      kernel: EpollSet, events: seq<EpollEvent>, parentFd: Fd, child: Fd, n: nat, k: nat)
    requires Batch(events, kernel) && n <= k < |events|
    requires ChildIsFree(kernel, events, parentFd, child)
    ensures var now := RearmedAll(kernel, events[..n], parentFd, child);
            events[k].fd in now && now[events[k].fd] == kernel[events[k].fd]
    ensures Meant(events[k], RearmedAll(kernel, events[..n], parentFd, child))
    decreases n
  {
    assert Meant(events[k], kernel);
    if n > 0 {
      RestStaysMeant(kernel, events, parentFd, child, n - 1, k);
      assert events[..n][..n - 1] == events[..n - 1];
      assert events[n - 1].fd != events[k].fd;
      if Accepts(events[n - 1], parentFd) {
        assert child !in RearmedAll(kernel, events[..n - 1], parentFd, child);
      }
    }
  }

  lemma NoneHandled(kernel: EpollSet, events: seq<EpollEvent>, parentFd: Fd, child: Fd)
    ensures HandledAll(events[..0], parentFd, child) == [] && RearmedAll(kernel, events[..0], parentFd, child) == kernel
  {
  }

  lemma OneMore(kernel: EpollSet, events: seq<EpollEvent>, parentFd: Fd, child: Fd, i: nat)
    requires i < |events|
    ensures HandledAll(events[..i + 1], parentFd, child) ==
            HandledAll(events[..i], parentFd, child) + Handled(events[i], parentFd, child)
    ensures RearmedAll(kernel, events[..i + 1], parentFd, child) ==
            Rearmed(RearmedAll(kernel, events[..i], parentFd, child), events[i], parentFd, child)
  {
    assert events[..i + 1][..i] == events[..i];
  }

  lemma FreeNow(kernel: EpollSet, events: seq<EpollEvent>, parentFd: Fd, child: Fd, i: nat)
    requires i < |events| && ChildIsFree(kernel, events, parentFd, child) && Accepts(events[i], parentFd)
    ensures child !in RearmedAll(kernel, events[..i], parentFd, child)
  {
  }

  // ---------- what a batch comes to ----------

  /** An action belongs to the report it answers. */
  lemma {:induction false} HandledComesFrom(events: seq<EpollEvent>, parentFd: Fd, child: Fd, n: nat)
    requires n <= |events|
    ensures forall k, a :: 0 <= k < n && a in Handled(events[k], parentFd, child) ==>
              a in HandledAll(events[..n], parentFd, child)
    ensures forall a <- HandledAll(events[..n], parentFd, child) ::
              exists k :: 0 <= k < n && a in Handled(events[k], parentFd, child)
  {
    hide Handled;
    if n > 0 {
      HandledComesFrom(events, parentFd, child, n - 1);
      OneMore(map[], events, parentFd, child, n - 1);
      forall a | a in HandledAll(events[..n], parentFd, child)
        ensures exists k :: 0 <= k < n && a in Handled(events[k], parentFd, child)
      {
        if a in HandledAll(events[..n - 1], parentFd, child) {
          var k :| 0 <= k < n - 1 && a in Handled(events[k], parentFd, child);
          assert 0 <= k < n;
        } else {
          assert 0 <= n - 1 < n;
        }
      }
    }
  }

  /** A registered descriptor for which nothing is done stays registered as it was. */
  lemma {:induction false} LeftAlone(
      kernel: EpollSet, events: seq<EpollEvent>, parentFd: Fd, child: Fd, n: nat, fd: Fd)
    requires n <= |events| && ChildIsFree(kernel, events, parentFd, child) && fd in kernel
    requires forall k :: 0 <= k < n && events[k].fd == fd ==>
               Handled(events[k], parentFd, child) == [] || Accepts(events[k], parentFd)
    ensures var now := RearmedAll(kernel, events[..n], parentFd, child); fd in now && now[fd] == kernel[fd]
    ensures forall a <- HandledAll(events[..n], parentFd, child) :: a.fd != fd
  {
    if n > 0 {
      LeftAlone(kernel, events, parentFd, child, n - 1, fd);
      OneMore(kernel, events, parentFd, child, n - 1);
      if Accepts(events[n - 1], parentFd) {
        FreeNow(kernel, events, parentFd, child, n - 1);
      }
    }
  }

  /** What the report at `p` has come to once `n` reports are handled. */
  lemma {:induction false} WorkedOff(
      kernel: EpollSet, events: seq<EpollEvent>, parentFd: Fd, child: Fd, p: nat, n: nat)
    requires p < n <= |events| && Batch(events, kernel) && ChildIsFree(kernel, events, parentFd, child)
    ensures var e, now := events[p], RearmedAll(kernel, events[..n], parentFd, child);
            && (Accepts(e, parentFd) ==> child in now && now[child] == Read)
            && (e.events == {IN} && e.fd != parentFd ==> e.fd in now && now[e.fd] == Write)
            && (e.events == {OUT} && e.fd in now ==>
                  e.fd == child && Accept(child) in HandledAll(events[..n], parentFd, child))
  {
    hide Batch, ChildIsFree, Meant, HandledAll, RearmedAll;
    OneMore(kernel, events, parentFd, child, n - 1);
    OpenThroughout(kernel, events, parentFd, child, n - 1, n - 1);
    if p < n - 1 {
      WorkedOff(kernel, events, parentFd, child, p, n - 1);
      OpenThroughout(kernel, events, parentFd, child, p, n - 1);
      ReportedOnce(kernel, events, p, n - 1);
    }
  }

  lemma ReportedOnce(kernel: EpollSet, events: seq<EpollEvent>, i: nat, j: nat)
    requires Batch(events, kernel) && i < j < |events|
    ensures events[i].fd != events[j].fd
  {
  }

  /** Before the report at `k` is handled its descriptor is registered, and the one accepted by then is another. */
  lemma OpenThroughout(kernel: EpollSet, events: seq<EpollEvent>, parentFd: Fd, child: Fd, n: nat, k: nat)
    requires n <= k < |events| && Batch(events, kernel) && ChildIsFree(kernel, events, parentFd, child)
    ensures events[k].fd in RearmedAll(kernel, events[..n], parentFd, child)
    ensures Accepts(events[n], parentFd) ==>
              child !in RearmedAll(kernel, events[..n], parentFd, child) && events[k].fd != child
  {
    RestStaysMeant(kernel, events, parentFd, child, n, k);
    if Accepts(events[n], parentFd) {
      FreeNow(kernel, events, parentFd, child, n);
    }
  }

  /** A report that carries no fault carries exactly the registered bit; one that does is ignored. */
  lemma ReportedBits(kernel: EpollSet, a: Answer, k: nat)
    requires a.Reports? && EpollMayReport(kernel, a) && k < |a.batch|
    ensures var e := EpollReports(kernel, a)[k];
            && e.fd == a.batch[k] && e.fd in kernel
            && (e.fd !in a.faults ==> e.events == {Bit(kernel[e.fd])})
            && (e.fd in a.faults ==> e.events != {IN} && e.events != {OUT})
  {
    assert a.batch[k] in a.batch;
  }

  /** What a batch has done and left for the connection on `fd`, told from the answer. */
  ghost predicate DealtWith(kernel: EpollSet, a: Answer, child: Fd, acts: seq<Action>, after: EpollSet, fd: Fd)
    requires a.Reports? && fd in kernel
  {
    if fd !in a.batch || fd in a.faults then
      (forall x <- acts :: x.fd != fd) && fd in after && after[fd] == kernel[fd]
    else if kernel[fd] == Read then
      Receive(fd) in acts && fd in after && after[fd] == Write
    else
      Reply(fd) in acts && (fd in after ==> fd == child && Accept(child) in acts && after[fd] == Read)
  }

  lemma Dealt(kernel: EpollSet, a: Answer, parentFd: Fd, child: Fd, fd: Fd)
    requires a.Reports? && EpollMayReport(kernel, a) && fd in kernel && fd != parentFd
    requires ChildIsFree(kernel, EpollReports(kernel, a), parentFd, child)
    ensures var events := EpollReports(kernel, a);
            DealtWith(kernel, a, child, HandledAll(events, parentFd, child),
                      RearmedAll(kernel, events, parentFd, child), fd)
  {
    hide EpollReports, HandledAll, RearmedAll, ChildIsFree, Batch;
    var events := EpollReports(kernel, a);
    ReportsAreBatch(kernel, a);
    ReportCount(kernel, a);
    var n := |events|;
    assert events[..n] == events;
    forall k | 0 <= k < n ensures events[k].fd == a.batch[k] {
      ReportedBits(kernel, a, k);
    }
    if fd in a.batch && fd !in a.faults {
      var p :| 0 <= p < n && a.batch[p] == fd;
      ReportedBits(kernel, a, p);
      WorkedOff(kernel, events, parentFd, child, p, n);
      HandledComesFrom(events, parentFd, child, n);
      var act := if kernel[fd] == Read then Receive(fd) else Reply(fd);
      assert act in Handled(events[p], parentFd, child);
      if kernel[fd] == Write && fd in RearmedAll(kernel, events, parentFd, child) {
        ReopenedReads(kernel, events, parentFd, child);
      }
    } else {
      forall k | 0 <= k < n && events[k].fd == fd ensures Handled(events[k], parentFd, child) == [] {
        ReportedBits(kernel, a, k);
      }
      LeftAlone(kernel, events, parentFd, child, n, fd);
    }
  }

  lemma ReportCount(kernel: EpollSet, a: Answer)
    requires a.Reports? && EpollMayReport(kernel, a)
    ensures |EpollReports(kernel, a)| == |a.batch|
  {
  }

  /** An accepted connection is registered for reading when the batch is over. */
  lemma ReopenedReads(kernel: EpollSet, events: seq<EpollEvent>, parentFd: Fd, child: Fd)
    requires Batch(events, kernel) && ChildIsFree(kernel, events, parentFd, child)
    requires Accept(child) in HandledAll(events, parentFd, child)
    ensures var now := RearmedAll(kernel, events, parentFd, child); child in now && now[child] == Read
  {
    hide Batch, ChildIsFree, HandledAll, RearmedAll;
    var n := |events|;
    assert events[..n] == events;
    HandledComesFrom(events, parentFd, child, n);
    var k :| 0 <= k < n && Accept(child) in Handled(events[k], parentFd, child);
    WorkedOff(kernel, events, parentFd, child, k, n);
  }

  /** What a batch has done and left altogether. */
  lemma PassMeans(kernel: EpollSet, a: Answer, parentFd: Fd, child: Fd)
    requires a.Reports? && EpollMayReport(kernel, a) && parentFd in kernel && kernel[parentFd] == Read
    requires ChildIsFree(kernel, EpollReports(kernel, a), parentFd, child)
    ensures var events := EpollReports(kernel, a);
            var acts, after := HandledAll(events, parentFd, child), RearmedAll(kernel, events, parentFd, child);
            && (forall fd <- kernel.Keys :: fd != parentFd ==> DealtWith(kernel, a, child, acts, after, fd))
            && (Accept(child) in acts <==> parentFd in a.batch && parentFd !in a.faults)
            && (Accept(child) in acts ==> child in after && after[child] == Read)
            && (forall x <- acts :: x == Accept(child) || (x.fd in kernel && x.fd != parentFd))
  {
    hide EpollReports, HandledAll, RearmedAll, ChildIsFree, Batch, DealtWith;
    var events := EpollReports(kernel, a);
    var acts := HandledAll(events, parentFd, child);
    forall fd | fd in kernel.Keys && fd != parentFd
      ensures DealtWith(kernel, a, child, acts, RearmedAll(kernel, events, parentFd, child), fd)
    {
      Dealt(kernel, a, parentFd, child, fd);
    }
    ReportsAreBatch(kernel, a);
    ReportCount(kernel, a);
    assert events[..|events|] == events;
    HandledComesFrom(events, parentFd, child, |events|);
    forall k | 0 <= k < |events|
      ensures && events[k].fd == a.batch[k] && events[k].fd in kernel
              && (Accepts(events[k], parentFd) <==> a.batch[k] == parentFd && parentFd !in a.faults)
    {
      ReportedBits(kernel, a, k);
    }
    if parentFd in a.batch && parentFd !in a.faults {
      var k :| 0 <= k < |a.batch| && a.batch[k] == parentFd;
      assert Accept(child) in Handled(events[k], parentFd, child);
    }
    if Accept(child) in acts {
      ReopenedReads(kernel, events, parentFd, child);
      var k :| 0 <= k < |events| && Accept(child) in Handled(events[k], parentFd, child);
      assert Accepts(events[k], parentFd);
    }
    forall x | x in acts ensures x == Accept(child) || (x.fd in kernel && x.fd != parentFd) {
      var k :| 0 <= k < |events| && x in Handled(events[k], parentFd, child);
      if events[k].fd == parentFd {
        ReportedBits(kernel, a, k);
      }
    }
  }

  lemma ListenerIsRegistered(t: Table, kernel: EpollSet, parentFd: Fd)
    requires Represents(t, kernel, parentFd)
    ensures parentFd in kernel && kernel[parentFd] == Read
  {
  }

  class Server {
    const parentFd: Fd
    /** The state behind epoll_fd. */
    var kernel: EpollSet
    /** Everything done on connections so far. */
    ghost var log: seq<Action>

    ghost predicate Valid()
      reads this
    {
      Legal(map[], log) && Represents(AfterAll(map[], log), kernel, parentFd)
    }

    constructor (parentFd: Fd)
      ensures Valid() && log == [] && this.parentFd == parentFd
    {
      this.parentFd := parentFd;
      kernel, log := map[parentFd := Read], [];
    }

    /** The body of the batch loop, for a report that still means what it said. */
    method Handle(e: EpollEvent, child: Fd)
      requires Valid() && Meant(e, kernel) && (Accepts(e, parentFd) ==> child !in kernel)
      modifies this
      ensures Valid() && log == old(log) + Handled(e, parentFd, child)
      ensures kernel == Rearmed(old(kernel), e, parentFd, child)
    {
      hide Legal, AfterAll;
      if e.events == {IN} {
        if e.fd == parentFd {
          LegalStep(map[], log, Accept(child));
          kernel := EpollAdd(kernel, Interest(child, Read));
          log := log + [Accept(child)];
        } else {
          LegalStep(map[], log, Receive(e.fd));
          kernel := EpollMod(kernel, e.fd, Write);
          log := log + [Receive(e.fd)];
        }
      } else if e.events == {OUT} {
        LegalStep(map[], log, Reply(e.fd));
        kernel := kernel - {e.fd};
        log := log + [Reply(e.fd)];
      }
    }

    /**
     * One pass of the main loop. accept() is called at most once, since the listener is reported at
     * most once; `child` is what it returns: any descriptor that is not open at that moment, possibly
     * one closed earlier in the same batch. The pass performs the actions the batch announced.
     */
    method Pass(a: Answer, child: Fd) returns (ghost acts: seq<Action>)
      requires Valid() && a.Reports? && EpollMayReport(kernel, a)
      requires ChildIsFree(kernel, EpollReports(kernel, a), parentFd, child)
      modifies this
      ensures Valid()
      ensures log == old(log) + acts && acts == HandledAll(EpollReports(old(kernel), a), parentFd, child)
      ensures kernel == RearmedAll(old(kernel), EpollReports(old(kernel), a), parentFd, child)
      ensures forall fd <- old(kernel).Keys :: fd != parentFd ==>
                if fd !in a.batch || fd in a.faults then
                  (forall x <- acts :: x.fd != fd) && fd in kernel && kernel[fd] == old(kernel)[fd]
                else if old(kernel)[fd] == Read then
                  Receive(fd) in acts && fd in kernel && kernel[fd] == Write
                else
                  Reply(fd) in acts && (fd in kernel ==> fd == child && Accept(child) in acts && kernel[fd] == Read)
      ensures Accept(child) in acts <==> parentFd in a.batch && parentFd !in a.faults
      ensures Accept(child) in acts ==> child in kernel && kernel[child] == Read
      ensures forall x <- acts :: x == Accept(child) || (x.fd in old(kernel) && x.fd != parentFd)
    {
      hide Represents, Legal, Rearmed, Handled, Meant, AfterAll, HandledAll, RearmedAll;
      hide EpollReports, Batch, ChildIsFree;
      var events := EpollReports(kernel, a);
      ListenerIsRegistered(AfterAll(map[], log), kernel, parentFd);
      ReportsAreBatch(kernel, a);
      NoneHandled(kernel, events, parentFd, child);
      var i := 0;
      while i < |events|
        invariant 0 <= i <= |events| && Valid()
        invariant log == old(log) + HandledAll(events[..i], parentFd, child)
        invariant kernel == RearmedAll(old(kernel), events[..i], parentFd, child)
      {
        RestStaysMeant(old(kernel), events, parentFd, child, i, i);
        OneMore(old(kernel), events, parentFd, child, i);
        if Accepts(events[i], parentFd) {
          FreeNow(old(kernel), events, parentFd, child, i);
        }
        Handle(events[i], child);
        i := i + 1;
      }
      assert events[..i] == events;
      acts := HandledAll(events, parentFd, child);
      PassMeans(old(kernel), a, parentFd, child);
    }
  }
}
