/** The three readiness back ends, each with its own representation of the one-shot interest set. */
module Backends {
  import opened Events
  import opened Interests

  /** The number of bits in an fd_set. */
  const FD_SETSIZE: nat := 1024

  /** The capacity of Epoller's report buffer. */
  const EVENTS_SIZE: nat := 100_000

  // ---------- select ----------

  /** What select() leaves of a bitmap: the set bits below `nfds` whose condition is true. */
  function SelectBits(bits: seq<bool>, nfds: nat, dir: Dir, ready: set<Interest>): seq<bool> {
    seq(|bits|, fd requires 0 <= fd < |bits| => fd < nfds && bits[fd] && Interest(fd, dir) in ready)
  }

  /** std::remove_if over the tracking list followed by erase. */
  function Unreported(tracking: seq<Interest>, result: set<Interest>): seq<Interest> {
    if tracking == [] then [] else
    var rest := Unreported(tracking[..|tracking| - 1], result);
    if tracking[|tracking| - 1] in result then rest else rest + [tracking[|tracking| - 1]]
  }

  lemma {:induction false} UnreportedKeeps(tracking: seq<Interest>, result: set<Interest>)
    ensures forall i :: i in Unreported(tracking, result) <==> i in tracking && i !in result
  {
    if tracking != [] {
      UnreportedKeeps(tracking[..|tracking| - 1], result);
      assert tracking == tracking[..|tracking| - 1] + [tracking[|tracking| - 1]];
    }
  }

  class Selector {
    var masterReadFds: seq<bool>
    var masterWriteFds: seq<bool>
    var tracking: seq<Interest>
    var maxDescriptor: nat

    /** A bit is set iff its pair is tracked, and the select range covers every tracked descriptor. */
    ghost predicate Valid()
      reads this
    {
      && |masterReadFds| == |masterWriteFds| == FD_SETSIZE
      && maxDescriptor < FD_SETSIZE
      && (forall i <- tracking :: 0 <= i.fd <= maxDescriptor)
      && (forall fd :: 0 <= fd < FD_SETSIZE ==> (masterReadFds[fd] <==> Interest(fd, Read) in tracking))
      && (forall fd :: 0 <= fd < FD_SETSIZE ==> (masterWriteFds[fd] <==> Interest(fd, Write) in tracking))
    }

    ghost function Interests(): set<Interest>
      reads this
    {
      set i <- tracking
    }

    constructor ()
      ensures Valid() && Interests() == {}
    {
      masterReadFds := seq(FD_SETSIZE, _ => false);
      masterWriteFds := seq(FD_SETSIZE, _ => false);
      tracking, maxDescriptor := [], 0;
    }

    method RegisterReadFd(fd: Fd)
      requires Valid() && 0 <= fd < FD_SETSIZE
      modifies this
      ensures Valid() && tracking == old(tracking) + [Interest(fd, Read)]
      ensures Interests() == old(Interests()) + {Interest(fd, Read)}
    {
      if fd > maxDescriptor {
        maxDescriptor := fd;
      }
      tracking := tracking + [Interest(fd, Read)];
      masterReadFds := masterReadFds[fd := true];
    }

    method RegisterWriteFd(fd: Fd)
      requires Valid() && 0 <= fd < FD_SETSIZE
      modifies this
      ensures Valid() && tracking == old(tracking) + [Interest(fd, Write)]
      ensures Interests() == old(Interests()) + {Interest(fd, Write)}
    {
      if fd > maxDescriptor {
        maxDescriptor := fd;
      }
      tracking := tracking + [Interest(fd, Write)];
      masterWriteFds := masterWriteFds[fd := true];
    }

    method ExtractAll(a: Answer) returns (r: Outcome)
      requires Valid()
      modifies this
      ensures Valid()
      ensures a.Failed? ==> r.Thrown? && unchanged(this)
      ensures a.Reports? ==>
                && r == Extracted(old(Interests()) * a.ready)
                && Interests() == old(Interests()) - a.ready
                && tracking == Unreported(old(tracking), r.result)
    {
      if a.Failed? {
        return Thrown;
      }
      var readsAlive := SelectBits(masterReadFds, maxDescriptor + 1, Read, a.ready);
      var writesAlive := SelectBits(masterWriteFds, maxDescriptor + 1, Write, a.ready);
      var result: set<Interest> := {};
      var i := 0;
      while i < |tracking|
        invariant 0 <= i <= |tracking| && tracking == old(tracking)
        invariant maxDescriptor == old(maxDescriptor)
        invariant |masterReadFds| == |masterWriteFds| == FD_SETSIZE
        invariant result == set t <- tracking[..i] | t in a.ready
        invariant forall fd :: 0 <= fd < FD_SETSIZE ==>
                    (masterReadFds[fd] <==> Interest(fd, Read) in tracking && Interest(fd, Read) !in result)
        invariant forall fd :: 0 <= fd < FD_SETSIZE ==>
                    (masterWriteFds[fd] <==> Interest(fd, Write) in tracking && Interest(fd, Write) !in result)
      {
        var t := tracking[i];
        assert t in old(tracking);
        assert tracking[..i + 1] == tracking[..i] + [t];
        if t.dir == Read && readsAlive[t.fd] {
          result := result + {t};
          masterReadFds := masterReadFds[t.fd := false];
        } else if t.dir == Write && writesAlive[t.fd] {
          result := result + {t};
          masterWriteFds := masterWriteFds[t.fd := false];
        }
        i := i + 1;
      }
      assert tracking[..i] == tracking;
      UnreportedKeeps(tracking, result);
      tracking := Unreported(tracking, result);
      r := Extracted(result);
    }
  }

  // ---------- poll ----------

  datatype PollFd = PollFd(fd: Fd, events: Dir, revents: set<Flag>)

  function WantedBy(tracking: seq<PollFd>): set<Interest> {
    set p <- tracking :: Interest(p.fd, p.events)
  }

  lemma WantedByAppended(tracking: seq<PollFd>, p: PollFd)
    ensures WantedBy(tracking + [p]) == WantedBy(tracking) + {Interest(p.fd, p.events)}
  {
    assert forall x :: x in tracking + [p] <==> x in tracking || x == p;
    assert p in tracking + [p];
  }

  /** The bits poll() returns for an entry: the requested one if its condition is true, and faults. */
  function Revents(p: PollFd, ready: set<Interest>, faults: set<Fd>): set<Flag> {
    (if Interest(p.fd, p.events) in ready then {Bit(p.events)} else {}) +
    (if p.fd in faults then {FAULT} else {})
  }

  function Polled(tracking: seq<PollFd>, ready: set<Interest>, faults: set<Fd>): seq<PollFd> {
    seq(|tracking|, i requires 0 <= i < |tracking| =>
      tracking[i].(revents := Revents(tracking[i], ready, faults)))
  }

  lemma PolledInterests(tracking: seq<PollFd>, ready: set<Interest>, faults: set<Fd>)
    ensures WantedBy(Polled(tracking, ready, faults)) == WantedBy(tracking)
  {
    var polled := Polled(tracking, ready, faults);
    forall p | p in tracking ensures Interest(p.fd, p.events) in WantedBy(polled) {
      var k :| 0 <= k < |tracking| && tracking[k] == p;
      assert polled[k] in polled;
    }
    forall p | p in polled ensures Interest(p.fd, p.events) in WantedBy(tracking) {
      var k :| 0 <= k < |polled| && polled[k] == p;
      assert tracking[k] in tracking;
    }
  }

  /** Poller erases by descriptor: one direction reported drops every entry of that descriptor. */
  function Unanswered(tracking: seq<PollFd>, result: set<Interest>): seq<PollFd> {
    if tracking == [] then [] else
    var rest := Unanswered(tracking[..|tracking| - 1], result);
    var e := tracking[|tracking| - 1];
    if Interest(e.fd, Read) in result || Interest(e.fd, Write) in result then rest else rest + [e]
  }

  lemma {:induction false} UnansweredKeeps(tracking: seq<PollFd>, result: set<Interest>)
    ensures forall e :: e in Unanswered(tracking, result) <==>
              e in tracking && Interest(e.fd, Read) !in result && Interest(e.fd, Write) !in result
  {
    if tracking != [] {
      UnansweredKeeps(tracking[..|tracking| - 1], result);
      assert tracking == tracking[..|tracking| - 1] + [tracking[|tracking| - 1]];
    }
  }

  /** What Poller still wants after reporting the ready part of `s`. */
  function PollerRemaining(s: set<Interest>, ready: set<Interest>): set<Interest> {
    set i <- s | i !in ready && !(Opposite(i) in s && Opposite(i) in ready)
  }

  lemma PollerKeepsUntouched(s: set<Interest>, ready: set<Interest>)
    ensures forall i :: i in PollerRemaining(s, ready) <==> i in s && i !in s * ready && Opposite(i) !in s * ready
  {
  }

  /** Poller forgets only what it reports iff it reports no single direction of a descriptor wanted both ways. */
  lemma PollerForgetsOnlyReportedIff(s: set<Interest>, ready: set<Interest>)
    ensures PollerRemaining(s, ready) == s - ready <==>
            forall i <- s :: Opposite(i) in s && Opposite(i) in ready ==> i in ready
  {
    if i :| i in s && Opposite(i) in s && Opposite(i) in ready && i !in ready {
      assert i in s - ready && i !in PollerRemaining(s, ready);
    } else {
      assert forall i :: i in PollerRemaining(s, ready) <==> i in s && i !in ready;
    }
  }

  /** Whatever is ready, Poller forgets only what it reports iff no descriptor is wanted both ways. */
  lemma PollerIsExactIffOneDirection(s: set<Interest>)
    ensures (forall ready :: PollerRemaining(s, ready) == s - ready) <==> OneDirection(s)
  {
    if OneDirection(s) {
      forall ready ensures PollerRemaining(s, ready) == s - ready {
      }
    } else {
      var i :| i in s && Opposite(i) in s;
      PollerForgetsOnlyReportedIff(s, {Opposite(i)});
      assert Opposite(i) in {Opposite(i)} && i !in {Opposite(i)};
    }
  }

  /** Polling and then erasing what was reported, in terms of the interests. */
  lemma PollerLeaves(tracking: seq<PollFd>, ready: set<Interest>, faults: set<Fd>)
    ensures var s := WantedBy(tracking);
            WantedBy(Unanswered(Polled(tracking, ready, faults), s * ready)) == PollerRemaining(s, ready)
  {
    PolledInterests(tracking, ready, faults);
    var polled, s := Polled(tracking, ready, faults), WantedBy(tracking);
    UnansweredKeeps(polled, s * ready);
    assert forall e :: e in Unanswered(polled, s * ready) ==> Interest(e.fd, e.events) in WantedBy(polled);
    forall i | i in PollerRemaining(s, ready) ensures i in WantedBy(Unanswered(polled, s * ready)) {
      var e :| e in polled && Interest(e.fd, e.events) == i;
      assert e in Unanswered(polled, s * ready);
    }
  }

  lemma NothingWanted()
    ensures WantedBy([]) == {}
  {
  }

  class Poller {
    var tracking: seq<PollFd>

    ghost function Interests(): set<Interest>
      reads this
    {
      WantedBy(tracking)
    }

    constructor ()
      ensures Interests() == {}
    {
      tracking := [];
    }

    method RegisterReadFd(fd: Fd)
      modifies this
      ensures Interests() == old(Interests()) + {Interest(fd, Read)}
    {
      tracking := tracking + [PollFd(fd, Read, {})];
    }

    method RegisterWriteFd(fd: Fd)
      modifies this
      ensures Interests() == old(Interests()) + {Interest(fd, Write)}
    {
      tracking := tracking + [PollFd(fd, Write, {})];
    }

    method ExtractAll(a: Answer) returns (r: Outcome)
      modifies this
      ensures a.Failed? ==> r.Thrown? && unchanged(this)
      ensures a.Reports? ==>
                && r == Extracted(old(Interests()) * a.ready)
                && Interests() == PollerRemaining(old(Interests()), a.ready)
    {
      hide PollerRemaining, Unanswered, WantedBy;
      if a.Failed? {
        return Thrown;
      }
      NothingWanted();
      tracking := Polled(tracking, a.ready, a.faults);
      var result: set<Interest> := {};
      var i := 0;
      while i < |tracking|
        invariant 0 <= i <= |tracking| && tracking == Polled(old(tracking), a.ready, a.faults)
        invariant result == WantedBy(old(tracking)[..i]) * a.ready
      {
        var was := old(tracking)[i];
        assert old(tracking)[..i + 1] == old(tracking)[..i] + [was];
        WantedByAppended(old(tracking)[..i], was);
        if IN in tracking[i].revents {
          assert was.events == Read;
          result := result + {Interest(tracking[i].fd, Read)};
        } else if OUT in tracking[i].revents {
          assert was.events == Write;
          result := result + {Interest(tracking[i].fd, Write)};
        }
        i := i + 1;
      }
      assert old(tracking)[..i] == old(tracking);
      PollerLeaves(old(tracking), a.ready, a.faults);
      tracking := Unanswered(tracking, result);
      r := Extracted(result);
    }
  }

  // ---------- epoll ----------

  datatype EpollEvent = EpollEvent(fd: Fd, events: set<Flag>)

  /** The kernel-side set of an epoll instance: one direction for each registered descriptor. */
  type EpollSet = map<Fd, Dir>

  function Reportable(kernel: EpollSet, ready: set<Interest>, faults: set<Fd>): set<Fd> {
    set fd <- kernel.Keys | Interest(fd, kernel[fd]) in ready || fd in faults
  }

  /** What epoll_wait may choose: reportable descriptors, each once, all of them if they fit. */
  predicate EpollMayReport(kernel: EpollSet, a: Answer) {
    a.Reports? ==>
      var all := Reportable(kernel, a.ready, a.faults);
      && (forall fd <- a.batch :: fd in all)
      && (forall i, j :: 0 <= i < j < |a.batch| ==> a.batch[i] != a.batch[j])
      && |a.batch| <= EVENTS_SIZE
      && (|all| <= EVENTS_SIZE ==> forall fd <- all :: fd in a.batch)
  }

  /** The buffer epoll_wait fills. */
  function EpollReports(kernel: EpollSet, a: Answer): seq<EpollEvent>
    requires a.Reports? && forall fd <- a.batch :: fd in kernel
  {
    seq(|a.batch|, i requires 0 <= i < |a.batch| => var fd := a.batch[i]; EpollEvent(fd,
      (if Interest(fd, kernel[fd]) in a.ready then {Bit(kernel[fd])} else {}) +
      (if fd in a.faults then {FAULT} else {})))
  }

  function EpollInterests(kernel: EpollSet): (s: set<Interest>)
    ensures forall i :: i in s <==> i.fd in kernel && kernel[i.fd] == i.dir
  {
    set fd <- kernel.Keys :: Interest(fd, kernel[fd])
  }

  /** EPOLL_CTL_ADD: fails, and changes nothing, when the descriptor is already registered. */
  function EpollAdd(kernel: EpollSet, i: Interest): EpollSet {
    if i.fd in kernel then kernel else kernel[i.fd := i.dir]
  }

  /** Registering with Epoller takes effect iff the descriptor is not wanted the other way. */
  lemma EpollAddTakesEffectIff(kernel: EpollSet, i: Interest)
    ensures EpollInterests(EpollAdd(kernel, i)) == EpollInterests(kernel) + {i} <==>
            Opposite(i) !in EpollInterests(kernel)
  {
    if i.fd in kernel {
      assert Interest(i.fd, kernel[i.fd]) in EpollInterests(kernel);
      assert kernel[i.fd] == i.dir || kernel[i.fd] == Opposite(i).dir;
    }
  }

  /** What one pass over the reports hands out, and what it leaves registered. */
  function EpollHandedOut(kernel: EpollSet, a: Answer): set<Interest>
    requires a.Reports?
  {
    set fd <- a.batch | fd in kernel && Interest(fd, kernel[fd]) in a.ready && fd !in a.faults ::
      Interest(fd, kernel[fd])
  }

  function EpollLeft(kernel: EpollSet, a: Answer): EpollSet
    requires a.Reports?
  {
    kernel - set fd <- a.batch
  }

  /** What handling one more report changes. */
  lemma EpollOneMore(kernel: EpollSet, a: Answer, i: nat)
    requires a.Reports? && i < |a.batch| && a.batch[i] in kernel
    ensures var fd, before, after := a.batch[i], a.(batch := a.batch[..i]), a.(batch := a.batch[..i + 1]);
            && EpollLeft(kernel, after) == EpollLeft(kernel, before) - {fd}
            && EpollHandedOut(kernel, after) ==
               EpollHandedOut(kernel, before) +
               if Interest(fd, kernel[fd]) in a.ready && fd !in a.faults then {Interest(fd, kernel[fd])} else {}
  {
    assert a.batch[..i + 1] == a.batch[..i] + [a.batch[i]];
  }

  /** Epoller drops an interest unreported iff a reported descriptor carries an extra bit. */
  lemma EpollForgetsOnlyReportedIff(kernel: EpollSet, a: Answer)
    requires a.Reports? && EpollMayReport(kernel, a)
    ensures EpollInterests(EpollLeft(kernel, a)) == EpollInterests(kernel) - EpollHandedOut(kernel, a) <==>
            forall fd <- a.batch :: fd !in a.faults
  {
    var left, out := EpollLeft(kernel, a), EpollHandedOut(kernel, a);
    if fd :| fd in a.batch && fd in a.faults {
      assert Interest(fd, kernel[fd]) in EpollInterests(kernel);
      assert Interest(fd, kernel[fd]) !in out;
      assert Interest(fd, kernel[fd]) !in EpollInterests(left);
    } else {
      assert forall i :: i in EpollInterests(left) <==> i in EpollInterests(kernel) && i !in out;
    }
  }

  lemma EpollHandsOut(kernel: EpollSet, a: Answer)
    requires a.Reports?
    ensures EpollHandedOut(kernel, a) ==
            set i <- EpollInterests(kernel) | i in a.ready && i.fd in a.batch && i.fd !in a.faults
  {
    forall i <- EpollInterests(kernel) | i in a.ready && i.fd in a.batch && i.fd !in a.faults
      ensures i in EpollHandedOut(kernel, a)
    {
      assert i == Interest(i.fd, kernel[i.fd]);
    }
  }

  /** When everything fits and nothing is in fault, a pass hands out exactly the ready interests. */
  lemma EpollHandsOutReady(kernel: EpollSet, a: Answer)
    requires a.Reports? && EpollMayReport(kernel, a) && Clean(EpollInterests(kernel), a)
    ensures EpollHandedOut(kernel, a) <= EpollInterests(kernel) * a.ready
    ensures |kernel| <= EVENTS_SIZE ==> EpollHandedOut(kernel, a) == EpollInterests(kernel) * a.ready
    ensures forall fd <- a.batch :: fd !in a.faults
  {
    forall fd | fd in kernel ensures fd !in a.faults {
      assert Interest(fd, kernel[fd]) in EpollInterests(kernel);
    }
    var all := Reportable(kernel, a.ready, a.faults);
    SubsetSize(all, kernel.Keys);
    if |kernel| <= EVENTS_SIZE {
      forall i | i in EpollInterests(kernel) * a.ready ensures i in EpollHandedOut(kernel, a) {
        assert i.fd in all;
      }
    }
  }

  lemma SubsetSize<T>(s: set<T>, t: set<T>)
    requires s <= t
    ensures |s| <= |t|
  {
    assert t == s + (t - s);
  }

  class Epoller {
    /** The state behind epoll_instance_fd. */
    var kernel: EpollSet

    ghost function Interests(): set<Interest>
      reads this
    {
      EpollInterests(kernel)
    }

    constructor ()
      ensures Interests() == {}
    {
      kernel := map[];
    }

    method RegisterReadFd(fd: Fd)
      modifies this
      ensures kernel == EpollAdd(old(kernel), Interest(fd, Read))
    {
      kernel := EpollAdd(kernel, Interest(fd, Read));
    }

    method RegisterWriteFd(fd: Fd)
      modifies this
      ensures kernel == EpollAdd(old(kernel), Interest(fd, Write))
    {
      kernel := EpollAdd(kernel, Interest(fd, Write));
    }

    method ExtractAll(a: Answer) returns (r: Outcome)
      requires EpollMayReport(kernel, a)
      modifies this
      ensures a.Failed? ==> r.Thrown? && unchanged(this)
      ensures a.Reports? ==>
                && r == Extracted(EpollHandedOut(old(kernel), a))
                && kernel == EpollLeft(old(kernel), a)
    {
      if a.Failed? {
        return Thrown;
      }
      var events := EpollReports(kernel, a);
      var result: set<Interest> := {};
      var i := 0;
      while i < |events|
        invariant 0 <= i <= |events| == |a.batch|
        invariant kernel == EpollLeft(old(kernel), a.(batch := a.batch[..i]))
        invariant result == EpollHandedOut(old(kernel), a.(batch := a.batch[..i]))
      {
        var desc := events[i].fd;
        EpollOneMore(old(kernel), a, i);
        if events[i].events == {IN} {
          result := result + {Interest(desc, Read)};
        } else if events[i].events == {OUT} {
          result := result + {Interest(desc, Write)};
        }
        kernel := kernel - {desc};
        i := i + 1;
      }
      assert a.batch[..i] == a.batch;
      r := Extracted(result);
    }
  }

  // ---------- the abstract tracker ----------

  /** IOManager*: whichever back end the container was built with. */
  datatype IOManager =
    | Selecting(selector: Selector)
    | Polling(poller: Poller)
    | Epolling(epoller: Epoller)
  {
    function Repr(): set<object> {
      match this
      case Selecting(s) => {s}
      case Polling(p) => {p}
      case Epolling(e) => {e}
    }

    ghost predicate Valid()
      reads Repr()
    {
      Selecting? ==> selector.Valid()
    }

    ghost function Interests(): set<Interest>
      reads Repr()
    {
      match this
      case Selecting(s) => s.Interests()
      case Polling(p) => p.Interests()
      case Epolling(e) => e.Interests()
    }

    /** A descriptor; select() has no bit for larger ones. */
    predicate Admits(fd: Fd) {
      0 <= fd && (Selecting? ==> fd < FD_SETSIZE)
    }

    predicate MayAnswer(a: Answer)
      reads Repr()
    {
      Epolling? ==> EpollMayReport(epoller.kernel, a)
    }

    /** An epoll instance cannot want one descriptor both ways. */
    lemma EpollIsOneDirection()
      requires Epolling?
      ensures OneDirection(Interests())
    {
    }

    /** The answer reports every ready descriptor: only epoll_wait has a limit. */
    ghost predicate Fits()
      reads Repr()
    {
      Epolling? ==> |epoller.kernel| <= EVENTS_SIZE
    }

    /** What a tracker that wants `s` wants once `i` is registered: epoll refuses a descriptor wanted the other way. */
    ghost function Joined(s: set<Interest>, i: Interest): set<Interest> {
      if Epolling? && Opposite(i) in s then s else s + {i}
    }

    /** What a tracker that wants `s` hands out on `a`: epoll only what was batched without a fault. */
    ghost function HandedOut(s: set<Interest>, a: Answer): set<Interest>
      requires a.Reports?
    {
      set i <- s | i in a.ready && (Epolling? ==> i.fd in a.batch && i.fd !in a.faults)
    }

    /** What it still wants afterwards: poll forgets whole descriptors, epoll all that was batched. */
    ghost function Left(s: set<Interest>, a: Answer): set<Interest>
      requires a.Reports?
    {
      match this
      case Selecting(_) => s - a.ready
      case Polling(_) => PollerRemaining(s, a.ready)
      case Epolling(_) => set i <- s | i.fd !in a.batch
    }

    /** Nothing is both handed out and kept, and nothing is kept that was not wanted. */
    lemma LeftIsNotHandedOut(s: set<Interest>, a: Answer)
      requires a.Reports?
      ensures Left(s, a) <= s - HandedOut(s, a)
      ensures HandedOut(s, a) <= s * a.ready
    {
    }

    /**
     * When a tracker that wants `s` forgets on `a` only what it hands out: select always, poll if it does
     * not report just one direction of a descriptor wanted both ways, epoll if it reports no fault.
     */
    ghost predicate ForgetsOnlyReported(s: set<Interest>, a: Answer)
      requires a.Reports?
    {
      match this
      case Selecting(_) => true
      case Polling(_) => forall i <- s :: Opposite(i) in s && Opposite(i) in a.ready ==> i in a.ready
      case Epolling(_) => Unfaulted(a)
    }

    method Register(i: Interest)
      requires Valid() && Admits(i.fd)
      modifies Repr()
      ensures Valid()
      ensures !Epolling? || Opposite(i) !in old(Interests()) ==> Interests() == old(Interests()) + {i}
      ensures Epolling? && Opposite(i) in old(Interests()) ==> Interests() == old(Interests())
      ensures Interests() == Joined(old(Interests()), i)
    {
      match this {
        case Selecting(s) =>
          if i.dir == Read {
            s.RegisterReadFd(i.fd);
          } else {
            s.RegisterWriteFd(i.fd);
          }
        case Polling(p) =>
          if i.dir == Read {
            p.RegisterReadFd(i.fd);
          } else {
            p.RegisterWriteFd(i.fd);
          }
        case Epolling(e) =>
          EpollAddTakesEffectIff(e.kernel, i);
          if i.dir == Read {
            e.RegisterReadFd(i.fd);
          } else {
            e.RegisterWriteFd(i.fd);
          }
      }
    }

    method ExtractAll(a: Answer) returns (r: Outcome)
      requires Valid() && MayAnswer(a)
      modifies Repr()
      ensures Valid()
      ensures a.Failed? ==> r.Thrown? && Interests() == old(Interests())
      ensures a.Reports? ==>
                && r == Extracted(HandedOut(old(Interests()), a))
                && Interests() == Left(old(Interests()), a)
      ensures a.Reports? ==>
                && (forall i :: i in r.result <==>
                      && i in old(Interests()) && i in a.ready
                      && (Epolling? ==> i.fd in a.batch && i.fd !in a.faults))
                && (forall i :: i in Interests() <==>
                      && i in old(Interests())
                      && (Selecting? ==> i !in a.ready)
                      && (Polling? ==> i !in r.result && Opposite(i) !in r.result)
                      && (Epolling? ==> i.fd !in a.batch))
      ensures a.Reports? ==>
                (Interests() == old(Interests()) - r.result <==> ForgetsOnlyReported(old(Interests()), a))
      ensures a.Reports? && (Epolling? ==> old(Fits()) && Clean(old(Interests()), a)) ==>
                r.result == old(Interests()) * a.ready
    {
      hide EpollMayReport, EpollHandedOut, PollerRemaining;
      match this {
        case Selecting(s) =>
          r := s.ExtractAll(a);
        case Polling(p) =>
          if a.Reports? {
            PollerForgetsOnlyReportedIff(p.Interests(), a.ready);
            PollerKeepsUntouched(p.Interests(), a.ready);
          }
          r := p.ExtractAll(a);
        case Epolling(e) =>
          if a.Reports? {
            EpollHandsOut(e.kernel, a);
            EpollForgetsOnlyReportedIff(e.kernel, a);
            if Clean(e.Interests(), a) {
              EpollHandsOutReady(e.kernel, a);
            }
          }
          r := e.ExtractAll(a);
      }
    }
  }

  // ---------- agreement of the three ----------

  /** The answer's batch lists the ready descriptors, each once, in any order. */
  ghost predicate BatchesReady(s: set<Interest>, a: Answer) {
    a.Reports? ==>
      && (forall fd :: fd in a.batch <==> fd in FdsOf(s * a.ready))
      && (forall i, j :: 0 <= i < j < |a.batch| ==> a.batch[i] != a.batch[j])
  }

  lemma {:induction false} DistinctSize(fds: seq<Fd>, all: set<Fd>)
    requires forall fd <- fds :: fd in all
    requires forall i, j :: 0 <= i < j < |fds| ==> fds[i] != fds[j]
    ensures |fds| <= |all|
  {
    if fds != [] {
      var n := |fds| - 1;
      forall fd | fd in fds[..n] ensures fd in all - {fds[n]} {
        var k :| 0 <= k < n && fds[k] == fd;
      }
      DistinctSize(fds[..n], all - {fds[n]});
      assert fds[n] in all;
      assert |all - {fds[n]}| == |all| - 1;
    }
  }

  /** With no faults and room for all, these are exactly the batches epoll_wait may choose. */
  lemma BatchesReadyIffMayReport(kernel: EpollSet, a: Answer)
    requires |kernel| <= EVENTS_SIZE && Clean(EpollInterests(kernel), a)
    ensures BatchesReady(EpollInterests(kernel), a) <==> EpollMayReport(kernel, a)
  {
    if a.Reports? {
      var s, all := EpollInterests(kernel), Reportable(kernel, a.ready, a.faults);
      forall fd ensures fd in all <==> fd in FdsOf(s * a.ready) {
        if fd in kernel {
          assert Interest(fd, kernel[fd]) in s;
        }
      }
      SubsetSize(all, kernel.Keys);
      if forall fd <- a.batch :: fd in all {
        if forall i, j :: 0 <= i < j < |a.batch| ==> a.batch[i] != a.batch[j] {
          DistinctSize(a.batch, all);
        }
      }
    }
  }

  /** A history in which the back ends are interchangeable; each answer's batch is one epoll_wait may choose. */
  ghost predicate Disciplined(s: set<Interest>, ops: seq<Op>)
    decreases |ops|
  {
    ops != [] ==>
      && (match ops[0]
          case Register(i) => 0 <= i.fd < FD_SETSIZE && Opposite(i) !in s
          case Extract(a) => Clean(s, a) && BatchesReady(s, a))
      && Disciplined(After(s, ops[0]), ops[1..])
  }

  lemma OneDirectionKept(s: set<Interest>, op: Op)
    requires OneDirection(s) && (op.Register? ==> Opposite(op.interest) !in s)
    ensures OneDirection(After(s, op))
  {
  }

  /** Descriptors below FD_SETSIZE fit in the report buffer. */
  lemma {:induction false} FewDescriptors(kernel: EpollSet, bound: nat)
    requires forall fd <- kernel.Keys :: 0 <= fd < bound
    ensures |kernel| <= bound
  {
    if bound > 0 {
      FewDescriptors(kernel - {bound - 1}, bound - 1);
      assert kernel.Keys <= (kernel - {bound - 1}).Keys + {bound - 1};
      SubsetSize(kernel.Keys, (kernel - {bound - 1}).Keys + {bound - 1});
    } else {
      assert forall fd :: fd !in kernel.Keys;
      assert kernel.Keys == {};
    }
  }

  method RegisterWithAll(s: Selector, p: Poller, e: Epoller, i: Interest)
    requires s.Valid() && 0 <= i.fd < FD_SETSIZE
    requires s.Interests() == p.Interests() == e.Interests() && Opposite(i) !in s.Interests()
    modifies s, p, e
    ensures s.Valid()
    ensures s.Interests() == p.Interests() == e.Interests() == old(s.Interests()) + {i}
  {
    EpollAddTakesEffectIff(e.kernel, i);
    if i.dir == Read {
      s.RegisterReadFd(i.fd);
      p.RegisterReadFd(i.fd);
      e.RegisterReadFd(i.fd);
    } else {
      s.RegisterWriteFd(i.fd);
      p.RegisterWriteFd(i.fd);
      e.RegisterWriteFd(i.fd);
    }
  }

  method ExtractFromAll(s: Selector, p: Poller, e: Epoller, a: Answer) returns (rs: Outcome, rp: Outcome, re: Outcome)
    requires s.Valid() && forall i <- s.Interests() :: 0 <= i.fd < FD_SETSIZE
    requires s.Interests() == p.Interests() == e.Interests()
    requires OneDirection(s.Interests()) && Clean(s.Interests(), a) && BatchesReady(s.Interests(), a)
    modifies s, p, e
    ensures s.Valid()
    ensures rs == rp == re == if a.Failed? then Thrown else Extracted(old(s.Interests()) * a.ready)
    ensures s.Interests() == p.Interests() == e.Interests() ==
            if a.Failed? then old(s.Interests()) else old(s.Interests()) - a.ready
  {
    forall fd | fd in e.kernel ensures 0 <= fd < FD_SETSIZE {
      assert Interest(fd, e.kernel[fd]) in e.Interests();
    }
    FewDescriptors(e.kernel, FD_SETSIZE);
    BatchesReadyIffMayReport(e.kernel, a);
    if a.Reports? {
      PollerIsExactIffOneDirection(p.Interests());
      EpollHandsOutReady(e.kernel, a);
      EpollForgetsOnlyReportedIff(e.kernel, a);
    }
    rs := s.ExtractAll(a);
    rp := p.ExtractAll(a);
    re := e.ExtractAll(a);
  }

  lemma HistoryStarts(ops: seq<Op>)
    requires Disciplined({}, ops)
    ensures Disciplined({}, ops[0..]) && OneDirection({})
    ensures Outcomes({}, ops[0..]) == Outcomes({}, ops) && Remaining({}, ops[0..]) == Remaining({}, ops)
  {
    assert ops[0..] == ops;
  }

  lemma HistoryOver(s: set<Interest>)
    ensures Outcomes(s, []) == [] && Remaining(s, []) == s
  {
  }

  lemma StepHistory(s: set<Interest>, ops: seq<Op>, i: nat)
    requires i < |ops| && Disciplined(s, ops[i..]) && OneDirection(s)
    ensures Disciplined(After(s, ops[i]), ops[i + 1..]) && OneDirection(After(s, ops[i]))
    ensures Remaining(s, ops[i..]) == Remaining(After(s, ops[i]), ops[i + 1..])
    ensures ops[i].Register? ==>
              && 0 <= ops[i].interest.fd < FD_SETSIZE && Opposite(ops[i].interest) !in s
              && Outcomes(s, ops[i..]) == Outcomes(After(s, ops[i]), ops[i + 1..])
    ensures ops[i].Extract? ==>
              var a := ops[i].answer;
              && Clean(s, a) && BatchesReady(s, a)
              && Outcomes(s, ops[i..]) ==
                 [if a.Failed? then Thrown else Extracted(s * a.ready)] + Outcomes(After(s, ops[i]), ops[i + 1..])
  {
    assert ops[i..][0] == ops[i] && ops[i..][1..] == ops[i + 1..];
    OneDirectionKept(s, ops[i]);
  }

  /**
   * Any disciplined history run on all three back ends at once: each returns, call by call, what
   * the abstract one-shot set returns, and each is left wanting what the abstract set still wants,
   * in whatever order epoll reports.
   */
  method Lockstep(ops: seq<Op>)
    returns (selected: seq<Outcome>, polled: seq<Outcome>, epolled: seq<Outcome>, ghost wanted: seq<set<Interest>>)
    requires Disciplined({}, ops)
    ensures selected == polled == epolled == Outcomes({}, ops)
    ensures wanted == [Remaining({}, ops), Remaining({}, ops), Remaining({}, ops)]
  {
    hide Disciplined, Outcomes, Remaining, OneDirection, Clean, BatchesReady, Selector.Valid;
    var s := new Selector();
    var p := new Poller();
    var e := new Epoller();
    selected, polled, epolled := [], [], [];
    ghost var now: set<Interest> := {};
    HistoryStarts(ops);
    var i := 0;
    while i < |ops|
      invariant 0 <= i <= |ops| && fresh(s) && fresh(p) && fresh(e) && s.Valid()
      invariant Disciplined(now, ops[i..]) && OneDirection(now)
      invariant forall t <- now :: 0 <= t.fd < FD_SETSIZE
      invariant s.Interests() == p.Interests() == e.Interests() == now
      invariant selected == polled == epolled
      invariant selected + Outcomes(now, ops[i..]) == Outcomes({}, ops)
      invariant Remaining(now, ops[i..]) == Remaining({}, ops)
    {
      StepHistory(now, ops, i);
      match ops[i] {
        case Register(t) =>
          RegisterWithAll(s, p, e, t);
        case Extract(a) =>
          var rs, rp, re := ExtractFromAll(s, p, e, a);
          selected, polled, epolled := selected + [rs], polled + [rp], epolled + [re];
      }
      now := After(now, ops[i]);
      i := i + 1;
    }
    assert ops[i..] == [];
    HistoryOver(now);
    wanted := [s.Interests(), p.Interests(), e.Interests()];
  }
}
