/** The hand-written poll loop: phases toggled in place, erasures and insertions deferred. */
module PollServer {
  import opened Backends
  import opened Connections
  import opened Events
  import opened Interests

  ghost predicate Distinct(es: seq<PollFd>) {
    forall i, j :: 0 <= i < j < |es| ==> es[i].fd != es[j].fd
  }

  /** The entries are exactly the open connections, each in its phase. */
  ghost predicate Represents(t: Table, es: seq<PollFd>) {
    && (forall e <- es :: e.fd in t && t[e.fd] == PhaseOf(e.events))
    && (forall fd <- t.Keys :: exists e :: e in es && e.fd == fd)
  }

  function FdsIn(es: seq<PollFd>): seq<Fd> {
    seq(|es|, i requires 0 <= i < |es| => es[i].fd)
  }

  lemma FdsConcat(xs: seq<PollFd>, e: PollFd, ys: seq<PollFd>)
    ensures FdsIn(xs + [e] + ys) == FdsIn(xs) + [e.fd] + FdsIn(ys) && FdsIn(xs + ys) == FdsIn(xs) + FdsIn(ys)
  {
  }

  /** Taking the descriptor out of the list takes out the one entry it occurs in. */
  lemma WithoutEntry(xs: seq<PollFd>, e: PollFd, ys: seq<PollFd>)
    requires Distinct(xs + [e] + ys)
    ensures Without(FdsIn(xs + [e] + ys), e.fd) == FdsIn(xs + ys)
  {
    DistinctWithout(xs, e, ys);
    FdsConcat(xs, e, ys);
    var before, after := FdsIn(xs), FdsIn(ys);
    forall fd | fd in before + after ensures fd != e.fd {
      var k :| 0 <= k < |before + after| && (before + after)[k] == fd;
      assert (xs + ys)[k] in xs + ys;
    }
    assert e.fd !in before && e.fd !in after;
    WithoutConcat(before + [e.fd], after, e.fd);
    WithoutConcat(before, [e.fd], e.fd);
    WithoutKeeps(before, e.fd);
    WithoutKeeps(after, e.fd);
    assert [e.fd][..0] == [];
  }

  /** The entry was reported for writing, so its connection is replied to and closed. */
  predicate Finished(e: PollFd) {
    IN !in e.revents && OUT in e.revents
  }

  /** An entry reported for reading waits for writing from now on. */
  function Turned(e: PollFd): PollFd {
    if IN in e.revents then e.(events := Write) else e
  }

  /** What one pass makes of the connections' entries, in their order. */
  function Survivors(es: seq<PollFd>): seq<PollFd> {
    if es == [] then [] else
    var rest := Survivors(es[..|es| - 1]);
    if Finished(es[|es| - 1]) then rest else rest + [Turned(es[|es| - 1])]
  }

  /** remove_if over the tracking vector followed by erase. */
  function Erased(es: seq<PollFd>, gone: set<Fd>): seq<PollFd> {
    if es == [] then [] else
    var rest := Erased(es[..|es| - 1], gone);
    if es[|es| - 1].fd in gone then rest else rest + [es[|es| - 1]]
  }

  lemma {:induction false} ErasedAreSurvivors(polled: seq<PollFd>, turned: seq<PollFd>, gone: set<Fd>)
    requires 0 < |polled| == |turned| && turned[0] == polled[0] && polled[0].fd !in gone
    requires forall j :: 0 < j < |polled| ==> turned[j] == Turned(polled[j])
    requires forall j :: 0 < j < |polled| ==> (polled[j].fd in gone <==> Finished(polled[j]))
    ensures Erased(turned, gone) == [polled[0]] + Survivors(polled[1..])
  {
    var n := |polled| - 1;
    if n == 0 {
      assert turned[..0] == [];
    } else {
      ErasedAreSurvivors(polled[..n], turned[..n], gone);
      assert polled[1..][..n - 1] == polled[..n][1..];
      assert turned[n].fd == polled[n].fd;
    }
  }

  lemma DistinctUpdate(xs: seq<PollFd>, e: PollFd, f: PollFd, ys: seq<PollFd>)
    requires Distinct(xs + [e] + ys) && f.fd == e.fd
    ensures Distinct(xs + [f] + ys)
  {
    var es, es' := xs + [e] + ys, xs + [f] + ys;
    assert forall k :: 0 <= k < |es'| ==> es'[k].fd == es[k].fd;
  }

  lemma ReceiveAt(t: Table, xs: seq<PollFd>, e: PollFd, ys: seq<PollFd>)
    requires Represents(t, xs + [e] + ys) && Distinct(xs + [e] + ys) && e.events == Read
    ensures Enabled(t, Receive(e.fd))
    ensures Represents(Apply(t, Receive(e.fd)), xs + [e.(events := Write)] + ys)
    ensures Distinct(xs + [e.(events := Write)] + ys)
  {
    var f := e.(events := Write);
    DistinctWithout(xs, e, ys);
    DistinctUpdate(xs, e, f, ys);
    assert forall x :: x in xs + [e] + ys <==> x in xs + ys || x == e;
    assert forall x :: x in xs + [f] + ys <==> x in xs + ys || x == f;
    assert e in xs + [e] + ys && f in xs + [f] + ys;
  }

  lemma DistinctWithout(xs: seq<PollFd>, e: PollFd, ys: seq<PollFd>)
    requires Distinct(xs + [e] + ys)
    ensures Distinct(xs + ys) && forall x <- xs + ys :: x.fd != e.fd
  {
    var es, es', n := xs + [e] + ys, xs + ys, |xs|;
    assert es[n] == e;
    assert forall k :: 0 <= k < |es'| ==> es'[k] == es[if k < n then k else k + 1];
  }

  lemma ReplyAt(t: Table, xs: seq<PollFd>, e: PollFd, ys: seq<PollFd>)
    requires Represents(t, xs + [e] + ys) && Distinct(xs + [e] + ys) && e.events == Write
    ensures Enabled(t, Reply(e.fd))
    ensures Represents(Apply(t, Reply(e.fd)), xs + ys) && Distinct(xs + ys)
  {
    DistinctWithout(xs, e, ys);
    assert forall x :: x in xs + [e] + ys <==> x in xs + ys || x == e;
    assert e in xs + [e] + ys;
  }

  lemma AcceptAtEnd(t: Table, es: seq<PollFd>, e: PollFd)
    requires Represents(t, es) && Distinct(es) && e.events == Read && forall x <- es :: x.fd != e.fd
    ensures Enabled(t, Accept(e.fd))
    ensures Represents(Apply(t, Accept(e.fd)), es + [e]) && Distinct(es + [e])
  {
    assert (es + [e])[|es|] == e;
    forall fd | fd in Apply(t, Accept(e.fd)).Keys ensures exists x :: x in es + [e] && x.fd == fd {
      if fd in t {
        var x :| x in es && x.fd == fd;
        assert x in es + [e];
      } else {
        assert e in es + [e];
      }
    }
  }

  lemma {:induction false} SurvivorsAppend(es: seq<PollFd>, e: PollFd)
    ensures Survivors(es + [e]) == Survivors(es) + if Finished(e) then [] else [Turned(e)]
  {
    assert (es + [e])[..|es|] == es;
  }

  /** The concrete half of the loop invariant: entries below `i` are dealt with, in place. */
  ghost predicate Halfway(
      polled: seq<PollFd>, accepted: Fd, tracking: seq<PollFd>, toRemove: set<Fd>, extend: seq<PollFd>, i: nat)
  {
    && i <= |tracking| == |polled|
    && (forall j :: 0 <= j < |polled| ==> tracking[j] == if 1 <= j < i then Turned(polled[j]) else polled[j])
    && (forall j :: 0 <= j < |polled| ==> (polled[j].fd in toRemove <==> 1 <= j < i && Finished(polled[j])))
    && extend == if i > 0 && IN in polled[0].revents then [PollFd(accepted, Read, {})] else []
  }

  /** What the branches of the loop body do to the vector in place, to `to_remove` and to `extend`. */
  lemma HalfwayOn(
      polled: seq<PollFd>, accepted: Fd, tracking: seq<PollFd>, toRemove: set<Fd>, extend: seq<PollFd>, i: nat)
    requires Halfway(polled, accepted, tracking, toRemove, extend, i) && i < |polled| && Distinct(polled)
    ensures tracking[i] == polled[i]
    ensures i == 0 && IN in polled[0].revents ==>
              Halfway(polled, accepted, tracking, toRemove, extend + [PollFd(accepted, Read, {})], 1)
    ensures i > 0 && IN in polled[i].revents ==>
              Halfway(polled, accepted, tracking[i := polled[i].(events := Write)], toRemove, extend, i + 1)
    ensures i > 0 && Finished(polled[i]) ==>
              Halfway(polled, accepted, tracking, toRemove + {polled[i].fd}, extend, i + 1)
    ensures IN !in polled[i].revents && OUT !in polled[i].revents ==>
              Halfway(polled, accepted, tracking, toRemove, extend, i + 1)
  {
  }

  lemma HalfwayDone(polled: seq<PollFd>, accepted: Fd, tracking: seq<PollFd>, toRemove: set<Fd>, extend: seq<PollFd>)
    requires Halfway(polled, accepted, tracking, toRemove, extend, |polled|) && polled != []
    ensures Erased(tracking, toRemove) == [polled[0]] + Survivors(polled[1..])
    ensures extend == if IN in polled[0].revents then [PollFd(accepted, Read, {})] else []
  {
    ErasedAreSurvivors(polled, tracking, toRemove);
  }

  /** The connections' entries as they stand when the loop is at `i`, late changes included. */
  function Standing(polled: seq<PollFd>, extend: seq<PollFd>, i: nat): seq<PollFd>
    requires i <= |polled| && polled != []
  {
    var k := if i == 0 then 1 else i;
    Survivors(polled[1..k]) + polled[k..] + extend
  }

  /**
   * The abstract half: the actions so far are legal and lead to the entries that stand, in the order in
   * which their connections were accepted.
   */
  ghost predicate InStep(t: Table, acts: seq<Action>, polled: seq<PollFd>, accepted: Fd, extend: seq<PollFd>, i: nat)
    requires i <= |polled| && polled != []
  {
    && Legal(t, acts) && OncePerDescriptor(acts)
    && Represents(AfterAll(t, acts), Standing(polled, extend, i)) && Distinct(Standing(polled, extend, i))
    && FdsIn(Standing(polled, extend, i)) == OpenAfter(FdsIn(polled[1..]), acts)
    && (i == 0 ==> acts == [])
    && forall a <- acts :: a.fd == accepted || exists j :: 1 <= j < i && polled[j].fd == a.fd
  }

  lemma StandingAtStart(polled: seq<PollFd>, extend: seq<PollFd>)
    requires polled != []
    ensures Standing(polled, extend, 0) == polled[1..] + extend
    ensures Standing(polled, extend, 1) == polled[1..] + extend
  {
    assert polled[1..1] == [];
  }

  lemma NotInTail(polled: seq<PollFd>, accepted: Fd)
    requires Fresh(polled, accepted)
    ensures Distinct(polled[1..]) && forall x <- polled[1..] :: x.fd != accepted
  {
    forall x | x in polled[1..] ensures x.fd != accepted {
      assert x in polled;
    }
  }

  lemma OneAccept(accepted: Fd)
    ensures OncePerDescriptor([Accept(accepted)]) && forall a <- [Accept(accepted)] :: a.fd == accepted
  {
  }

  ghost predicate Fresh(polled: seq<PollFd>, accepted: Fd) {
    polled != [] && Distinct(polled) && forall e <- polled :: e.fd != accepted
  }

  lemma OnceMore(acts: seq<Action>, a: Action)
    requires OncePerDescriptor(acts) && forall x <- acts :: x.fd != a.fd
    ensures OncePerDescriptor(acts + [a])
  {
  }

  lemma {:induction false} SurvivorsAreListed(es: seq<PollFd>)
    ensures forall x <- Survivors(es) :: exists e :: e in es && e.fd == x.fd
  {
    if es != [] {
      SurvivorsAreListed(es[..|es| - 1]);
      assert es == es[..|es| - 1] + [es[|es| - 1]];
    }
  }

  lemma AcceptInStep(t: Table, polled: seq<PollFd>, accepted: Fd)
    requires Fresh(polled, accepted) && InStep(t, [], polled, accepted, [], 0)
    ensures InStep(t, [Accept(accepted)], polled, accepted, [PollFd(accepted, Read, {})], 1)
  {
    hide Represents, Legal, OncePerDescriptor, AfterAll, Enabled, Apply, Standing, Distinct, Survivors;
    var child := PollFd(accepted, Read, {});
    StandingAtStart(polled, []);
    StandingAtStart(polled, [child]);
    NotInTail(polled, accepted);
    assert polled[1..] + [] == polled[1..];
    AcceptAtEnd(AfterAll(t, []), polled[1..], child);
    LegalStep(t, [], Accept(accepted));
    OneAccept(accepted);
    assert [] + [Accept(accepted)] == [Accept(accepted)];
    OpenAfterOneMore(FdsIn(polled[1..]), [], Accept(accepted));
    FdsConcat(polled[1..], child, []);
    assert polled[1..] + [child] + [] == polled[1..] + [child];
  }

  lemma NothingDoneYet(t: Table, acts: seq<Action>, polled: seq<PollFd>, accepted: Fd, extend: seq<PollFd>)
    requires polled != [] && InStep(t, acts, polled, accepted, extend, 0)
    ensures acts == []
  {
  }

  lemma NotYetOn(t: Table, acts: seq<Action>, polled: seq<PollFd>, accepted: Fd, extend: seq<PollFd>, i: nat, a: Action)
    requires Fresh(polled, accepted) && 1 <= i < |polled| && InStep(t, acts, polled, accepted, extend, i)
    requires a.fd == polled[i].fd
    ensures OncePerDescriptor(acts + [a])
    ensures forall x <- acts + [a] :: x.fd == accepted || exists j :: 1 <= j < i + 1 && polled[j].fd == x.fd
  {
    assert polled[i] in polled;
    forall x | x in acts ensures x.fd != a.fd {
      if x.fd != accepted {
        var j :| 1 <= j < i && polled[j].fd == x.fd;
      }
    }
    OnceMore(acts, a);
    forall x | x in acts + [a] && x.fd != accepted ensures exists j :: 1 <= j < i + 1 && polled[j].fd == x.fd {
      if x in acts {
        var j :| 1 <= j < i && polled[j].fd == x.fd;
        assert 1 <= j < i + 1;
      } else {
        assert polled[i].fd == x.fd;
      }
    }
  }

  lemma ReceiveInStep(t: Table, acts: seq<Action>, polled: seq<PollFd>, accepted: Fd, extend: seq<PollFd>, i: nat)
    requires Fresh(polled, accepted) && 1 <= i < |polled| && InStep(t, acts, polled, accepted, extend, i)
    requires polled[i].events == Read && IN in polled[i].revents
    ensures InStep(t, acts + [Receive(polled[i].fd)], polled, accepted, extend, i + 1)
  {
    hide Represents, Legal, OncePerDescriptor, Survivors, AfterAll, Enabled, Apply, Distinct, FdsIn, OpenAfter;
    var e, xs, ys := polled[i], Survivors(polled[1..i]), polled[i + 1..] + extend;
    assert Standing(polled, extend, i) == xs + [e] + ys;
    ReceiveAt(AfterAll(t, acts), xs, e, ys);
    LegalStep(t, acts, Receive(e.fd));
    NotYetOn(t, acts, polled, accepted, extend, i, Receive(e.fd));
    OpenAfterOneMore(FdsIn(polled[1..]), acts, Receive(e.fd));
    FdsConcat(xs, e, ys);
    FdsConcat(xs, e.(events := Write), ys);
    SurvivorsAppend(polled[1..i], e);
    assert polled[1..i + 1] == polled[1..i] + [e];
    assert Standing(polled, extend, i + 1) == xs + [e.(events := Write)] + ys;
  }

  lemma ReplyInStep(t: Table, acts: seq<Action>, polled: seq<PollFd>, accepted: Fd, extend: seq<PollFd>, i: nat)
    requires Fresh(polled, accepted) && 1 <= i < |polled| && InStep(t, acts, polled, accepted, extend, i)
    requires polled[i].events == Write && Finished(polled[i])
    ensures InStep(t, acts + [Reply(polled[i].fd)], polled, accepted, extend, i + 1)
  {
    hide Represents, Legal, OncePerDescriptor, Survivors, AfterAll, Enabled, Apply, Distinct, FdsIn, OpenAfter;
    var e, xs, ys := polled[i], Survivors(polled[1..i]), polled[i + 1..] + extend;
    assert Standing(polled, extend, i) == xs + [e] + ys;
    ReplyAt(AfterAll(t, acts), xs, e, ys);
    LegalStep(t, acts, Reply(e.fd));
    NotYetOn(t, acts, polled, accepted, extend, i, Reply(e.fd));
    OpenAfterOneMore(FdsIn(polled[1..]), acts, Reply(e.fd));
    WithoutEntry(xs, e, ys);
    SurvivorsAppend(polled[1..i], e);
    assert polled[1..i + 1] == polled[1..i] + [e];
    assert Standing(polled, extend, i + 1) == xs + ys;
  }

  lemma SkipInStep(t: Table, acts: seq<Action>, polled: seq<PollFd>, accepted: Fd, extend: seq<PollFd>, i: nat)
    requires Fresh(polled, accepted) && i < |polled| && InStep(t, acts, polled, accepted, extend, i)
    requires i == 0 || (IN !in polled[i].revents && !Finished(polled[i]))
    ensures InStep(t, acts, polled, accepted, extend, i + 1)
  {
    hide Represents, Legal, OncePerDescriptor, Survivors, AfterAll, Enabled, Apply, Distinct, FdsIn, OpenAfter;
    if i > 0 {
      SurvivorsAppend(polled[1..i], polled[i]);
      assert polled[1..i + 1] == polled[1..i] + [polled[i]];
      assert polled[i..] == [polled[i]] + polled[i + 1..];
      assert Standing(polled, extend, i + 1) == Standing(polled, extend, i);
      forall x | x in acts && x.fd != accepted ensures exists j :: 1 <= j < i + 1 && polled[j].fd == x.fd {
        var j :| 1 <= j < i && polled[j].fd == x.fd;
        assert 1 <= j < i + 1;
      }
    }
  }

  /** Being polled changes neither an entry's descriptor nor its direction. */
  lemma PolledRepresents(t: Table, es: seq<PollFd>, ready: set<Interest>, faults: set<Fd>)
    requires Represents(t, es)
    ensures Represents(t, Polled(es, ready, faults))
  {
    var polled := Polled(es, ready, faults);
    forall e | e in polled ensures e.fd in t && t[e.fd] == PhaseOf(e.events) {
      var k :| 0 <= k < |polled| && polled[k] == e;
      assert es[k] in es;
    }
    forall fd | fd in t.Keys ensures exists e :: e in polled && e.fd == fd {
      var x :| x in es && x.fd == fd;
      var k :| 0 <= k < |es| && es[k] == x;
      assert polled[k] in polled;
    }
  }

  lemma PolledFds(es: seq<PollFd>, ready: set<Interest>, faults: set<Fd>)
    requires es != []
    ensures FdsIn(Polled(es, ready, faults)[1..]) == FdsIn(es[1..])
  {
  }

  lemma PolledFresh(es: seq<PollFd>, ready: set<Interest>, faults: set<Fd>, accepted: Fd)
    requires es != [] && Distinct(es) && forall e <- es :: e.fd != accepted
    ensures Fresh(Polled(es, ready, faults), accepted)
  {
    var polled := Polled(es, ready, faults);
    forall e | e in polled ensures e.fd != accepted {
      var k :| 0 <= k < |polled| && polled[k] == e;
      assert es[k] in es;
    }
  }

  lemma PolledStands(t: Table, es: seq<PollFd>, ready: set<Interest>, faults: set<Fd>, accepted: Fd)
    requires es != [] && Distinct(es) && Represents(t, es[1..]) && forall e <- es :: e.fd != accepted
    ensures var polled := Polled(es, ready, faults); Fresh(polled, accepted) && InStep(t, [], polled, accepted, [], 0)
  {
    hide Represents, Distinct, Standing;
    var polled := Polled(es, ready, faults);
    PolledFresh(es, ready, faults, accepted);
    PolledRepresents(t, es[1..], ready, faults);
    assert polled[1..] == Polled(es[1..], ready, faults);
    StandingAtStart(polled, []);
    assert polled[1..] + [] == polled[1..];
    NotInTail(polled, accepted);
  }

  /** What the loop does about entry `i`. */
  function ActsOn(polled: seq<PollFd>, accepted: Fd, i: nat): seq<Action>
    requires i < |polled|
  {
    if i == 0 then if IN in polled[0].revents then [Accept(accepted)] else []
    else if IN in polled[i].revents then [Receive(polled[i].fd)]
    else if OUT in polled[i].revents then [Reply(polled[i].fd)]
    else []
  }

  /** The entries below `i` have had their actions, and nothing else has been done. */
  ghost predicate Made(polled: seq<PollFd>, accepted: Fd, acts: seq<Action>, i: nat)
    requires i <= |polled|
  {
    && (forall j, a :: 0 <= j < i && a in ActsOn(polled, accepted, j) ==> a in acts)
    && (forall a <- acts :: exists j :: 0 <= j < i && a in ActsOn(polled, accepted, j))
  }

  lemma NoneMade(polled: seq<PollFd>, accepted: Fd)
    ensures Made(polled, accepted, [], 0)
  {
  }

  lemma MadeOn(polled: seq<PollFd>, accepted: Fd, acts: seq<Action>, i: nat)
    requires i < |polled| && Made(polled, accepted, acts, i)
    ensures Made(polled, accepted, acts + ActsOn(polled, accepted, i), i + 1)
  {
    hide ActsOn;
    var more := ActsOn(polled, accepted, i);
    assert forall a :: a in acts + more <==> a in acts || a in more;
    forall a | a in acts + more ensures exists j :: 0 <= j < i + 1 && a in ActsOn(polled, accepted, j) {
      if a in more {
        assert 0 <= i < i + 1;
      } else {
        var j :| 0 <= j < i && a in ActsOn(polled, accepted, j);
        assert 0 <= j < i + 1;
      }
    }
  }

  lemma ActsAreOnEntry(polled: seq<PollFd>, accepted: Fd, j: nat, a: Action)
    requires j < |polled| && a in ActsOn(polled, accepted, j)
    ensures a.fd == if j == 0 then accepted else polled[j].fd
  {
  }

  /** An entry's action is the only one on its descriptor. */
  lemma MadeAt(polled: seq<PollFd>, accepted: Fd, acts: seq<Action>, i: nat)
    requires Fresh(polled, accepted) && i < |polled| && Made(polled, accepted, acts, |polled|)
    ensures forall a <- acts :: a.fd == (if i == 0 then accepted else polled[i].fd) ==>
              a in ActsOn(polled, accepted, i)
    ensures forall a <- ActsOn(polled, accepted, i) :: a in acts
  {
    hide ActsOn;
    forall a | a in acts && a.fd == (if i == 0 then accepted else polled[i].fd)
      ensures a in ActsOn(polled, accepted, i)
    {
      var j :| 0 <= j < |polled| && a in ActsOn(polled, accepted, j);
      ActsAreOnEntry(polled, accepted, j, a);
      assert polled[i] in polled && polled[j] in polled;
    }
  }

  lemma PolledBits(es: seq<PollFd>, ready: set<Interest>, faults: set<Fd>, i: nat)
    requires i < |es|
    ensures var p := Polled(es, ready, faults)[i];
            && p.fd == es[i].fd && p.events == es[i].events
            && (IN in p.revents <==> es[i].events == Read && Interest(es[i].fd, Read) in ready)
            && (OUT in p.revents <==> es[i].events == Write && Interest(es[i].fd, Write) in ready)
  {
  }

  /** A surviving entry is there in its next phase; of a finished one nothing is left. */
  lemma {:induction false} SurvivorOf(es: seq<PollFd>, k: nat)
    requires Distinct(es) && k < |es|
    ensures !Finished(es[k]) ==> Turned(es[k]) in Survivors(es)
    ensures Finished(es[k]) ==> forall x <- Survivors(es) :: x.fd != es[k].fd
  {
    var n := |es| - 1;
    var last := es[n];
    assert es == es[..n] + [last];
    if k < n {
      SurvivorOf(es[..n], k);
    } else {
      SurvivorsAreListed(es[..n]);
    }
  }

  /** What a pass has done and left for the connection of entry `e`, told from what was ready. */
  ghost predicate DealtWith(e: PollFd, ready: set<Interest>, acts: seq<Action>, after: seq<PollFd>) {
    var wanted := WantedBy(after);
    if Interest(e.fd, e.events) !in ready then
      (forall a <- acts :: a.fd != e.fd) && Interest(e.fd, e.events) in wanted
    else if e.events == Read then
      Receive(e.fd) in acts && Interest(e.fd, Write) in wanted
    else
      Reply(e.fd) in acts && Interest(e.fd, Read) !in wanted && Interest(e.fd, Write) !in wanted
  }

  lemma Dealt(
      es: seq<PollFd>, ready: set<Interest>, faults: set<Fd>, accepted: Fd, acts: seq<Action>, after: seq<PollFd>,
      i: nat)
    requires Distinct(es) && (forall e <- es :: e.fd != accepted) && 0 < i < |es| && Distinct(after)
    requires var polled := Polled(es, ready, faults);
             && Made(polled, accepted, acts, |polled|)
             && [polled[0]] + Survivors(polled[1..]) <= after
             && forall x <- after[|Survivors(polled[1..])| + 1..] :: x.fd == accepted
    ensures DealtWith(es[i], ready, acts, after)
  {
    hide Survivors, Distinct, Made, ActsOn;
    var polled := Polled(es, ready, faults);
    PolledFresh(es, ready, faults, accepted);
    PolledBits(es, ready, faults, i);
    DealtActs(polled, accepted, acts, i);
    var rest := polled[1..];
    TailDistinct(polled);
    SurvivorOf(rest, i - 1);
    if !Finished(polled[i]) {
      var x := Turned(polled[i]);
      var k :| 0 <= k < |Survivors(rest)| && Survivors(rest)[k] == x;
      assert after[k + 1] == ([polled[0]] + Survivors(rest))[k + 1] == x;
    } else {
      forall x | x in after ensures x.fd != es[i].fd {
        NotLeft(polled, after, accepted, i, x);
      }
    }
  }

  /** What a pass has done and left altogether. */
  lemma PassMeans(
      es: seq<PollFd>, ready: set<Interest>, faults: set<Fd>, accepted: Fd, acts: seq<Action>, after: seq<PollFd>)
    requires es != [] && Distinct(es) && es[0].events == Read && (forall e <- es :: e.fd != accepted) && Distinct(after)
    requires var polled := Polled(es, ready, faults);
             && Made(polled, accepted, acts, |polled|)
             && after == [polled[0]] + Survivors(polled[1..]) +
                         if Interest(es[0].fd, Read) in ready then [PollFd(accepted, Read, {})] else []
    ensures forall i :: 0 < i < |es| ==> DealtWith(es[i], ready, acts, after)
    ensures Accept(accepted) in acts <==> Interest(es[0].fd, Read) in ready
    ensures Accept(accepted) in acts ==> Interest(accepted, Read) in WantedBy(after)
    ensures forall a <- acts :: a == Accept(accepted) || exists i :: 0 < i < |es| && es[i].fd == a.fd
  {
    hide Survivors, Made, ActsOn, Distinct, WantedBy;
    var polled := Polled(es, ready, faults);
    forall i | 0 < i < |es|
      ensures DealtWith(es[i], ready, acts, after)
    {
      Dealt(es, ready, faults, accepted, acts, after, i);
    }
    PolledFresh(es, ready, faults, accepted);
    PolledBits(es, ready, faults, 0);
    AcceptMade(polled, accepted, acts);
    if Interest(es[0].fd, Read) in ready {
      WantedByAppended([polled[0]] + Survivors(polled[1..]), PollFd(accepted, Read, {}));
    }
    forall a | a in acts && a != Accept(accepted) ensures exists i :: 0 < i < |es| && es[i].fd == a.fd {
      OnlyOnEntries(polled, accepted, acts, a);
      var i :| 0 < i < |polled| && polled[i].fd == a.fd;
      assert es[i].fd == a.fd;
    }
  }

  lemma AcceptMade(polled: seq<PollFd>, accepted: Fd, acts: seq<Action>)
    requires Fresh(polled, accepted) && Made(polled, accepted, acts, |polled|)
    ensures Accept(accepted) in acts <==> IN in polled[0].revents
  {
    MadeAt(polled, accepted, acts, 0);
  }

  lemma OnlyOnEntries(polled: seq<PollFd>, accepted: Fd, acts: seq<Action>, a: Action)
    requires Made(polled, accepted, acts, |polled|) && a in acts && a != Accept(accepted)
    ensures exists i :: 0 < i < |polled| && polled[i].fd == a.fd
  {
    var j :| 0 <= j < |polled| && a in ActsOn(polled, accepted, j);
    assert 0 < j < |polled| && polled[j].fd == a.fd;
  }

  lemma TailDistinct(es: seq<PollFd>)
    requires Distinct(es) && es != []
    ensures Distinct(es[1..])
  {
  }

  lemma NotLeft(polled: seq<PollFd>, after: seq<PollFd>, accepted: Fd, i: nat, x: PollFd)
    requires Fresh(polled, accepted) && 0 < i < |polled| && x in after
    requires [polled[0]] + Survivors(polled[1..]) <= after
    requires forall y <- after[|Survivors(polled[1..])| + 1..] :: y.fd == accepted
    requires forall y <- Survivors(polled[1..]) :: y.fd != polled[i].fd
    ensures x.fd != polled[i].fd
  {
    hide Survivors;
    var k :| 0 <= k < |after| && after[k] == x;
    var n := |Survivors(polled[1..])|;
    assert polled[i] in polled;
    if k > n {
      assert after[n + 1..][k - n - 1] == x;
    } else {
      assert x == ([polled[0]] + Survivors(polled[1..]))[k];
    }
  }

  lemma DealtActs(polled: seq<PollFd>, accepted: Fd, acts: seq<Action>, i: nat)
    requires Fresh(polled, accepted) && 0 < i < |polled| && Made(polled, accepted, acts, |polled|)
    ensures IN in polled[i].revents ==> Receive(polled[i].fd) in acts
    ensures Finished(polled[i]) ==> Reply(polled[i].fd) in acts
    ensures IN !in polled[i].revents && OUT !in polled[i].revents ==> forall a <- acts :: a.fd != polled[i].fd
  {
    MadeAt(polled, accepted, acts, i);
  }

  class Server {
    const parentFd: Fd
    var tracking: seq<PollFd>
    /** Everything done on connections so far. */
    ghost var log: seq<Action>

    /** The listener leads, no descriptor occurs twice, and the rest are the open connections in accept order. */
    ghost predicate Valid()
      reads this
    {
      && tracking != [] && tracking[0].fd == parentFd && tracking[0].events == Read
      && Distinct(tracking)
      && Legal(map[], log) && Represents(AfterAll(map[], log), tracking[1..])
      && FdsIn(tracking[1..]) == OpenAfter([], log)
    }

    constructor (parentFd: Fd)
      ensures Valid() && log == [] && this.parentFd == parentFd && |tracking| == 1
    {
      this.parentFd := parentFd;
      tracking, log := [PollFd(parentFd, Read, {})], [];
    }

    /**
     * One pass of the main loop. `accepted` is the descriptor accept() returns if it is called:
     * any that is not open.
     */
    method Pass(ready: set<Interest>, faults: set<Fd>, accepted: Fd) returns (ghost acts: seq<Action>)
      requires Valid() && forall e <- tracking :: e.fd != accepted
      modifies this
      ensures Valid()
      ensures log == old(log) + acts && OncePerDescriptor(acts)
      ensures var polled := Polled(old(tracking), ready, faults);
              tracking == [polled[0]] + Survivors(polled[1..]) +
                          if Interest(parentFd, Read) in ready then [PollFd(accepted, Read, {})] else []
      ensures forall i :: 0 < i < |old(tracking)| ==>
                var e, wanted := old(tracking)[i], WantedBy(tracking);
                if Interest(e.fd, e.events) !in ready then
                  (forall a <- acts :: a.fd != e.fd) && Interest(e.fd, e.events) in wanted
                else if e.events == Read then
                  Receive(e.fd) in acts && Interest(e.fd, Write) in wanted
                else
                  Reply(e.fd) in acts && Interest(e.fd, Read) !in wanted && Interest(e.fd, Write) !in wanted
      ensures Accept(accepted) in acts <==> Interest(parentFd, Read) in ready
      ensures Accept(accepted) in acts ==> Interest(accepted, Read) in WantedBy(tracking)
      ensures forall a <- acts :: a == Accept(accepted) ||
                exists i :: 0 < i < |old(tracking)| && old(tracking)[i].fd == a.fd
    {
      hide Represents, Legal, OncePerDescriptor, InStep, Survivors, Halfway, OpenAfter, Made, WantedBy;
      ghost var t := AfterAll(map[], log);
      PolledStands(t, tracking, ready, faults, accepted);
      tracking := Polled(tracking, ready, faults);
      ghost var polled := tracking;
      var toRemove: set<Fd> := {};
      var extend: seq<PollFd> := [];
      acts := [];
      HalfwayStarts(polled, accepted);
      NoneMade(polled, accepted);
      var i := 0;
      while i < |tracking|
        invariant 0 <= i <= |tracking| == |polled|
        invariant Halfway(polled, accepted, tracking, toRemove, extend, i)
        invariant InStep(t, acts, polled, accepted, extend, i)
        invariant Made(polled, accepted, acts, i)
        invariant log == old(log)
      {
        HalfwayOn(polled, accepted, tracking, toRemove, extend, i);
        MadeOn(polled, accepted, acts, i);
        if IN in tracking[i].revents {
          if tracking[i].fd == parentFd {
            NothingDoneYet(t, acts, polled, accepted, extend);
            ExtendedOnce(polled, accepted, tracking, toRemove, extend);
            AcceptInStep(t, polled, accepted);
            assert acts + [Accept(accepted)] == [Accept(accepted)];
            extend := extend + [PollFd(accepted, Read, {})];
            acts := acts + [Accept(accepted)];
          } else {
            ReceiveInStep(t, acts, polled, accepted, extend, i);
            acts := acts + [Receive(tracking[i].fd)];
            tracking := tracking[i := tracking[i].(events := Write)];
          }
        } else if OUT in tracking[i].revents {
          ReplyInStep(t, acts, polled, accepted, extend, i);
          acts := acts + [Reply(tracking[i].fd)];
          toRemove := toRemove + {tracking[i].fd};
        } else {
          SkipInStep(t, acts, polled, accepted, extend, i);
          assert acts + [] == acts;
        }
        i := i + 1;
      }
      HalfwayDone(polled, accepted, tracking, toRemove, extend);
      PolledFds(old(tracking), ready, faults);
      PassEnds(log, t, acts, polled, accepted, extend);
      assert ([polled[0]] + Survivors(polled[1..]) + extend)[1..] == Survivors(polled[1..]) + extend;
      tracking := Erased(tracking, toRemove) + extend;
      log := log + acts;
      PassMeans(old(tracking), ready, faults, accepted, acts, tracking);
    }
  }

  lemma HalfwayStarts(polled: seq<PollFd>, accepted: Fd)
    ensures Halfway(polled, accepted, polled, {}, [], 0)
  {
  }

  lemma ExtendedOnce(polled: seq<PollFd>, accepted: Fd, tracking: seq<PollFd>, toRemove: set<Fd>, extend: seq<PollFd>)
    requires polled != [] && Halfway(polled, accepted, tracking, toRemove, extend, 0)
    ensures extend == [] && extend + [PollFd(accepted, Read, {})] == [PollFd(accepted, Read, {})]
  {
  }

  lemma PassEnds(log: seq<Action>, t: Table, acts: seq<Action>, polled: seq<PollFd>, accepted: Fd, extend: seq<PollFd>)
    requires Legal(map[], log) && t == AfterAll(map[], log)
    requires Fresh(polled, accepted) && InStep(t, acts, polled, accepted, extend, |polled|)
    requires extend == [] || extend == [PollFd(accepted, Read, {})]
    requires FdsIn(polled[1..]) == OpenAfter([], log)
    ensures FdsIn(Survivors(polled[1..]) + extend) == OpenAfter([], log + acts)
    ensures var es := [polled[0]] + Survivors(polled[1..]) + extend;
            && Distinct(es) && Represents(AfterAll(map[], log + acts), es[1..])
    ensures Legal(map[], log + acts) && OncePerDescriptor(acts)
  {
    hide Represents, Legal, OncePerDescriptor, Survivors, AfterAll;
    LegalConcat(map[], log, acts);
    OpenAfterConcat([], log, acts);
    var rest := Survivors(polled[1..]) + extend;
    assert polled[1..|polled|] == polled[1..] && polled[|polled|..] == [];
    assert Standing(polled, extend, |polled|) == rest;
    assert ([polled[0]] + Survivors(polled[1..]) + extend)[1..] == rest;
    SurvivorsAreListed(polled[1..]);
    forall x | x in rest ensures x.fd != polled[0].fd {
      if x in Survivors(polled[1..]) {
        var e :| e in polled[1..] && e.fd == x.fd;
        var k :| 0 <= k < |polled[1..]| && polled[1..][k] == e;
        assert polled[k + 1] == e;
      } else {
        assert polled[0] in polled;
      }
    }
  }
}
