/** The pending I/O events: a second copy, at the level of events, of the tracker's interest set. */
module IOEventContainer {
  import opened Backends
  import opened Events
  import opened Interests

  class Container {
    var ready: seq<IOEvent>
    var container: seq<IOEvent>
    const tracker: IOManager

    /** The tracker wants nothing that no pending event waits for. */
    ghost predicate Valid()
      reads this, tracker.Repr()
    {
      tracker.Valid() && tracker.Interests() <= Pairs(container)
    }

    /** The tracker wants exactly what the pending events wait for: no event is orphaned. */
    ghost predicate Coupled()
      reads this, tracker.Repr()
    {
      tracker.Interests() == Pairs(container)
    }

    constructor (tracker: IOManager)
      requires tracker.Valid() && tracker.Interests() == {}
      ensures Valid() && Coupled() && ready == container == [] && this.tracker == tracker
    {
      this.tracker := tracker;
      ready, container := [], [];
    }

    method Append(ev: IOEvent)
      requires Valid() && tracker.Admits(ev.fd)
      modifies this, tracker.Repr()
      ensures Valid() && container == old(container) + [ev] && ready == old(ready)
      ensures tracker.Interests() == tracker.Joined(old(tracker.Interests()), PairOf(ev))
      ensures old(Coupled()) ==>
                (Coupled() <==> !tracker.Epolling? || Opposite(PairOf(ev)) !in Pairs(old(container)))
    {
      if tracker.Epolling? {
        tracker.EpollIsOneDirection();
      }
      tracker.Register(Interest(ev.fd, ev.dir));
      container := container + [ev];
      PairsOfAppended(old(container), ev);
    }

    /** The loop of update_all_p: ready events are moved out of the container. */
    method Split(found: set<Interest>)
      modifies this
      ensures ready == Taken(old(container), found) && container == Kept(old(container), found)
    {
      ready := [];
      var temp: seq<IOEvent> := [];
      var i := 0;
      while i < |container|
        invariant 0 <= i <= |container| && container == old(container)
        invariant ready == Taken(container[..i], found) && temp == Kept(container[..i], found)
      {
        var e := container[i];
        assert container[..i + 1][..i] == container[..i];
        if Interest(e.fd, e.dir) in found {
          ready := ready + [e];
        } else {
          temp := temp + [e];
        }
        i := i + 1;
      }
      assert container[..i] == container;
      container := temp;
    }

    method UpdateAllP(a: Answer) returns (thrown: bool, ghost res: set<Interest>)
      requires Valid() && tracker.MayAnswer(a)
      modifies this, tracker.Repr()
      ensures Valid() && thrown == a.Failed?
      ensures thrown ==>
                container == old(container) && ready == old(ready) && tracker.Interests() == old(tracker.Interests())
      ensures !thrown ==>
                && ready == Taken(old(container), res) && container == Kept(old(container), res)
                && res == tracker.HandedOut(old(tracker.Interests()), a) <= a.ready
                && tracker.Interests() == tracker.Left(old(tracker.Interests()), a)
      ensures !thrown ==> res <= Pairs(old(container)) && Pairs(container) == Pairs(old(container)) - res
      ensures !thrown && old(Coupled()) ==>
                && res == tracker.HandedOut(Pairs(old(container)), a)
                && (Coupled() <==> tracker.ForgetsOnlyReported(Pairs(old(container)), a))
      ensures !thrown && old(Coupled()) &&
              (tracker.Epolling? ==> old(tracker.Fits()) && Clean(Pairs(old(container)), a)) ==>
                res == Pairs(old(container)) * a.ready
    {
      var outcome := tracker.ExtractAll(a);
      if outcome.Thrown? {
        return true, {};
      }
      var found := outcome.result;
      tracker.LeftIsNotHandedOut(old(tracker.Interests()), a);
      Split(found);
      PairsOfKept(old(container), found);
      thrown, res := false, found;
    }

    function GetReadyIoEvs(): seq<IOEvent>
      reads this
    {
      ready
    }

    predicate Empty()
      reads this
    {
      |ready| == 0 && |container| == 0
    }
  }

  lemma PairsOfAppended(es: seq<IOEvent>, e: IOEvent)
    ensures Pairs(es + [e]) == Pairs(es) + {PairOf(e)}
  {
    assert forall x :: x in es + [e] <==> x in es || x == e;
    assert e in es + [e];
  }

  lemma AppendedDirections(es: seq<IOEvent>, e: IOEvent)
    requires OneDirection(Pairs(es + [e]))
    ensures Opposite(PairOf(e)) !in Pairs(es)
  {
    PairsOfAppended(es, e);
    assert PairOf(e) in Pairs(es + [e]);
  }

  lemma PairsOfKept(es: seq<IOEvent>, res: set<Interest>)
    ensures Pairs(Kept(es, res)) == Pairs(es) - res
  {
    PartitionConserves(es, res);
  }
}
