/** The priority queue of timers: a binary heap in an array whose comparator reads a moving clock. */
module TimerHeap {
  import opened Events
  import opened HeapSpec
  import opened Timers

  /** The system clock: every reading is at least the previous one. */
  class SystemClock {
    var now: int

    constructor (start: int)
      ensures now == start
    {
      now := start;
    }

    method Read() returns (t: int)
      modifies this
      ensures old(now) <= t == now
    {
      var passed :| 0 <= passed;
      now := now + passed;
      t := now;
    }
  }

  /** std::priority_queue<TimeEvent*, std::vector<TimeEvent*>, Compare>. */
  class Heap {
    var heap: seq<TimerEvent>
    const clock: SystemClock

    /** No timer is pushed before its start point. */
    ghost predicate Valid()
      reads this, clock
    {
      Started(heap, clock.now)
    }

    constructor (clock: SystemClock)
      ensures Valid() && heap == [] && this.clock == clock
    {
      this.clock := clock;
      heap := [];
    }

    /** The comparator reads the clock once per operand, in either order. */
    method Less(left: TimerEvent, right: TimerEvent) returns (b: bool, ghost r: Reading)
      modifies clock
      ensures old(clock.now) <= r.left <= clock.now && old(clock.now) <= r.right <= clock.now
      ensures b == Compare(left, right, r.left, r.right)
    {
      var t := clock.Read();
      var u := clock.Read();
      var leftFirst := *;
      if leftFirst {
        b := TimeLeft(left, t) >= TimeLeft(right, u);
        r := Reading(t, u);
      } else {
        b := TimeLeft(left, u) >= TimeLeft(right, t);
        r := Reading(u, t);
      }
    }

    /** Lets `value` rise from the hole at `start` past every ancestor that is not before it. */
    method SiftUp(start: nat, value: TimerEvent) returns (ghost rs: seq<Reading>)
      requires start < |heap|
      modifies this`heap, clock
      ensures Risen(old(heap), start, value, rs) == Sifted(heap)
      ensures old(clock.now) <= clock.now && Within(rs, old(clock.now), clock.now)
    {
      hide Compare, RiseGoesOn;
      var hole: nat := start;
      var rises := true;
      rs := [];
      RiseBegins(heap, start, value);
      while hole > 0 && rises
        invariant hole < |heap|
        invariant old(clock.now) <= clock.now && Within(rs, old(clock.now), clock.now)
        invariant rises ==> RiseGoesOn(old(heap), start, value, rs, heap, hole)
        invariant !rises ==> Risen(old(heap), start, value, rs) == Sifted(heap[hole := value])
        decreases hole, rises
      {
        ghost var r;
        var parent := Parent(hole);
        rises, r := Less(heap[parent], value);
        if rises {
          RiseContinues(old(heap), start, value, rs, heap, hole, r);
          heap := heap[hole := heap[parent]];
          hole := parent;
        } else {
          RiseEnds(old(heap), start, value, rs, heap, hole, [r]);
        }
        rs := rs + [r];
      }
      if rises {
        RiseEnds(old(heap), start, value, rs, heap, hole, []);
        assert rs + [] == rs;
      }
      heap := heap[hole := value];
    }

    method Push(e: TimerEvent) returns (ghost rs: seq<Reading>)
      requires Valid() && e.begin <= clock.now
      modifies this`heap, clock
      ensures Valid() && AfterPush(old(heap), e, rs) == Sifted(heap)
      ensures old(clock.now) <= clock.now && Within(rs, old(clock.now), clock.now)
    {
      hide Risen;
      heap := heap + [e];
      rs := SiftUp(|heap| - 1, e);
      PushedConserves(old(heap), e, rs);
      assert Bag(old(heap)) + multiset{e} == Bag(old(heap) + [e]);
      SameBagStarted(old(heap) + [e], heap, clock.now);
    }

    /** Moves the hole at the top down to a leaf along the lesser children. */
    method Descend(ghost value: TimerEvent) returns (hole: nat, ghost rs: seq<Reading>)
      requires heap != []
      modifies this`heap, clock
      ensures hole < |heap|
      ensures forall rest :: Sunk(old(heap), 0, value, rs + rest) == Risen(heap, hole, value, rest)
      ensures old(clock.now) <= clock.now && Within(rs, old(clock.now), clock.now)
    {
      hide SinkGoesOn, Risen;
      var len := |heap|;
      hole := 0;
      rs := [];
      SinkBegins(heap, value);
      while hole < (len - 1) / 2
        invariant hole < len == |heap|
        invariant old(clock.now) <= clock.now && Within(rs, old(clock.now), clock.now)
        invariant SinkGoesOn(old(heap), value, rs, heap, hole)
        decreases len - hole
      {
        ghost var r;
        var leftIsLess;
        var child := 2 * (hole + 1);
        leftIsLess, r := Less(heap[child], heap[child - 1]);
        if leftIsLess {
          child := child - 1;
        }
        SinkContinues(old(heap), value, rs, heap, hole, r);
        heap := heap[hole := heap[child]];
        hole := child;
        rs := rs + [r];
      }
      ghost var atLeaf, sunk := heap, hole;
      if len % 2 == 0 && hole == (len - 2) / 2 {
        heap := heap[hole := heap[2 * hole + 1]];
        hole := 2 * hole + 1;
      }
      SinkEnds(old(heap), value, rs, atLeaf, sunk, heap, hole);
    }

    method Pop() returns (ghost rs: seq<Reading>)
      requires Valid() && heap != []
      modifies this`heap, clock
      ensures Valid() && AfterPop(old(heap), rs) == Sifted(heap)
      ensures old(clock.now) <= clock.now && Within(rs, old(clock.now), clock.now)
    {
      hide Sunk, Risen;
      rs := [];
      var value := heap[|heap| - 1];
      heap := heap[..|heap| - 1];
      if heap != [] {
        var hole, sinking := Descend(value);
        var rising := SiftUp(hole, value);
        rs := sinking + rising;
      }
      PoppedConserves(old(heap), rs);
      SameBagStarted(old(heap), heap, clock.now);
    }

    /** timer_events.top()->isReady() */
    method TopIsReady() returns (ready: bool)
      requires Valid() && heap != []
      modifies clock
      ensures Valid() && old(clock.now) <= clock.now
      ensures ready <==> IsReady(heap[0], clock.now)
    {
      var now := clock.Read();
      ready := IsReady(heap[0], now);
    }

    /** Any other reading of the clock. */
    method Tick() returns (now: int)
      requires Valid()
      modifies clock
      ensures Valid() && old(clock.now) <= clock.now == now
    {
      now := clock.Read();
    }
  }
}
