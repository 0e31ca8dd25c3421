/** Descriptors, interests and events: the vocabulary shared by every layer of the reactor. */
module Events {

  /** What accept() and socket() return; -1 when they fail. */
  type Fd = int

  /** The identity of a socket object: what a `Socket*` points to. */
  type SocketId = nat

  /** The source's 'r' and 'w'. */
  datatype Dir = Read | Write

  /** A pair (descriptor, direction), as the trackers exchange them. */
  datatype Interest = Interest(fd: Fd, dir: Dir)

  /** The closure bound to an event. The first three are the echo server's own. */
  datatype Callback =
    | HandleAccept
    | HandleRead(session: SocketId)
    | HandleWrite(session: SocketId)
    | Custom(tag: nat)

  /** ReadEvent and WriteEvent are `IO`; ClockEvent is `Clock`. `id` numbers events in submission order. */
  datatype Event =
    | IO(id: nat, socket: SocketId, fd: Fd, dir: Dir, cb: Callback)
    | Clock(id: nat, begin: int, wait: int, cb: Callback)

  type IOEvent = e: Event | e.IO? witness IO(0, 0, 0, Read, HandleAccept)

  type TimerEvent = e: Event | e.Clock? witness Clock(0, 0, 0, Custom(0))

  /** What EventQueue::pop returns: an event or a null pointer. */
  datatype Popped = Null | Popped(event: Event)

  function PairOf(e: IOEvent): Interest {
    Interest(e.fd, e.dir)
  }

  function Pairs(es: seq<IOEvent>): set<Interest> {
    set e <- es :: PairOf(e)
  }

  function Opposite(i: Interest): Interest {
    Interest(i.fd, if i.dir == Read then Write else Read)
  }

  /** No descriptor is wanted in both directions at once. */
  ghost predicate OneDirection(s: set<Interest>) {
    forall i <- s :: Opposite(i) !in s
  }

  /** The events whose pair is in `res`, in their order. */
  function Taken(es: seq<IOEvent>, res: set<Interest>): seq<IOEvent> {
    if es == [] then [] else
    var rest := Taken(es[..|es| - 1], res);
    if PairOf(es[|es| - 1]) in res then rest + [es[|es| - 1]] else rest
  }

  /** The events whose pair is not in `res`, in their order. */
  function Kept(es: seq<IOEvent>, res: set<Interest>): seq<IOEvent> {
    if es == [] then [] else
    var rest := Kept(es[..|es| - 1], res);
    if PairOf(es[|es| - 1]) in res then rest else rest + [es[|es| - 1]]
  }

  function Reversed(es: seq<IOEvent>): seq<IOEvent> {
    if es == [] then [] else [es[|es| - 1]] + Reversed(es[..|es| - 1])
  }

  ghost function Bag(es: seq<Event>): multiset<Event> {
    multiset(es)
  }

  ghost predicate IncreasingIds(es: seq<Event>) {
    forall i, j :: 0 <= i < j < |es| ==> es[i].id < es[j].id
  }

  ghost predicate DecreasingIds(es: seq<Event>) {
    forall i, j :: 0 <= i < j < |es| ==> es[i].id > es[j].id
  }

  /** `Taken` and `Kept` split the events: nothing is lost, doubled or put on the wrong side. */
  lemma {:induction false} PartitionConserves(es: seq<IOEvent>, res: set<Interest>)
    ensures multiset(Taken(es, res)) + multiset(Kept(es, res)) == multiset(es)
    ensures forall e :: e in Taken(es, res) <==> e in es && PairOf(e) in res
    ensures forall e :: e in Kept(es, res) <==> e in es && PairOf(e) !in res
  {
    if es != [] {
      PartitionConserves(es[..|es| - 1], res);
      assert es == es[..|es| - 1] + [es[|es| - 1]];
    }
  }

  lemma ExtendIncreasing(es: seq<Event>, e: Event)
    requires IncreasingIds(es) && forall x <- es :: x.id < e.id
    ensures IncreasingIds(es + [e])
  {
  }

  /** Both sides keep the submission order. */
  lemma {:induction false} PartitionIsStable(es: seq<IOEvent>, res: set<Interest>)
    requires IncreasingIds(es)
    ensures IncreasingIds(Taken(es, res)) && IncreasingIds(Kept(es, res))
  {
    if es != [] {
      var init, last := es[..|es| - 1], es[|es| - 1];
      PartitionIsStable(init, res);
      PartitionConserves(init, res);
      forall e | e in init ensures e.id < last.id {
        var k :| 0 <= k < |init| && init[k] == e;
      }
      if PairOf(last) in res {
        ExtendIncreasing(Taken(init, res), last);
      } else {
        ExtendIncreasing(Kept(init, res), last);
      }
    }
  }

  lemma {:induction false} ReversedIsMirror(es: seq<IOEvent>)
    ensures |Reversed(es)| == |es|
    ensures forall k :: 0 <= k < |es| ==> Reversed(es)[k] == es[|es| - 1 - k]
    ensures multiset(Reversed(es)) == multiset(es)
  {
    if es != [] {
      ReversedIsMirror(es[..|es| - 1]);
      assert es == es[..|es| - 1] + [es[|es| - 1]];
    }
  }
}
