/** The life of connections, seen from outside: what every echo server here must refine. */
module Connections {
  import opened Events

  datatype Phase = Reading | Writing

  /** A connection waiting to be read is in its first phase. */
  function PhaseOf(d: Dir): Phase {
    if d == Read then Reading else Writing
  }

  /** Reply is the single write followed by the close. */
  datatype Action = Accept(fd: Fd) | Receive(fd: Fd) | Reply(fd: Fd)

  /** The open connections. */
  type Table = map<Fd, Phase>

  predicate Enabled(t: Table, a: Action) {
    match a
    case Accept(fd) => fd !in t
    case Receive(fd) => fd in t && t[fd] == Reading
    case Reply(fd) => fd in t && t[fd] == Writing
  }

  function Apply(t: Table, a: Action): Table {
    match a
    case Accept(fd) => t[fd := Reading]
    case Receive(fd) => t[fd := Writing]
    case Reply(fd) => t - {fd}
  }

  /** The actions can be performed one after the other, starting from `t`. */
  predicate Legal(t: Table, acts: seq<Action>)
    decreases |acts|
  {
    acts != [] ==> Legal(t, acts[..|acts| - 1]) && Enabled(AfterAll(t, acts[..|acts| - 1]), acts[|acts| - 1])
  }

  function AfterAll(t: Table, acts: seq<Action>): Table
    decreases |acts|
  {
    if acts == [] then t else Apply(AfterAll(t, acts[..|acts| - 1]), acts[|acts| - 1])
  }

  /** The actions on one descriptor. */
  function On(acts: seq<Action>, fd: Fd): seq<Action> {
    if acts == [] then [] else
    var rest := On(acts[..|acts| - 1], fd);
    if acts[|acts| - 1].fd == fd then rest + [acts[|acts| - 1]] else rest
  }

  /** The `n`-th action in the life of a descriptor. */
  function Due(fd: Fd, n: nat): Action {
    match n % 3
    case 0 => Accept(fd)
    case 1 => Receive(fd)
    case _ => Reply(fd)
  }

  /** Accept, receive, reply, over and over; the trace may stop anywhere. */
  ghost predicate Cyclic(acts: seq<Action>, fd: Fd) {
    forall i :: 0 <= i < |acts| ==> acts[i] == Due(fd, i)
  }

  ghost predicate EachCycles(acts: seq<Action>) {
    forall fd: Fd :: Cyclic(On(acts, fd), fd)
  }

  lemma LegalStep(t: Table, acts: seq<Action>, a: Action)
    requires Legal(t, acts) && Enabled(AfterAll(t, acts), a)
    ensures Legal(t, acts + [a]) && AfterAll(t, acts + [a]) == Apply(AfterAll(t, acts), a)
  {
    assert (acts + [a])[..|acts|] == acts;
  }

  lemma {:induction false} LegalConcat(t: Table, xs: seq<Action>, ys: seq<Action>)
    requires Legal(t, xs) && Legal(AfterAll(t, xs), ys)
    ensures Legal(t, xs + ys) && AfterAll(t, xs + ys) == AfterAll(AfterAll(t, xs), ys)
    decreases |ys|
  {
    if ys == [] {
      assert xs + ys == xs;
    } else {
      LegalConcat(t, xs, ys[..|ys| - 1]);
      assert (xs + ys)[..|xs + ys| - 1] == xs + ys[..|ys| - 1];
    }
  }

  /** Where a descriptor stands is told by how many actions it has seen. */
  ghost predicate Stands(t: Table, fd: Fd, n: nat) {
    match n % 3
    case 0 => fd !in t
    case 1 => fd in t && t[fd] == Reading
    case _ => fd in t && t[fd] == Writing
  }

  /** The action due is the one the machine allows on that descriptor, and it moves it on by one. */
  lemma DueIsEnabled(t: Table, fd: Fd, n: nat, a: Action)
    requires Stands(t, fd, n) && a.fd == fd
    ensures Enabled(t, a) <==> a == Due(fd, n)
    ensures Enabled(t, a) ==> Stands(Apply(t, a), fd, n + 1)
  {
  }

  lemma OthersStand(t: Table, fd: Fd, n: nat, a: Action)
    requires Stands(t, fd, n) && a.fd != fd
    ensures Stands(Apply(t, a), fd, n)
  {
  }

  lemma {:induction false} LegalTracesCycle(acts: seq<Action>, fd: Fd)
    requires Legal(map[], acts)
    ensures Cyclic(On(acts, fd), fd)
    ensures Stands(AfterAll(map[], acts), fd, |On(acts, fd)|)
    decreases |acts|
  {
    hide Due, Enabled, Apply, Stands;
    if acts == [] {
      NothingStands(fd);
    } else {
      var init, last := acts[..|acts| - 1], acts[|acts| - 1];
      LegalTracesCycle(init, fd);
      if last.fd == fd {
        DueIsEnabled(AfterAll(map[], init), fd, |On(init, fd)|, last);
      } else {
        OthersStand(AfterAll(map[], init), fd, |On(init, fd)|, last);
      }
    }
  }

  lemma NothingStands(fd: Fd)
    ensures Stands(map[], fd, 0)
  {
  }

  lemma {:induction false} CyclicTracesAreLegal(acts: seq<Action>)
    requires EachCycles(acts)
    ensures Legal(map[], acts)
    decreases |acts|
  {
    hide Due, Enabled, Apply, Stands;
    if acts != [] {
      var init, last := acts[..|acts| - 1], acts[|acts| - 1];
      forall fd: Fd ensures Cyclic(On(init, fd), fd) {
        assert Cyclic(On(acts, fd), fd);
        assert On(init, fd) <= On(acts, fd);
        forall i | 0 <= i < |On(init, fd)| ensures On(init, fd)[i] == Due(fd, i) {
          assert On(acts, fd)[i] == On(init, fd)[i];
        }
      }
      CyclicTracesAreLegal(init);
      LegalTracesCycle(init, last.fd);
      var n := |On(init, last.fd)|;
      assert Cyclic(On(acts, last.fd), last.fd);
      assert On(acts, last.fd)[n] == last;
      DueIsEnabled(AfterAll(map[], init), last.fd, n, last);
    }
  }

  /** The machine allows exactly the traces in which each descriptor's actions cycle. */
  lemma LegalIffCyclic(acts: seq<Action>)
    ensures Legal(map[], acts) <==> EachCycles(acts)
  {
    if Legal(map[], acts) {
      forall fd: Fd ensures Cyclic(On(acts, fd), fd) {
        LegalTracesCycle(acts, fd);
      }
    }
    if EachCycles(acts) {
      CyclicTracesAreLegal(acts);
    }
  }

  function Without(fds: seq<Fd>, fd: Fd): seq<Fd> {
    if fds == [] then [] else
    var rest := Without(fds[..|fds| - 1], fd);
    if fds[|fds| - 1] == fd then rest else rest + [fds[|fds| - 1]]
  }

  /** The open descriptors in the order they were accepted, when `open` were open before the actions. */
  function OpenAfter(open: seq<Fd>, acts: seq<Action>): seq<Fd>
    decreases |acts|
  {
    if acts == [] then open else
    var rest := OpenAfter(open, acts[..|acts| - 1]);
    match acts[|acts| - 1]
    case Accept(fd) => rest + [fd]
    case Receive(_) => rest
    case Reply(fd) => Without(rest, fd)
  }

  lemma OpenAfterOneMore(open: seq<Fd>, acts: seq<Action>, a: Action)
    ensures OpenAfter(open, acts + [a]) ==
            if a.Accept? then OpenAfter(open, acts) + [a.fd]
            else if a.Receive? then OpenAfter(open, acts)
            else Without(OpenAfter(open, acts), a.fd)
  {
    assert (acts + [a])[..|acts|] == acts;
  }

  lemma {:induction false} OpenAfterConcat(open: seq<Fd>, xs: seq<Action>, ys: seq<Action>)
    ensures OpenAfter(open, xs + ys) == OpenAfter(OpenAfter(open, xs), ys)
    decreases |ys|
  {
    if ys == [] {
      assert xs + ys == xs;
    } else {
      OpenAfterConcat(open, xs, ys[..|ys| - 1]);
      assert (xs + ys)[..|xs + ys| - 1] == xs + ys[..|ys| - 1];
    }
  }

  lemma {:induction false} WithoutKeeps(fds: seq<Fd>, fd: Fd)
    ensures forall x :: x in Without(fds, fd) <==> x in fds && x != fd
    ensures fd !in fds ==> Without(fds, fd) == fds
  {
    if fds != [] {
      WithoutKeeps(fds[..|fds| - 1], fd);
      assert fds == fds[..|fds| - 1] + [fds[|fds| - 1]];
    }
  }

  lemma {:induction false} WithoutConcat(xs: seq<Fd>, ys: seq<Fd>, fd: Fd)
    ensures Without(xs + ys, fd) == Without(xs, fd) + Without(ys, fd)
    decreases |ys|
  {
    if ys == [] {
      assert xs + ys == xs;
    } else {
      WithoutConcat(xs, ys[..|ys| - 1], fd);
      assert (xs + ys)[..|xs + ys| - 1] == xs + ys[..|ys| - 1];
    }
  }

  /** After a legal history these are exactly the open connections. */
  lemma {:induction false} OpenAfterIsOpen(acts: seq<Action>)
    requires Legal(map[], acts)
    ensures forall fd :: fd in OpenAfter([], acts) <==> fd in AfterAll(map[], acts)
    decreases |acts|
  {
    if acts != [] {
      var init, last := acts[..|acts| - 1], acts[|acts| - 1];
      OpenAfterIsOpen(init);
      WithoutKeeps(OpenAfter([], init), last.fd);
    }
  }

  /** No descriptor occurs in two of the actions. */
  ghost predicate OncePerDescriptor(acts: seq<Action>) {
    forall i, j :: 0 <= i < j < |acts| ==> acts[i].fd != acts[j].fd
  }
}
