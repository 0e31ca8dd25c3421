/** The abstract tracker: a one-shot interest set, and what the kernel may answer about it. */
module Interests {
  import opened Events

  /** The event bits of a poll or epoll entry. */
  datatype Flag = IN | OUT | FAULT

  /**
   * One call of select, poll or epoll_wait. `ready` holds the pairs whose condition is true,
   * `faults` the descriptors in an error or hang-up condition. `batch` is used by epoll_wait
   * alone: the descriptors it chose to report, in its order.
   */
  datatype Answer = Failed | Reports(ready: set<Interest>, faults: set<Fd>, batch: seq<Fd>)

  /** The thrown errors of the trackers. */
  datatype Outcome = Thrown | Extracted(result: set<Interest>)

  function Bit(d: Dir): Flag {
    if d == Read then IN else OUT
  }

  function FdsOf(s: set<Interest>): set<Fd> {
    set i <- s :: i.fd
  }

  /** No tracked descriptor is in an error or hang-up condition. */
  ghost predicate Clean(s: set<Interest>, a: Answer) {
    a.Reports? ==> FdsOf(s) !! a.faults
  }

  /** Nothing epoll_wait reports is in an error or hang-up condition. */
  ghost predicate Unfaulted(a: Answer) {
    a.Reports? ==> forall fd <- a.batch :: fd !in a.faults
  }

  /** A history of calls on a tracker. */
  datatype Op = Register(interest: Interest) | Extract(answer: Answer)

  /** What the tracker still wants after `op`. */
  function After(s: set<Interest>, op: Op): set<Interest> {
    match op
    case Register(i) => s + {i}
    case Extract(a) => if a.Failed? then s else s - a.ready
  }

  /** What the calls of a history return, one entry for each extraction. */
  function Outcomes(s: set<Interest>, ops: seq<Op>): seq<Outcome>
    decreases |ops|
  {
    if ops == [] then [] else
    var op := ops[0];
    var rest := Outcomes(After(s, op), ops[1..]);
    match op
    case Register(_) => rest
    case Extract(a) => [if a.Failed? then Thrown else Extracted(s * a.ready)] + rest
  }

  function Remaining(s: set<Interest>, ops: seq<Op>): set<Interest>
    decreases |ops|
  {
    if ops == [] then s else Remaining(After(s, ops[0]), ops[1..])
  }

  /** Extraction `op` reports `i` as ready. */
  predicate Reporting(op: Op, i: Interest) {
    op.Extract? && op.answer.Reports? && i in op.answer.ready
  }

  lemma {:induction false} RemainingOneMore(s: set<Interest>, ops: seq<Op>, op: Op)
    ensures Remaining(s, ops + [op]) == After(Remaining(s, ops), op)
    decreases |ops|
  {
    if ops == [] {
      assert ([op])[1..] == [];
    } else {
      RemainingOneMore(After(s, ops[0]), ops[1..], op);
      assert (ops + [op])[1..] == ops[1..] + [op];
    }
  }

  /** An interest is wanted exactly if it has not been reported since it was last registered. */
  lemma {:induction false} WantedIffUnreported(ops: seq<Op>, i: Interest)
    ensures i in Remaining({}, ops) <==>
            exists k :: 0 <= k < |ops| && ops[k] == Register(i) && forall j :: k < j < |ops| ==> !Reporting(ops[j], i)
    decreases |ops|
  {
    if ops != [] {
      var n := |ops| - 1;
      var init := ops[..n];
      WantedIffUnreported(init, i);
      RemainingOneMore({}, init, ops[n]);
      assert ops == init + [ops[n]];
      if i in Remaining({}, ops) && ops[n] != Register(i) {
        var k :| 0 <= k < n && init[k] == Register(i) && forall j :: k < j < n ==> !Reporting(init[j], i);
        assert ops[k] == Register(i);
        forall j | k < j < |ops| ensures !Reporting(ops[j], i) {
          assert j < n ==> ops[j] == init[j];
        }
      }
      if k :| 0 <= k < |ops| && ops[k] == Register(i) && forall j :: k < j < |ops| ==> !Reporting(ops[j], i) {
        if k < n {
          assert !Reporting(ops[n], i);
          assert init[k] == Register(i);
          forall j | k < j < n ensures !Reporting(init[j], i) {
            assert ops[j] == init[j];
          }
        }
      }
    }
  }

  /** An extraction returns what is wanted and ready at that moment, or throws if the call fails. */
  lemma {:induction false} OutcomeAt(s: set<Interest>, ops: seq<Op>, k: nat)
    requires k < |ops| && ops[k].Extract?
    ensures var n, a := |Outcomes(s, ops[..k])|, ops[k].answer;
            && n < |Outcomes(s, ops)|
            && Outcomes(s, ops)[n] == if a.Failed? then Thrown else Extracted(Remaining(s, ops[..k]) * a.ready)
    decreases |ops|
  {
    if k > 0 {
      OutcomeAt(After(s, ops[0]), ops[1..], k - 1);
      assert ops[..k][1..] == ops[1..][..k - 1];
      assert ops[..k][0] == ops[0];
    }
  }

  /** Interests are handed out once: one is reported or still wanted only if it was registered. */
  ghost predicate Registered(i: Interest, ops: seq<Op>) {
    exists k :: 0 <= k < |ops| && ops[k] == Register(i)
  }

  /** Between an extraction that reported `i` and the next one that does, `i` was registered again. */
  lemma {:induction false} OneShot(s: set<Interest>, ops: seq<Op>, i: Interest)
    requires i !in s && !Registered(i, ops)
    ensures i !in Remaining(s, ops)
    ensures forall o <- Outcomes(s, ops) :: o.Extracted? ==> i !in o.result
    decreases |ops|
  {
    if ops != [] {
      assert ops[0] != Register(i);
      forall k | 0 <= k < |ops[1..]| ensures ops[1..][k] != Register(i) {
        assert ops[1..][k] == ops[k + 1];
      }
      OneShot(After(s, ops[0]), ops[1..], i);
    }
  }
}
