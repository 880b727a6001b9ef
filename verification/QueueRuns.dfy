/**
 tbb/concurrent_priority_queue.h over whole runs: threads submit operations, the aggregator hands some
 that wait to `handle_operations` as a batch, and a call returns once its operation was answered.  What
 a batch does is what `PriorityQueue.ConcurrentPriorityQueue.HandleOperations` is proved to do.
 */
module QueueRuns {
  import opened PriorityQueue

  /** A run so far, the latest event outermost.  Operations are numbered as they are submitted. */
  datatype Run =
    | Empty
    | Submit(past: Run, op: Op)
    | Batch(past: Run, ids: seq<nat>, res: seq<Result>, calls: History, after: multiset<Elem>)
    | Return(past: Run, id: nat)

  function Submitted(r: Run): (ops: seq<Op>) {
    match r
    case Empty => []
    case Submit(past, op) => Submitted(past) + [op]
    case Batch(past, _, _, _, _) => Submitted(past)
    case Return(past, _) => Submitted(past)
  }

  /** The answer to operation i, Waiting until a batch has answered it. */
  function Answer(r: Run, i: nat): (res: Result) {
    match r
    case Empty => Waiting
    case Submit(past, _) => Answer(past, i)
    case Batch(past, ids, res, _, _) => if i in ids then AnswerIn(ids, res, i) else Answer(past, i)
    case Return(past, _) => Answer(past, i)
  }

  function AnswerIn(ids: seq<nat>, res: seq<Result>, i: nat): (r: Result) {
    if ids == [] || res == [] then Waiting
    else if ids[0] == i then res[0]
    else AnswerIn(ids[1..], res[1..], i)
  }

  predicate Returned(r: Run, i: nat) {
    match r
    case Empty => false
    case Submit(past, _) => Returned(past, i)
    case Batch(past, _, _, _, _) => Returned(past, i)
    case Return(past, id) => id == i || Returned(past, i)
  }

  /** What the queue holds. */
  function Held(r: Run): (q: multiset<Elem>) {
    match r
    case Empty => multiset{}
    case Submit(past, _) => Held(past)
    case Batch(_, _, _, _, after) => after
    case Return(past, _) => Held(past)
  }

  /** The operations with these numbers. */
  function Chosen(ops: seq<Op>, ids: seq<nat>): (some: seq<Op>)
    requires forall k | 0 <= k < |ids| :: ids[k] < |ops|
    ensures |some| == |ids| && forall k | 0 <= k < |ids| :: some[k] == ops[ids[k]]
  {
    seq(|ids|, k requires 0 <= k < |ids| => ops[ids[k]])
  }

  /** A batch takes operations that wait, each once; a call returns when its operation was answered. */
  ghost predicate Possible(r: Run) {
    match r
    case Empty => true
    case Submit(past, _) => Possible(past)
    case Batch(past, ids, res, calls, after) =>
      && Possible(past)
      && (forall k | 0 <= k < |ids| :: ids[k] < |Submitted(past)| && Answer(past, ids[k]) == Waiting)
      && (forall k, l | 0 <= k < l < |ids| :: ids[k] != ids[l])
      && Linearizes(calls, Chosen(Submitted(past), ids), res, Held(past), after)
    case Return(past, id) => Possible(past) && Answer(past, id) != Waiting && !Returned(past, id)
  }

  // ---------- one sequential execution for the whole run ----------

  /** The calls of a batch, with the numbers that the operations have in the run, after those of `before`. */
  function Append(before: History, calls: History, ids: seq<nat>): (h: History) {
    match calls
    case Start => before
    case Then(past, c) => Then(Append(before, past, ids), c.(id := if c.id < |ids| then ids[c.id] else c.id))
  }

  /** The order in which the operations of the run take effect. */
  function Order(r: Run): (h: History) {
    match r
    case Empty => Start
    case Submit(past, _) => Order(past)
    case Batch(past, ids, _, calls, _) => Append(Order(past), calls, ids)
    case Return(past, _) => Order(past)
  }

  lemma {:induction false} AppendLegal(before: History, calls: History, ids: seq<nat>, q: multiset<Elem>)
    requires AllLegal(q, before) && AllLegal(After(q, before), calls)
    ensures AllLegal(q, Append(before, calls, ids))
    ensures After(q, Append(before, calls, ids)) == After(After(q, before), calls)
  {
    if calls.Then? {
      AppendLegal(before, calls.past, ids, q);
    }
  }

  /** An operation outside the batch is executed as often as before, one of the batch as often as there. */
  lemma {:induction false} AppendExecutions(before: History, calls: History, ids: seq<nat>, i: nat, ops: seq<Op>,
                                            res: seq<Result>)
    requires |ops| == |ids| == |res| && Answered(calls, ops, res)
    requires forall k, l | 0 <= k < l < |ids| :: ids[k] != ids[l]
    ensures i !in ids ==> Executions(Append(before, calls, ids), i) == Executions(before, i)
    ensures forall k: nat | k < |ids| && ids[k] == i ::
      Executions(Append(before, calls, ids), i) == Executions(before, i) + Executions(calls, k)
  {
    if calls.Then? {
      AppendExecutions(before, calls.past, ids, i, ops, res);
    }
  }

  /** Every call is an operation of the run with the answer it got. */
  ghost predicate Explained(h: History, r: Run) {
    match h
    case Start => true
    case Then(past, c) =>
      Explained(past, r) && c.id < |Submitted(r)| && c.op == Submitted(r)[c.id] && c.res == Answer(r, c.id)
  }

  lemma {:induction false} AnswerAt(ids: seq<nat>, res: seq<Result>, k: nat)
    requires k < |ids| == |res| && forall k, l | 0 <= k < l < |ids| :: ids[k] != ids[l]
    ensures AnswerIn(ids, res, ids[k]) == res[k]
  {
    if k > 0 {
      AnswerAt(ids[1..], res[1..], k - 1);
    }
  }

  lemma {:induction false} ExplainedLater(h: History, past: Run, r: Run)
    requires Explained(h, past) && Submitted(past) <= Submitted(r)
    requires forall i | Executions(h, i) > 0 :: Answer(r, i) == Answer(past, i)
    ensures Explained(h, r)
  {
    if h.Then? {
      ExplainedLater(h.past, past, r);
      assert Executions(h, h.call.id) > 0;
    }
  }

  lemma {:induction false} AppendExplained(before: History, calls: History, r: Run, some: seq<Op>)
    requires r.Batch? && Explained(before, r)
    requires forall k, l | 0 <= k < l < |r.ids| :: r.ids[k] != r.ids[l]
    requires forall k | 0 <= k < |r.ids| :: r.ids[k] < |Submitted(r.past)|
    requires some == Chosen(Submitted(r.past), r.ids) && |some| == |r.res| && Answered(calls, some, r.res)
    ensures Explained(Append(before, calls, r.ids), r)
  {
    if calls.Then? {
      AppendExplained(before, calls.past, r, some);
      AnswerAt(r.ids, r.res, calls.call.id);
      assert r.ids[calls.call.id] == r.ids[calls.call.id];
    }
  }

  lemma {:induction false} NoneWaits(calls: History, ops: seq<Op>, res: seq<Result>, q: multiset<Elem>, k: nat)
    requires |ops| == |res| && Answered(calls, ops, res) && AllLegal(q, calls) && Executions(calls, k) > 0
    ensures k < |res| && res[k] != Waiting
  {
    if calls.call.id != k {
      NoneWaits(calls.past, ops, res, q, k);
    }
  }

  /** Operation i has taken effect once if it was answered, else not at all. */
  ghost predicate OnceIfAnswered(r: Run) {
    forall i {:trigger Executions(Order(r), i)} ::
      Executions(Order(r), i) == if Answer(r, i) == Waiting then 0 else 1
  }

  lemma BatchOnce(r: Run)
    requires r.Batch? && Possible(r) && OnceIfAnswered(r.past)
    ensures OnceIfAnswered(r)
  {
    var some := Chosen(Submitted(r.past), r.ids);
    forall i ensures Executions(Order(r), i) == if Answer(r, i) == Waiting then 0 else 1 {
      AppendExecutions(Order(r.past), r.calls, r.ids, i, some, r.res);
      assert Executions(Order(r.past), i) == if Answer(r.past, i) == Waiting then 0 else 1;
      if k: nat :| k < |r.ids| && r.ids[k] == i {
        AnswerAt(r.ids, r.res, k);
        assert Executions(r.calls, k) == 1;
        NoneWaits(r.calls, some, r.res, Held(r.past), k);
      }
    }
  }

  lemma BatchExplained(r: Run)
    requires r.Batch? && Possible(r) && OnceIfAnswered(r.past) && Explained(Order(r.past), r.past)
    ensures Explained(Order(r), r)
  {
    forall i | Executions(Order(r.past), i) > 0 ensures Answer(r, i) == Answer(r.past, i) {
      assert Answer(r.past, i) != Waiting;
    }
    ExplainedLater(Order(r.past), r.past, r);
    AppendExplained(Order(r.past), r.calls, r, Chosen(Submitted(r.past), r.ids));
  }

  /**
   Every run linearizes: the answered operations, each once and with the answers they got, are a
   sequential execution on a max-priority queue, which ends with what the queue holds.
   */
  lemma {:induction false} RunLinearizes(r: Run)
    requires Possible(r)
    ensures AllLegal(multiset{}, Order(r)) && After(multiset{}, Order(r)) == Held(r)
    ensures Explained(Order(r), r) && OnceIfAnswered(r)
  {
    match r
    case Empty =>
    case Submit(past, op) =>
      RunLinearizes(past);
      ExplainedLater(Order(past), past, r);
      assert forall i :: Executions(Order(r), i) == Executions(Order(past), i);
    case Batch(past, ids, res, calls, after) =>
      RunLinearizes(past);
      AppendLegal(Order(past), calls, ids, multiset{});
      BatchOnce(r);
      BatchExplained(r);
    case Return(past, id) =>
      RunLinearizes(past);
      ExplainedLater(Order(past), past, r);
      assert forall i :: Executions(Order(r), i) == Executions(Order(past), i);
  }

  // ---------- real time ----------

  predicate Extends(later: Run, r: Run) {
    later == r || (!later.Empty? && Extends(later.past, r))
  }

  /** Operation i takes effect before operation j does. */
  predicate Before(h: History, i: nat, j: nat) {
    h.Then? && (Before(h.past, i, j) || (h.call.id == j && Executions(h.past, i) > 0))
  }

  lemma {:induction false} AppendBefore(before: History, calls: History, ids: seq<nat>, i: nat, j: nat)
    requires Executions(before, i) > 0
    ensures Executions(Append(before, calls, ids), i) > 0
    ensures Executions(Append(before, calls, ids), j) > Executions(before, j) ==>
        Before(Append(before, calls, ids), i, j)
    ensures Before(before, i, j) ==> Before(Append(before, calls, ids), i, j)
  {
    if calls.Then? {
      AppendBefore(before, calls.past, ids, i, j);
    }
  }

  lemma {:induction false} LaterBefore(r: Run, later: Run, i: nat, j: nat)
    requires Extends(later, r) && Executions(Order(r), i) > 0
    ensures Executions(Order(later), i) > 0
    ensures Executions(Order(later), j) > Executions(Order(r), j) ==> Before(Order(later), i, j)
  {
    if later != r {
      LaterBefore(r, later.past, i, j);
      if later.Batch? {
        AppendBefore(Order(later.past), later.calls, later.ids, i, j);
      }
    }
  }

  lemma {:induction false} PossiblePast(r: Run, later: Run)
    requires Extends(later, r) && Possible(later)
    ensures Possible(r)
  {
    if later != r {
      PossiblePast(r, later.past);
    }
  }

  lemma {:induction false} ReturnedIsAnswered(r: Run, i: nat)
    requires Possible(r) && Returned(r, i)
    ensures Answer(r, i) != Waiting
  {
    match r
    case Submit(past, _) => ReturnedIsAnswered(past, i);
    case Batch(past, ids, _, _, _) => ReturnedIsAnswered(past, i);
    case Return(past, id) =>
      if id != i {
        ReturnedIsAnswered(past, i);
      }
  }

  lemma {:induction false} OnlySubmitted(r: Run, i: nat)
    requires Possible(r) && i >= |Submitted(r)|
    ensures Answer(r, i) == Waiting
  {
    if !r.Empty? {
      OnlySubmitted(r.past, i);
    }
  }

  /** A call that returned before another one was submitted takes effect before it. */
  lemma RealTimeOrder(r: Run, later: Run, i: nat, j: nat)
    requires Possible(later) && Extends(later, r) && Returned(r, i) && j >= |Submitted(r)|
    ensures Answer(later, j) != Waiting ==> Before(Order(later), i, j)
  {
    PossiblePast(r, later);
    RunLinearizes(r);
    RunLinearizes(later);
    ReturnedIsAnswered(r, i);
    OnlySubmitted(r, j);
    assert Executions(Order(r), i) == 1 && Executions(Order(r), j) == 0;
    LaterBefore(r, later, i, j);
    assert Answer(later, j) != Waiting ==> Executions(Order(later), j) == 1;
  }
}
