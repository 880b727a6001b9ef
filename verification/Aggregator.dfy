/**
 tbb::aggregator (src/intel/include/tbb/aggregator.h) with any number of submitting threads.  A step
 is one access to a shared word.  Each thread has one operation object on its stack at a time, so
 an operation is named by its thread, and its address is used again by the thread's next call.
 */
module Aggregator {

  const NULL := -1

  datatype Phase =
    | Idle
    | Reading                            // about to read the mailbox into my_next
    | Swapping(res: int)                 // about to compare-and-swap the mailbox
    | Spinning                           // first in the list: waits until handler_busy is 0
    | Storing                            // saw 0, about to store 1
    | Grabbing                           // about to empty the mailbox
    | Handling(list: int)                // at the head of the handler's loop
    | Applying(request: int, list: int)  // about to run the body of `request`
    | Finishing(request: int, list: int) // about to set its status
    | Releasing                          // about to store 0 in handler_busy
    | Waiting                            // not first: waits for its status

  datatype State = State(
    mailbox: int,
    next: seq<int>,       // my_next of each operation
    finished: seq<bool>,  // status of each operation
    busy: bool,           // handler_busy
    threads: seq<Phase>,
    // history: what the pointers mean, and what was called and run
    box: seq<int>,        // the operations in the mailbox, newest first
    todo: seq<int>,       // those the handler has grabbed and not yet started
    handler: int,         // the thread that set handler_busy
    begun: seq<nat>,      // calls of execute by each thread
    applied: seq<nat>)    // runs of each thread's operation bodies

  /** The only kind of thread that may set handler_busy. */
  predicate Waits(ph: Phase) {
    ph.Spinning? || ph.Storing? || ph.Grabbing?
  }

  predicate Handles(ph: Phase) {
    ph.Grabbing? || ph.Handling? || ph.Applying? || ph.Finishing? || ph.Releasing?
  }

  predicate AtRequest(ph: Phase) {
    ph.Applying? || ph.Finishing?
  }

  /** In execute, with its operation handed over. */
  predicate Submitted(ph: Phase) {
    Waits(ph) || Handles(ph) || ph.Waiting?
  }

  /** The thread's step; `s` itself where it has to wait. */
  function Step(s: State, t: nat): (s': State)
    requires t < |s.threads| == |s.next| == |s.finished| == |s.begun| == |s.applied|
  {
    match s.threads[t]
    case Idle =>
      Move(s.(finished := s.finished[t := false], begun := s.begun[t := s.begun[t] + 1]), t, Reading)
    case Reading => Move(s.(next := s.next[t := s.mailbox]), t, Swapping(s.mailbox))
    case Swapping(res) =>
      if s.mailbox == res then
        Move(s.(mailbox := t, box := [t] + s.box), t, if res == NULL then Spinning else Waiting)
      else Move(s, t, Reading)
    case Spinning => if s.busy then s else Move(s, t, Storing)
    case Storing => Move(s.(busy := true, handler := t), t, Grabbing)
    case Grabbing => Move(s.(mailbox := NULL, box := [], todo := s.box), t, Handling(s.mailbox))
    case Handling(list) =>
      if list == NULL then Move(s, t, Releasing)
      else if 0 <= list < |s.next| && s.todo != [] then
        Move(s.(todo := s.todo[1..]), t, Applying(list, s.next[list]))
      else s
    case Applying(request, list) =>
      if 0 <= request < |s.applied| then
        Move(s.(applied := s.applied[request := s.applied[request] + 1]), t, Finishing(request, list))
      else s
    case Finishing(request, list) =>
      if 0 <= request < |s.finished| then
        Move(s.(finished := s.finished[request := true]), t, Handling(list))
      else s
    case Releasing => Move(s.(busy := false, handler := NULL), t, Idle)
    case Waiting => if s.finished[t] then Move(s, t, Idle) else s
  }

  function Move(s: State, t: nat, ph: Phase): (s': State)
    requires t < |s.threads|
  {
    s.(threads := s.threads[t := ph])
  }

  // ---------- the invariant ----------

  /** Following my_next from p visits exactly `ops`. */
  predicate Chain(next: seq<int>, p: int, ops: seq<int>) {
    && p == (if ops == [] then NULL else ops[0])
    && (forall i | 0 <= i < |ops| :: 0 <= ops[i] < |next|)
    && (forall i {:trigger LinkAt(next, ops, i)} | 0 <= i < |ops| :: LinkAt(next, ops, i))
  }

  predicate LinkAt(next: seq<int>, ops: seq<int>, i: nat)
    requires i < |ops| && 0 <= ops[i] < |next|
  {
    next[ops[i]] == if i + 1 < |ops| then ops[i + 1] else NULL
  }

  predicate Distinct(ops: seq<int>) {
    forall i, j | 0 <= i < j < |ops| :: ops[i] != ops[j]
  }

  /** The operation the handler is working on. */
  function Current(s: State): (r: int) {
    if 0 <= s.handler < |s.threads| && AtRequest(s.threads[s.handler]) then s.threads[s.handler].request else NULL
  }

  predicate Lengths(s: State) {
    |s.threads| == |s.next| == |s.finished| == |s.begun| == |s.applied|
  }

  predicate Lists(s: State) {
    && Chain(s.next, s.mailbox, s.box) && Distinct(s.box) && Distinct(s.todo)
    && (forall op | op in s.box :: op !in s.todo && op != Current(s))
    && (forall op | op in s.todo :: op != Current(s))
    && (s.todo != [] ==> 0 <= s.handler < |s.threads|)
  }

  /** One thread at most waits to handle, the one whose operation is the oldest in the mailbox; one at most handles. */
  predicate Roles(s: State) {
    && (forall t {:trigger s.threads[t]} | 0 <= t < |s.threads| ::
          Waits(s.threads[t]) <==> s.box != [] && t == s.box[|s.box| - 1])
    && (forall t {:trigger s.threads[t]} | 0 <= t < |s.threads| :: Handles(s.threads[t]) <==> t == s.handler)
    && (s.busy <==> s.handler != NULL)
    && NULL <= s.handler < |s.threads|
    && (forall t {:trigger s.threads[t]} | 0 <= t < |s.threads| && s.threads[t].Storing? :: !s.busy)
  }

  /** Handed over and not yet run. */
  predicate Unrun(s: State, t: nat) {
    t in s.box || t in s.todo || (t == Current(s) && s.threads[s.handler].Applying?)
  }

  predicate OperationOk(s: State, t: nat)
    requires Lengths(s) && t < |s.threads|
  {
    var ph := s.threads[t];
    && (Unrun(s, t) || t == Current(s) ==> Submitted(ph) && !s.finished[t])
    && (Submitted(ph) && !s.finished[t] ==> Unrun(s, t) || t == Current(s))
    && (s.begun[t] == s.applied[t] + if Unrun(s, t) || ph.Reading? || ph.Swapping? then 1 else 0)
    && (ph.Swapping? ==> s.next[t] == ph.res)
    && (ph.Reading? || ph.Swapping? ==> !s.finished[t])
    && (Handles(ph) && !ph.Grabbing? ==> t !in s.box)
    && (ph.Handling? ==> Chain(s.next, ph.list, s.todo))
    && (AtRequest(ph) ==> Chain(s.next, ph.list, s.todo) && 0 <= ph.request < |s.threads|)
    && (ph.Releasing? ==> s.finished[t] && s.todo == [])
    && (ph.Grabbing? ==> s.todo == [])
  }

  predicate Inv(s: State) {
    && Lengths(s) && Lists(s) && Roles(s)
    && (forall t {:trigger OperationOk(s, t)} | 0 <= t < |s.threads| :: OperationOk(s, t))
  }

  predicate Start(s: State) {
    && Lengths(s) && s.mailbox == NULL && !s.busy && s.box == [] && s.todo == [] && s.handler == NULL
    && forall t | 0 <= t < |s.threads| :: s.threads[t].Idle? && s.begun[t] == s.applied[t] == 0
  }

  lemma ChainUntouched(next: seq<int>, p: int, ops: seq<int>, t: nat, v: int)
    requires Chain(next, p, ops) && t < |next| && t !in ops
    ensures Chain(next[t := v], p, ops)
  {
    var next' := next[t := v];
    forall i | 0 <= i < |ops| ensures LinkAt(next', ops, i) {
      assert LinkAt(next, ops, i);
    }
  }

  lemma ChainPushed(next: seq<int>, p: int, ops: seq<int>, t: nat)
    requires Chain(next, p, ops) && t < |next| && next[t] == p
    ensures Chain(next, t, [t] + ops)
  {
    forall i | 0 <= i < |ops| + 1 ensures LinkAt(next, [t] + ops, i) {
      assert i > 0 ==> LinkAt(next, ops, i - 1);
    }
  }

  lemma ChainRest(next: seq<int>, p: int, ops: seq<int>)
    requires Chain(next, p, ops) && ops != []
    ensures 0 <= p < |next| && p == ops[0] && Chain(next, next[p], ops[1..])
  {
    assert LinkAt(next, ops, 0);
    forall i | 0 <= i < |ops| - 1 ensures LinkAt(next, ops[1..], i) {
      assert LinkAt(next, ops, i + 1);
    }
  }

  lemma IdleStep(s: State, t: nat)
    requires Inv(s) && t < |s.threads| && s.threads[t].Idle?
    ensures Inv(Step(s, t))
  {
    var s' := Step(s, t);
    assert OperationOk(s, t);
    forall u | 0 <= u < |s.threads| ensures OperationOk(s', u) {
      assert OperationOk(s, u);
    }
  }

  lemma ReadingStep(s: State, t: nat)
    requires Inv(s) && t < |s.threads| && s.threads[t].Reading?
    ensures Inv(Step(s, t))
  {
    var s' := Step(s, t);
    assert OperationOk(s, t);
    ChainUntouched(s.next, s.mailbox, s.box, t, s.mailbox);
    forall u | 0 <= u < |s.threads| ensures OperationOk(s', u) {
      assert OperationOk(s, u);
      if AtRequest(s.threads[u]) || s.threads[u].Handling? {
        ChainUntouched(s.next, s.threads[u].list, s.todo, t, s.mailbox);
      }
    }
  }

  lemma SwapLost(s: State, t: nat)
    requires Inv(s) && t < |s.threads| && s.threads[t].Swapping? && s.mailbox != s.threads[t].res
    ensures Inv(Step(s, t))
  {
    assert OperationOk(s, t);
    forall u | 0 <= u < |s.threads| ensures OperationOk(Step(s, t), u) {
      assert OperationOk(s, u);
    }
  }

  lemma SwapWon(s: State, t: nat)
    requires Inv(s) && t < |s.threads| && s.threads[t].Swapping? && s.mailbox == s.threads[t].res
    ensures Inv(Step(s, t))
  {
    var s' := Step(s, t);
    assert OperationOk(s, t);
    ChainPushed(s.next, s.mailbox, s.box, t);
    assert forall op :: op in s'.box <==> op == t || op in s.box;
    assert s.box != [] ==> s'.box[|s'.box| - 1] == s.box[|s.box| - 1];
    forall u | 0 <= u < |s.threads| ensures OperationOk(s', u) {
      assert OperationOk(s, u);
    }
  }

  lemma SpinningStep(s: State, t: nat)
    requires Inv(s) && t < |s.threads| && s.threads[t].Spinning?
    ensures Inv(Step(s, t))
  {
    var s' := Step(s, t);
    assert OperationOk(s, t);
    forall u | 0 <= u < |s.threads| ensures OperationOk(s', u) {
      assert OperationOk(s, u);
    }
  }

  lemma StoringStep(s: State, t: nat)
    requires Inv(s) && t < |s.threads| && s.threads[t].Storing?
    ensures Inv(Step(s, t))
  {
    var s' := Step(s, t);
    assert OperationOk(s, t);
    forall u | 0 <= u < |s.threads| ensures OperationOk(s', u) {
      assert OperationOk(s, u);
    }
  }

  lemma GrabbingStep(s: State, t: nat)
    requires Inv(s) && t < |s.threads| && s.threads[t].Grabbing?
    ensures Inv(Step(s, t))
  {
    var s' := Step(s, t);
    assert OperationOk(s, t);
    forall u | 0 <= u < |s.threads| ensures OperationOk(s', u) {
      assert OperationOk(s, u);
    }
  }

  lemma HandlingStep(s: State, t: nat)
    requires Inv(s) && t < |s.threads| && s.threads[t].Handling?
    ensures Inv(Step(s, t))
  {
    var s' := Step(s, t);
    assert OperationOk(s, t);
    if s.threads[t].list != NULL {
      ChainRest(s.next, s.threads[t].list, s.todo);
      assert forall op :: op in s.todo <==> op == s.todo[0] || op in s.todo[1..];
    }
    forall u | 0 <= u < |s.threads| ensures OperationOk(s', u) {
      assert OperationOk(s, u);
    }
  }

  lemma ApplyingStep(s: State, t: nat)
    requires Inv(s) && t < |s.threads| && s.threads[t].Applying?
    ensures Inv(Step(s, t))
  {
    var s' := Step(s, t);
    assert OperationOk(s, t);
    forall u | 0 <= u < |s.threads| ensures OperationOk(s', u) {
      assert OperationOk(s, u);
    }
  }

  lemma FinishingStep(s: State, t: nat)
    requires Inv(s) && t < |s.threads| && s.threads[t].Finishing?
    ensures Inv(Step(s, t))
  {
    var s' := Step(s, t);
    assert OperationOk(s, t);
    forall u | 0 <= u < |s.threads| ensures OperationOk(s', u) {
      assert OperationOk(s, u);
    }
  }

  lemma ReleasingStep(s: State, t: nat)
    requires Inv(s) && t < |s.threads| && s.threads[t].Releasing?
    ensures Inv(Step(s, t))
  {
    var s' := Step(s, t);
    assert OperationOk(s, t);
    forall u | 0 <= u < |s.threads| ensures OperationOk(s', u) {
      assert OperationOk(s, u);
    }
  }

  lemma WaitingStep(s: State, t: nat)
    requires Inv(s) && t < |s.threads| && s.threads[t].Waiting?
    ensures Inv(Step(s, t))
  {
    var s' := Step(s, t);
    assert OperationOk(s, t);
    forall u | 0 <= u < |s.threads| ensures OperationOk(s', u) {
      assert OperationOk(s, u);
    }
  }

  lemma StepKeepsInv(s: State, t: nat)
    requires Inv(s) && t < |s.threads|
    ensures Inv(Step(s, t))
  {
    match s.threads[t]
    case Idle => IdleStep(s, t);
    case Reading => ReadingStep(s, t);
    case Swapping(res) => if s.mailbox == res { SwapWon(s, t); } else { SwapLost(s, t); }
    case Spinning => SpinningStep(s, t);
    case Storing => StoringStep(s, t);
    case Grabbing => GrabbingStep(s, t);
    case Handling(_) => HandlingStep(s, t);
    case Applying(_, _) => ApplyingStep(s, t);
    case Finishing(_, _) => FinishingStep(s, t);
    case Releasing => ReleasingStep(s, t);
    case Waiting => WaitingStep(s, t);
  }

  // ---------- every run ----------

  datatype History = Begun(start: State) | Then(past: History, thread: nat)

  /** The state after any interleaving. */
  function After(h: History): (s: State)
    requires Fresh(h)
    ensures Inv(s) && |s.threads| == Threads(h)
  {
    match h
    case Begun(s0) =>
      assert forall t | 0 <= t < |s0.threads| :: OperationOk(s0, t);
      s0
    case Then(past, t) =>
      StepKeepsInv(After(past), t);
      Step(After(past), t)
  }

  function Threads(h: History): (n: nat) {
    match h
    case Begun(s0) => |s0.threads|
    case Then(past, _) => Threads(past)
  }

  predicate Fresh(h: History) {
    match h
    case Begun(s0) => Start(s0)
    case Then(past, t) => Fresh(past) && t < Threads(past)
  }

  /** At most one thread waits to handle, and one does exactly while the mailbox is not empty. */
  lemma OneWaiter(h: History, t: nat, u: nat)
    requires Fresh(h) && t < Threads(h) && u < Threads(h)
    ensures Waits(After(h).threads[t]) && Waits(After(h).threads[u]) ==> t == u
    ensures After(h).mailbox != NULL <==> exists v | 0 <= v < Threads(h) :: Waits(After(h).threads[v])
  {
    var s := After(h);
    if s.box != [] {
      assert 0 <= s.box[|s.box| - 1] < |s.next|;
      assert Waits(s.threads[s.box[|s.box| - 1]]);
    }
  }

  /** At most one thread handles operations, although handler_busy is set by a plain store. */
  lemma OneHandler(h: History, t: nat, u: nat)
    requires Fresh(h) && t < Threads(h) && u < Threads(h)
    ensures Handles(After(h).threads[t]) && Handles(After(h).threads[u]) ==> t == u
    ensures After(h).busy <==> exists v | 0 <= v < Threads(h) :: Handles(After(h).threads[v])
  {
    var s := After(h);
    if s.busy {
      assert Handles(s.threads[s.handler]);
    }
  }

  /**
   Exactly once: a thread between two calls has had each of its operations run once, and a thread
   inside a call has had it run at most once so far, after it was handed over.
   */
  lemma ExactlyOnce(h: History, t: nat)
    requires Fresh(h) && t < Threads(h)
    ensures (var s := After(h);
             && (s.threads[t].Idle? ==> s.applied[t] == s.begun[t])
             && (s.threads[t].Reading? || s.threads[t].Swapping? ==> s.applied[t] + 1 == s.begun[t])
             && s.applied[t] <= s.begun[t] <= s.applied[t] + 1)
  {
    assert OperationOk(After(h), t);
  }

  /** How often thread t called execute. */
  function Calls(h: History, t: nat): (n: nat)
    requires Fresh(h) && t < Threads(h)
  {
    match h
    case Begun(_) => 0
    case Then(past, u) => Calls(past, t) + if u == t && After(past).threads[t].Idle? then 1 else 0
  }

  /** How often the operation of thread t was run. */
  function Runs(h: History, t: nat): (n: nat)
    requires Fresh(h) && t < Threads(h)
  {
    match h
    case Begun(_) => 0
    case Then(past, u) =>
      Runs(past, t) + if After(past).threads[u].Applying? && After(past).threads[u].request == t then 1 else 0
  }

  /** Calls are counted where they begin, and runs where the body runs. */
  lemma StepCounts(s: State, u: nat, t: nat)
    requires Lengths(s) && u < |s.threads| && t < |s.threads|
    requires s.threads[u].Applying? ==> 0 <= s.threads[u].request < |s.threads|
    ensures (var s' := Step(s, u);
             && |s'.begun| == |s.begun| && |s'.applied| == |s.applied|
             && s'.begun[t] == s.begun[t] + (if u == t && s.threads[t].Idle? then 1 else 0)
             && s'.applied[t] ==
                s.applied[t] + (if s.threads[u].Applying? && s.threads[u].request == t then 1 else 0))
  {
  }

  lemma RequestIsThread(s: State, u: nat)
    requires Inv(s) && u < |s.threads| && s.threads[u].Applying?
    ensures 0 <= s.threads[u].request < |s.threads|
  {
    assert OperationOk(s, u);
    assert u == s.handler;
  }

  lemma {:induction false} CountersCount(h: History, t: nat)
    requires Fresh(h) && t < Threads(h)
    ensures After(h).begun[t] == Calls(h, t) && After(h).applied[t] == Runs(h, t)
  {
    match h
    case Begun(_) =>
    case Then(past, u) =>
      CountersCount(past, t);
      if After(past).threads[u].Applying? {
        RequestIsThread(After(past), u);
      }
      StepCounts(After(past), u, t);
  }

  /** The same of the calls and runs that the steps of the run make. */
  lemma RunsMatchCalls(h: History, t: nat)
    requires Fresh(h) && t < Threads(h)
    ensures Runs(h, t) <= Calls(h, t) <= Runs(h, t) + 1
    ensures After(h).threads[t].Idle? ==> Runs(h, t) == Calls(h, t)
  {
    CountersCount(h, t);
    ExactlyOnce(h, t);
  }

  /** A body runs only while its thread is inside execute, with its operation handed over and unfinished. */
  lemma RunsInsideItsCall(h: History, t: nat)
    requires Fresh(h) && t < Threads(h) && AtRequest(After(h).threads[t])
    ensures (var s, r := After(h), After(h).threads[t].request;
             && 0 <= r < Threads(h) && Submitted(s.threads[r]) && !s.finished[r]
             && (s.threads[t].Applying? ==> s.applied[r] + 1 == s.begun[r])
             && (s.threads[t].Finishing? ==> s.applied[r] == s.begun[r]))
  {
    var s := After(h);
    assert OperationOk(s, t);
    assert t == s.handler;
    assert OperationOk(s, s.threads[t].request);
  }

  /** The handler reads my_next only of operations whose threads are still inside execute. */
  lemma NextIsAlive(h: History, t: nat)
    requires Fresh(h) && t < Threads(h) && After(h).threads[t].Handling? && After(h).threads[t].list != NULL
    ensures (var s, r := After(h), After(h).threads[t].list;
             0 <= r < Threads(h) && Submitted(s.threads[r]) && !s.finished[r] && s.applied[r] + 1 == s.begun[r])
  {
    var s := After(h);
    assert OperationOk(s, t);
    assert s.todo != [];
    assert s.todo[0] in s.todo;
    assert OperationOk(s, s.todo[0]);
  }

  /** The status of the handling thread's own operation is set before it returns. */
  lemma OwnOperationIsDone(h: History, t: nat)
    requires Fresh(h) && t < Threads(h) && After(h).threads[t].Releasing?
    ensures After(h).finished[t] && After(h).applied[t] == After(h).begun[t]
  {
    var s := After(h);
    assert OperationOk(s, t);
    assert t == s.handler;
  }

  lemma HandlerMoves(s: State)
    requires Inv(s) && s.busy
    ensures 0 <= s.handler < |s.threads| && !s.threads[s.handler].Idle? && Step(s, s.handler) != s
  {
    var t := s.handler;
    assert Handles(s.threads[t]) && OperationOk(s, t);
    assert s.threads[t] != Step(s, t).threads[t];
  }

  lemma WaiterMoves(s: State)
    requires Inv(s) && !s.busy && s.box != []
    ensures (var t := s.box[|s.box| - 1]; 0 <= t < |s.threads| && !s.threads[t].Idle? && Step(s, t) != s)
  {
    var t := s.box[|s.box| - 1];
    assert 0 <= t < |s.next|;
    assert Waits(s.threads[t]);
    assert s.threads[t].Grabbing? ==> Handles(s.threads[t]);
    assert s.threads[t] != Step(s, t).threads[t];
  }

  /** With no handler and nothing in the mailbox, a thread inside execute is submitting or done. */
  lemma OthersMove(s: State, t: nat)
    requires Inv(s) && !s.busy && s.box == [] && t < |s.threads| && !s.threads[t].Idle?
    ensures Step(s, t) != s
  {
    assert OperationOk(s, t);
    assert !Handles(s.threads[t]) && !Waits(s.threads[t]);
    assert s.threads[t] != Step(s, t).threads[t];
  }

  /** No lost wake-up: while a call is pending, some thread that is inside execute can take a step. */
  lemma SomeoneCanMove(h: History, t: nat) returns (u: nat)
    requires Fresh(h) && t < Threads(h) && !After(h).threads[t].Idle?
    ensures u < Threads(h) && !After(h).threads[u].Idle? && Step(After(h), u) != After(h)
  {
    var s := After(h);
    if s.busy {
      HandlerMoves(s);
      u := s.handler;
    } else if s.box != [] {
      WaiterMoves(s);
      u := s.box[|s.box| - 1];
    } else {
      OthersMove(s, t);
      u := t;
    }
  }
}
