/**
 tbb/concurrent_priority_queue.h: the handler that executes a batch of concurrent pushes and pops
 on a vector whose first `mark` elements form a binary heap and whose rest is not sorted in yet.
 */
module PriorityQueue {

  // `compare` looks at the priority only: elements of equal priority stay distinguishable.
  datatype Elem = Elem(prio: int, tag: int)

  predicate Less(a: Elem, b: Elem) {
    a.prio < b.prio
  }

  // ---------- the sequential priority queue that a batch is measured against ----------

  datatype Op = Push(elem: Elem) | Pop

  datatype Result = Waiting | Pushed | Popped(elem: Elem) | Failed

  /** `r` is a possible answer to `op` on a max-priority queue that holds `q`. */
  ghost predicate Legal(q: multiset<Elem>, op: Op, r: Result) {
    match op
    case Push(_) => r == Pushed
    case Pop =>
      if r.Popped? then r.elem in q && forall x | x in q :: x.prio <= r.elem.prio
      else r.Failed? && q == multiset{}
  }

  function Effect(q: multiset<Elem>, op: Op, r: Result): multiset<Elem> {
    match op
    case Push(e) => q + multiset{e}
    case Pop => if r.Popped? then q - multiset{r.elem} else q
  }

  /** An operation of the batch, by its position, with the result it got. */
  datatype Call = Call(id: nat, op: Op, res: Result)

  /** A sequential execution, the latest call outermost. */
  datatype History = Start | Then(past: History, call: Call)

  /** What the queue holds after `calls`, executed one by one from `q`. */
  function After(q: multiset<Elem>, calls: History): multiset<Elem> {
    match calls
    case Start => q
    case Then(past, c) => Effect(After(q, past), c.op, c.res)
  }

  ghost predicate AllLegal(q: multiset<Elem>, calls: History) {
    match calls
    case Start => true
    case Then(past, c) => AllLegal(q, past) && Legal(After(q, past), c.op, c.res)
  }

  /** How often position `i` of the batch is executed. */
  function Executions(calls: History, i: nat): nat {
    match calls
    case Start => 0
    case Then(past, c) => Executions(past, i) + if c.id == i then 1 else 0
  }

  /** Every call is one of the batch and has the recorded result. */
  ghost predicate Answered(calls: History, ops: seq<Op>, res: seq<Result>)
    requires |res| == |ops|
  {
    match calls
    case Start => true
    case Then(past, c) => Answered(past, ops, res) && c.id < |ops| && c.op == ops[c.id] && c.res == res[c.id]
  }

  /** `calls` executes every operation of the batch once and explains all its results sequentially. */
  ghost predicate Linearizes(calls: History, ops: seq<Op>, res: seq<Result>, before: multiset<Elem>,
                             after: multiset<Elem>)
  {
    && |res| == |ops|
    && (forall i: nat :: Executions(calls, i) == if i < |ops| then 1 else 0)
    && Answered(calls, ops, res)
    && AllLegal(before, calls)
    && After(before, calls) == after
  }

  // ---------- how often an element occurs in a vector ----------

  /** Occurrences of `x` among the first `m` elements. */
  function Count<T(==)>(s: seq<T>, m: nat, x: T): nat
    requires m <= |s|
  {
    if m == 0 then 0 else Count(s, m - 1, x) + if s[m - 1] == x then 1 else 0
  }

  lemma {:induction false} CountSame<T>(s: seq<T>, s': seq<T>, m: nat, x: T)
    requires m <= |s| && m <= |s'| && forall i | 0 <= i < m :: s[i] == s'[i]
    ensures Count(s, m, x) == Count(s', m, x)
  {
    if m > 0 {
      CountSame(s, s', m - 1, x);
    }
  }

  lemma {:induction false} CountUpdate<T>(s: seq<T>, m: nat, i: nat, y: T, x: T)
    requires i < m <= |s|
    ensures Count(s[i := y], m, x) + (if s[i] == x then 1 else 0) == Count(s, m, x) + if y == x then 1 else 0
  {
    if i == m - 1 {
      CountSame(s, s[i := y], m - 1, x);
    } else {
      CountUpdate(s, m - 1, i, y, x);
    }
  }

  lemma {:induction false} CountPositive<T>(s: seq<T>, m: nat, x: T)
    requires m <= |s|
    ensures Count(s, m, x) > 0 <==> exists i :: 0 <= i < m && s[i] == x
  {
    if m > 0 {
      CountPositive(s, m - 1, x);
    }
  }

  lemma {:induction false} CountIsMultiset<T>(s: seq<T>, x: T)
    ensures Count(s, |s|, x) == multiset(s)[x]
  {
    if s != [] {
      var n := |s| - 1;
      CountSame(s, s[..n], n, x);
      CountIsMultiset(s[..n], x);
      assert s == s[..n] + [s[n]];
    }
  }

  lemma CountWithoutLast<T>(s: seq<T>, x: T)
    requires s != []
    ensures Count(s, |s|, x) == Count(s[..|s| - 1], |s| - 1, x) + if s[|s| - 1] == x then 1 else 0
  {
    CountSame(s, s[..|s| - 1], |s| - 1, x);
  }

  lemma CountWithLast<T>(s: seq<T>, y: T, x: T)
    ensures Count(s + [y], |s| + 1, x) == Count(s, |s|, x) + if y == x then 1 else 0
  {
    CountSame(s, s + [y], |s|, x);
  }

  /** The first element is replaced by the last one, whose slot disappears. */
  function MoveLastToFront<T>(s: seq<T>): seq<T>
    requires s != []
  {
    s[0 := s[|s| - 1]][..|s| - 1]
  }

  lemma CountMoveLast<T>(s: seq<T>, x: T)
    requires s != []
    ensures Count(s, |s|, x) == Count(MoveLastToFront(s), |s| - 1, x) + if s[0] == x then 1 else 0
  {
    var t := s[0 := s[|s| - 1]];
    CountUpdate(s, |s|, 0, s[|s| - 1], x);
    CountWithoutLast(t, x);
  }

  /** The first `m` elements of both vectors are the same but for their order. */
  ghost predicate SameBag(s: seq<Elem>, s': seq<Elem>, m: nat) {
    m <= |s| && m <= |s'| && forall x {:trigger Count(s', m, x)} :: Count(s, m, x) == Count(s', m, x)
  }

  // ---------- the heap ----------

  function Parent(i: int): int {
    (i - 1) / 2
  }

  ghost predicate Under(d: seq<Elem>, i: int)
    requires 1 <= i < |d|
  {
    d[i].prio <= d[Parent(i)].prio
  }

  ghost predicate Heap(d: seq<Elem>, m: nat)
    requires m <= |d|
  {
    forall i {:trigger Under(d, i)} | 1 <= i < m :: Under(d, i)
  }

  lemma {:induction false} TopIsMax(d: seq<Elem>, m: nat, i: nat)
    requires i < m <= |d| && Heap(d, m)
    ensures d[i].prio <= d[0].prio
  {
    if i > 0 {
      assert Under(d, i);
      TopIsMax(d, m, Parent(i));
    }
  }

  lemma TopIsMaxOf(d: seq<Elem>, m: nat, q: multiset<Elem>)
    requires 0 < m <= |d| && Heap(d, m) && Holds(d, m, q)
    ensures d[0] in q && forall x | x in q :: x.prio <= d[0].prio
  {
    CountPositive(d, m, d[0]);
    assert q[d[0]] == Count(d, m, d[0]);
    forall x | x in q
      ensures x.prio <= d[0].prio
    {
      assert q[x] == Count(d, m, x);
      CountPositive(d, m, x);
      var i :| 0 <= i < m && d[i] == x;
      TopIsMax(d, m, i);
    }
  }

  /** The first `m` elements of `d` are what the queue holds. */
  ghost predicate Holds(d: seq<Elem>, m: nat, q: multiset<Elem>)
    requires m <= |d|
  {
    forall x :: q[x] == Count(d, m, x)
  }

  // ---------- pushing up ----------

  /** `f` is a heap but for the element at `cur`, which may be above its parent. */
  ghost predicate HeapButUp(f: seq<Elem>, m: nat, cur: nat)
    requires cur < m <= |f|
  {
    && (forall i {:trigger Under(f, i)} | 1 <= i < m && i != cur :: Under(f, i))
    && (cur > 0 ==> forall i | 1 <= i < m && Parent(i) == cur :: f[i].prio <= f[Parent(cur)].prio)
  }

  lemma SwapUp(f: seq<Elem>, m: nat, cur: nat)
    requires 0 < cur < m <= |f| && HeapButUp(f, m, cur) && Less(f[Parent(cur)], f[cur])
    ensures HeapButUp(f[cur := f[Parent(cur)]][Parent(cur) := f[cur]], m, Parent(cur))
  {
    var p := Parent(cur);
    var g := f[cur := f[p]][p := f[cur]];
    forall i | 1 <= i < m && i != p
      ensures Under(g, i)
    {
      if i != cur {
        assert Under(f, i);
      }
    }
    if p > 0 {
      assert Under(f, p);
      forall i | 1 <= i < m && Parent(i) == p
        ensures g[i].prio <= g[Parent(p)].prio
      {
        if i != cur {
          assert Under(f, i);
        }
      }
    }
  }

  lemma UpDone(f: seq<Elem>, m: nat, cur: nat)
    requires cur < m <= |f| && HeapButUp(f, m, cur) && (cur > 0 ==> !Less(f[Parent(cur)], f[cur]))
    ensures Heap(f, m)
  {
    if cur > 0 {
      assert Under(f, cur);
    }
  }

  // ---------- pushing down ----------

  /** `f` is a heap but for the element at `cur`, which may be below its children. */
  ghost predicate HeapButDown(f: seq<Elem>, m: nat, cur: nat)
    requires cur < m <= |f|
  {
    && (forall i {:trigger Under(f, i)} | 1 <= i < m && Parent(i) != cur :: Under(f, i))
    && (cur > 0 ==> forall i | 1 <= i < m && Parent(i) == cur :: f[i].prio <= f[Parent(cur)].prio)
  }

  lemma SwapDown(f: seq<Elem>, m: nat, cur: nat, target: nat)
    requires cur < m <= |f| && HeapButDown(f, m, cur)
    requires 1 <= target < m && Parent(target) == cur && !Less(f[target], f[cur])
    requires forall i | 1 <= i < m && Parent(i) == cur :: f[i].prio <= f[target].prio
    ensures HeapButDown(f[cur := f[target]][target := f[cur]], m, target)
  {
    var g := f[cur := f[target]][target := f[cur]];
    forall i | 1 <= i < m && Parent(i) != target
      ensures Under(g, i)
    {
      if i == cur {
        assert f[target].prio <= f[Parent(cur)].prio;
      } else if Parent(i) != cur {
        assert Under(f, i);
      }
    }
    forall i | 1 <= i < m && Parent(i) == target
      ensures g[i].prio <= g[Parent(target)].prio
    {
      assert Under(f, i);
    }
  }

  lemma DownDone(f: seq<Elem>, m: nat, cur: nat)
    requires cur < m <= |f| && HeapButDown(f, m, cur)
    requires forall i | 1 <= i < m && Parent(i) == cur :: f[i].prio <= f[cur].prio
    ensures Heap(f, m)
  {
    forall i | 1 <= i < m
      ensures Under(f, i)
    {
      if Parent(i) != cur {
        assert Under(f, i);
      }
    }
  }

  lemma BagSwap(f: seq<Elem>, i: nat, j: nat, m: nat)
    requires i < m <= |f| && j < m
    ensures SameBag(f, f[i := f[j]][j := f[i]], m)
  {
    forall x
      ensures Count(f, m, x) == Count(f[i := f[j]][j := f[i]], m, x)
    {
      CountUpdate(f, m, i, f[j], x);
      CountUpdate(f[i := f[j]], m, j, f[i], x);
    }
  }

  // ---------- the book-keeping of a batch ----------

  /**
   Position `n` of the batch has been reached.  Every operation before it is linearized (`calls`), is
   a push whose element waits behind the mark (`who`), or is a postponed pop (`pops`); what is
   linearized explains exactly the heap.
   */
  ghost predicate Tracks(before: multiset<Elem>, ops: seq<Op>, res: seq<Result>, n: nat,
                         calls: History, who: seq<nat>, pops: seq<nat>, data: seq<Elem>, mark: nat)
  {
    && |res| == |ops| && mark <= |data|
    && Counted(n, calls, who, pops)
    && Answered(calls, ops, res)
    && PushesWait(ops, res, who, data, mark)
    && PopsWait(ops, pops)
    && Explains(before, calls, data, mark)
  }

  ghost predicate Counted(n: nat, calls: History, who: seq<nat>, pops: seq<nat>) {
    forall i: nat {:trigger Executions(calls, i)} ::
      Executions(calls, i) + Count(who, |who|, i) + Count(pops, |pops|, i) == if i < n then 1 else 0
  }

  ghost predicate PushesWait(ops: seq<Op>, res: seq<Result>, who: seq<nat>, data: seq<Elem>, mark: nat)
    requires |res| == |ops| && mark <= |data|
  {
    && |who| == |data| - mark
    && forall j {:trigger who[j]} | 0 <= j < |who| ::
         who[j] < |ops| && ops[who[j]] == Push(data[mark + j]) && res[who[j]] == Pushed
  }

  ghost predicate PopsWait(ops: seq<Op>, pops: seq<nat>) {
    forall i | 0 <= i < |pops| :: pops[i] < |ops| && ops[pops[i]] == Pop
  }

  ghost predicate Explains(before: multiset<Elem>, calls: History, data: seq<Elem>, mark: nat)
    requires mark <= |data|
  {
    AllLegal(before, calls) && Holds(data, mark, After(before, calls))
  }

  lemma {:induction false} AnswersKept(ops: seq<Op>, res: seq<Result>, calls: History, k: nat, r: Result)
    requires |res| == |ops| && k < |ops| && Answered(calls, ops, res) && Executions(calls, k) == 0
    ensures Answered(calls, ops, res[k := r])
  {
    if calls.Then? {
      AnswersKept(ops, res, calls.past, k, r);
    }
  }

  /** The result of an operation that is not answered yet can be set freely. */
  lemma SetResult(ops: seq<Op>, res: seq<Result>, calls: History, who: seq<nat>, data: seq<Elem>, mark: nat, k: nat,
                  r: Result)
    requires |res| == |ops| && k < |ops| && mark <= |data|
    requires Answered(calls, ops, res) && PushesWait(ops, res, who, data, mark)
    requires Executions(calls, k) == 0 && Count(who, |who|, k) == 0
    ensures Answered(calls, ops, res[k := r]) && PushesWait(ops, res[k := r], who, data, mark)
  {
    AnswersKept(ops, res, calls, k, r);
    forall j {:trigger who[j]} | 0 <= j < |who|
      ensures who[j] != k
    {
      CountPositive(who, |who|, who[j]);
    }
  }

  lemma CountNext(n: nat, calls: History, who: seq<nat>, pops: seq<nat>)
    requires Counted(n, calls, who, pops)
    ensures Counted(n + 1, calls, who + [n], pops) && Counted(n + 1, calls, who, pops + [n])
    ensures Executions(calls, n) == 0 && Count(who, |who|, n) == 0
  {
    forall i: nat
      ensures Count(who + [n], |who| + 1, i) == Count(who, |who|, i) + if i == n then 1 else 0
      ensures Count(pops + [n], |pops| + 1, i) == Count(pops, |pops|, i) + if i == n then 1 else 0
    {
      CountWithLast(who, n, i);
      CountWithLast(pops, n, i);
    }
    assert Executions(calls, n) == 0;
  }

  lemma HoldsNothing(d: seq<Elem>, q: multiset<Elem>)
    requires Holds(d, 0, q)
    ensures q == multiset{}
  {
    assert forall x :: q[x] == 0;
  }

  lemma HoldsSame(d: seq<Elem>, d': seq<Elem>, m: nat, q: multiset<Elem>)
    requires m <= |d| && m <= |d'| && Holds(d, m, q) && forall i | 0 <= i < m :: d[i] == d'[i]
    ensures Holds(d', m, q)
  {
    forall x
      ensures q[x] == Count(d', m, x)
    {
      CountSame(d, d', m, x);
    }
  }

  lemma TrackPush(before: multiset<Elem>, ops: seq<Op>, res: seq<Result>, n: nat,
                  calls: History, who: seq<nat>, pops: seq<nat>, data: seq<Elem>, mark: nat)
    requires Tracks(before, ops, res, n, calls, who, pops, data, mark)
    requires n < |ops| && ops[n].Push?
    ensures Tracks(before, ops, res[n := Pushed], n + 1, calls, who + [n], pops, data + [ops[n].elem], mark)
  {
    CountNext(n, calls, who, pops);
    SetResult(ops, res, calls, who, data, mark, n, Pushed);
    HoldsSame(data, data + [ops[n].elem], mark, After(before, calls));
  }

  lemma TrackPostpone(before: multiset<Elem>, ops: seq<Op>, res: seq<Result>, n: nat,
                      calls: History, who: seq<nat>, pops: seq<nat>, data: seq<Elem>, mark: nat)
    requires Tracks(before, ops, res, n, calls, who, pops, data, mark)
    requires n < |ops| && ops[n] == Pop
    ensures Tracks(before, ops, res, n + 1, calls, who, pops + [n], data, mark)
  {
    CountNext(n, calls, who, pops);
  }

  /** The pop to be answered next: the one postponed last. */
  function Next(pops: seq<nat>): nat
    requires pops != []
  {
    pops[|pops| - 1]
  }

  function Others(pops: seq<nat>): seq<nat>
    requires pops != []
  {
    pops[..|pops| - 1]
  }

  /** Answering a postponed pop does not touch any other answer. */
  lemma AnswerPop(ops: seq<Op>, res: seq<Result>, n: nat,
                  calls: History, who: seq<nat>, pops: seq<nat>, data: seq<Elem>, mark: nat, r: Result)
    requires |res| == |ops| && mark <= |data| && pops != []
    requires Counted(n, calls, who, pops) && Answered(calls, ops, res)
    requires PushesWait(ops, res, who, data, mark) && PopsWait(ops, pops)
    ensures Answered(calls, ops, res[Next(pops) := r]) && PushesWait(ops, res[Next(pops) := r], who, data, mark)
    ensures PopsWait(ops, Others(pops)) && Next(pops) < |ops| && ops[Next(pops)] == Pop
  {
    CountPositive(pops, |pops|, Next(pops));
    assert Executions(calls, Next(pops)) == 0;
    SetResult(ops, res, calls, who, data, mark, Next(pops), r);
  }

  /** `gone` and the answered pop move over to the calls. */
  lemma CountAnswer(n: nat, calls: History, who: seq<nat>, pops: seq<nat>, calls': History, who': seq<nat>)
    requires Counted(n, calls, who, pops) && pops != []
    requires forall i: nat {:trigger Executions(calls', i)} ::
      Executions(calls', i) + Count(who', |who'|, i)
      == Executions(calls, i) + Count(who, |who|, i) + if i == Next(pops) then 1 else 0
    ensures Counted(n, calls', who', Others(pops))
  {
    forall i: nat
      ensures Executions(calls', i) + Count(who', |who'|, i) + Count(Others(pops), |pops| - 1, i)
              == if i < n then 1 else 0
    {
      CountWithoutLast(pops, i);
      assert Executions(calls, i) + Count(who, |who|, i) + Count(pops, |pops|, i) == if i < n then 1 else 0;
    }
  }

  lemma LoseLast(ops: seq<Op>, res: seq<Result>, who: seq<nat>, data: seq<Elem>, mark: nat)
    requires |res| == |ops| && mark < |data| && PushesWait(ops, res, who, data, mark)
    ensures |who| > 0 && PushesWait(ops, res, who[..|who| - 1], data[..|data| - 1], mark)
    ensures forall i: nat :: Count(who, |who|, i)
                             == Count(who[..|who| - 1], |who| - 1, i) + if i == who[|who| - 1] then 1 else 0
    ensures who[|who| - 1] < |ops| && ops[who[|who| - 1]] == Push(data[|data| - 1]) && res[who[|who| - 1]] == Pushed
  {
    forall i: nat
      ensures Count(who, |who|, i) == Count(who[..|who| - 1], |who| - 1, i) + if i == who[|who| - 1] then 1 else 0
    {
      CountWithoutLast(who, i);
    }
  }

  /** A pop takes the last element from behind the mark: its push and the pop linearize together. */
  lemma TrackFastPop(before: multiset<Elem>, ops: seq<Op>, res: seq<Result>, n: nat,
                     calls: History, who: seq<nat>, pops: seq<nat>, data: seq<Elem>, mark: nat)
    returns (calls': History, who': seq<nat>)
    requires Tracks(before, ops, res, n, calls, who, pops, data, mark) && pops != []
    requires Heap(data, mark) && mark < |data| && (mark > 0 ==> Less(data[0], data[|data| - 1]))
    ensures Tracks(before, ops, res[Next(pops) := Popped(data[|data| - 1])], n, calls', who', Others(pops),
                   data[..|data| - 1], mark)
  {
    var e := data[|data| - 1];
    var res' := res[Next(pops) := Popped(e)];
    AnswerPop(ops, res, n, calls, who, pops, data, mark, Popped(e));
    LoseLast(ops, res', who, data, mark);
    who' := who[..|who| - 1];
    calls' := PairedCalls(before, ops, res', n, calls, who[|who| - 1], Next(pops), e, data, mark);
    CountAnswer(n, calls, who, pops, calls', who');
    TracksShorter(before, ops, res', n, calls', who', Others(pops), data, mark);
  }

  /** The last element, behind the mark, is gone. */
  lemma TracksShorter(before: multiset<Elem>, ops: seq<Op>, res: seq<Result>, n: nat,
                      calls: History, who: seq<nat>, pops: seq<nat>, data: seq<Elem>, mark: nat)
    requires |res| == |ops| && mark < |data|
    requires Counted(n, calls, who, pops) && Answered(calls, ops, res) && PopsWait(ops, pops)
    requires PushesWait(ops, res, who, data[..|data| - 1], mark) && Explains(before, calls, data, mark)
    ensures Tracks(before, ops, res, n, calls, who, pops, data[..|data| - 1], mark)
  {
    HoldsSame(data, data[..|data| - 1], mark, After(before, calls));
  }

  /** The same for a pop that is answered as soon as it is met. */
  lemma TrackPopNow(before: multiset<Elem>, ops: seq<Op>, res: seq<Result>, n: nat,
                    calls: History, who: seq<nat>, pops: seq<nat>, data: seq<Elem>, mark: nat)
    returns (calls': History, who': seq<nat>)
    requires Tracks(before, ops, res, n, calls, who, pops, data, mark) && n < |ops| && ops[n] == Pop
    requires Heap(data, mark) && mark < |data| && (mark > 0 ==> Less(data[0], data[|data| - 1]))
    ensures Tracks(before, ops, res[n := Popped(data[|data| - 1])], n + 1, calls', who', pops, data[..|data| - 1], mark)
  {
    TrackPostpone(before, ops, res, n, calls, who, pops, data, mark);
    calls', who' := TrackFastPop(before, ops, res, n + 1, calls, who, pops + [n], data, mark);
    assert Others(pops + [n]) == pops;
  }

  /** The push of `e` followed at once by a pop of `e`, for an `e` that no element of the heap outranks. */
  lemma PairedCalls(before: multiset<Elem>, ops: seq<Op>, res: seq<Result>, n: nat, calls: History,
                    j: nat, k: nat, e: Elem, data: seq<Elem>, mark: nat)
    returns (calls': History)
    requires |res| == |ops| && mark <= |data| && Heap(data, mark) && (mark > 0 ==> data[0].prio <= e.prio)
    requires Answered(calls, ops, res) && Explains(before, calls, data, mark)
    requires j < |ops| && ops[j] == Push(e) && res[j] == Pushed
    requires k < |ops| && ops[k] == Pop && res[k] == Popped(e)
    ensures Answered(calls', ops, res) && Explains(before, calls', data, mark)
    ensures forall i: nat ::
      Executions(calls', i) == Executions(calls, i) + (if i == j then 1 else 0) + if i == k then 1 else 0
  {
    var q := After(before, calls);
    if mark > 0 {
      TopIsMaxOf(data, mark, q);
    } else {
      HoldsNothing(data, q);
    }
    var push, pop := Call(j, Push(e), Pushed), Call(k, Pop, Popped(e));
    calls' := Then(Then(calls, push), pop);
  }

  lemma TrackFailedPop(before: multiset<Elem>, ops: seq<Op>, res: seq<Result>, n: nat,
                       calls: History, who: seq<nat>, pops: seq<nat>, data: seq<Elem>, mark: nat)
    requires Tracks(before, ops, res, n, calls, who, pops, data, mark) && pops != [] && data == []
    ensures Tracks(before, ops, res[Next(pops) := Failed], n, Then(calls, Call(Next(pops), Pop, Failed)), who,
                   Others(pops), data, mark)
  {
    AnswerPop(ops, res, n, calls, who, pops, data, mark, Failed);
    HoldsNothing(data, After(before, calls));
    CountAnswer(n, calls, who, pops, Then(calls, Call(Next(pops), Pop, Failed)), who);
  }

  /** The pop of the top. */
  lemma TopCalls(before: multiset<Elem>, ops: seq<Op>, res: seq<Result>, n: nat, calls: History, k: nat,
                 data: seq<Elem>, mark: nat)
    requires |res| == |ops| && 0 < mark <= |data| && Heap(data, mark)
    requires Answered(calls, ops, res) && Explains(before, calls, data, mark)
    requires k < |ops| && ops[k] == Pop && res[k] == Popped(data[0])
    ensures var calls' := Then(calls, Call(k, Pop, Popped(data[0])));
      && Answered(calls', ops, res) && AllLegal(before, calls')
      && After(before, calls') == After(before, calls) - multiset{data[0]} && data[0] in After(before, calls)
      && forall i: nat :: Executions(calls', i) == Executions(calls, i) + if i == k then 1 else 0
  {
    TopIsMaxOf(data, mark, After(before, calls));
  }

  lemma HoldsReplaced(data: seq<Elem>, data': seq<Elem>, mark: nat, q: multiset<Elem>)
    requires 0 < mark < |data| == |data'| + 1 && Holds(data, mark, q) && data[0] in q
    requires FirstReplaced(data, data', mark)
    ensures Holds(data', mark, q - multiset{data[0]} + multiset{data[|data| - 1]})
  {
    forall x ensures (q - multiset{data[0]} + multiset{data[|data| - 1]})[x] == Count(data', mark, x) {
      assert q[x] == Count(data, mark, x);
    }
  }

  /** The pop of the top, then the push of the element that moved up from behind the mark. */
  lemma TopAndPush(before: multiset<Elem>, ops: seq<Op>, res: seq<Result>, n: nat, calls: History,
                   k: nat, j: nat, data: seq<Elem>, mark: nat, data': seq<Elem>)
    returns (calls': History)
    requires |res| == |ops| && 0 < mark < |data| == |data'| + 1 && Heap(data, mark)
    requires Answered(calls, ops, res) && Explains(before, calls, data, mark)
    requires k < |ops| && ops[k] == Pop && res[k] == Popped(data[0])
    requires j < |ops| && ops[j] == Push(data[|data| - 1]) && res[j] == Pushed
    requires FirstReplaced(data, data', mark)
    ensures Answered(calls', ops, res) && Explains(before, calls', data', mark)
    ensures forall i: nat ::
      Executions(calls', i) == Executions(calls, i) + (if i == j then 1 else 0) + if i == k then 1 else 0
  {
    TopCalls(before, ops, res, n, calls, k, data, mark);
    calls' := Then(Then(calls, Call(k, Pop, Popped(data[0]))), Call(j, ops[j], Pushed));
    HoldsReplaced(data, data', mark, After(before, calls));
  }

  /** A pop takes the top of the heap and the last element of the vector fills the gap. */
  lemma TrackTopPop(before: multiset<Elem>, ops: seq<Op>, res: seq<Result>, n: nat,
                    calls: History, who: seq<nat>, pops: seq<nat>, data: seq<Elem>, mark: nat, data': seq<Elem>)
    returns (calls': History, who': seq<nat>)
    requires Tracks(before, ops, res, n, calls, who, pops, data, mark) && pops != []
    requires Heap(data, mark) && 0 < mark < |data| == |data'| + 1
    requires FirstReplaced(data, data', mark)
    requires forall i | mark <= i < |data'| :: data'[i] == data[i]
    ensures Tracks(before, ops, res[Next(pops) := Popped(data[0])], n, calls', who', Others(pops), data', mark)
  {
    var res' := res[Next(pops) := Popped(data[0])];
    AnswerPop(ops, res, n, calls, who, pops, data, mark, Popped(data[0]));
    LoseLast(ops, res', who, data, mark);
    who' := who[..|who| - 1];
    calls' := TopAndPush(before, ops, res', n, calls, Next(pops), who[|who| - 1], data, mark, data');
    CountAnswer(n, calls, who, pops, calls', who');
  }

  /** The same when the whole vector is the heap. */
  lemma TrackLastTopPop(before: multiset<Elem>, ops: seq<Op>, res: seq<Result>, n: nat,
                        calls: History, who: seq<nat>, pops: seq<nat>, data: seq<Elem>, data': seq<Elem>)
    requires Tracks(before, ops, res, n, calls, who, pops, data, |data|) && pops != []
    requires Heap(data, |data|) && 0 < |data| == |data'| + 1
    requires FirstRemoved(data, data')
    ensures Tracks(before, ops, res[Next(pops) := Popped(data[0])], n,
                   Then(calls, Call(Next(pops), Pop, Popped(data[0]))), who, Others(pops), data', |data'|)
  {
    AnswerPop(ops, res, n, calls, who, pops, data, |data|, Popped(data[0]));
    TopCalls(before, ops, res[Next(pops) := Popped(data[0])], n, calls, Next(pops), data, |data|);
    CountAnswer(n, calls, who, pops, Then(calls, Call(Next(pops), Pop, Popped(data[0]))), who);
  }

  lemma DropFirst(ops: seq<Op>, res: seq<Result>, who: seq<nat>, data: seq<Elem>)
    requires |res| == |ops| && PushesWait(ops, res, who, data, 0) && who != []
    ensures PushesWait(ops, res, MoveLastToFront(who), MoveLastToFront(data), 0)
    ensures who[0] < |ops| && ops[who[0]] == Push(data[0]) && res[who[0]] == Pushed
  {
    var who' := MoveLastToFront(who);
    forall i {:trigger who'[i]} | 0 <= i < |who'|
      ensures who'[i] < |ops| && ops[who'[i]] == Push(MoveLastToFront(data)[i]) && res[who'[i]] == Pushed
    {
      var j := if i == 0 then |who| - 1 else i;
      assert who'[i] == who[j] && MoveLastToFront(data)[i] == data[j];
    }
  }

  /** A pop takes the first element while there is no heap: again push and pop linearize together. */
  lemma TrackHeaplessPop(before: multiset<Elem>, ops: seq<Op>, res: seq<Result>, n: nat,
                         calls: History, who: seq<nat>, pops: seq<nat>, data: seq<Elem>)
    returns (calls': History, who': seq<nat>)
    requires Tracks(before, ops, res, n, calls, who, pops, data, 0) && pops != [] && data != []
    ensures Tracks(before, ops, res[Next(pops) := Popped(data[0])], n, calls', who', Others(pops),
                   MoveLastToFront(data), 0)
  {
    var e := data[0];
    var res' := res[Next(pops) := Popped(e)];
    who' := MoveLastToFront(who);
    AnswerPop(ops, res, n, calls, who, pops, data, 0, Popped(e));
    DropFirst(ops, res', who, data);
    forall i: nat
      ensures Count(who, |who|, i) == Count(who', |who'|, i) + if i == who[0] then 1 else 0
    {
      CountMoveLast(who, i);
    }
    calls' := PairedCalls(before, ops, res', n, calls, who[0], Next(pops), e, data, 0);
    CountAnswer(n, calls, who, pops, calls', who');
  }

  /** What a pop of the top does, by the state of the vector before `reheap`. */
  lemma TrackExtract(before: multiset<Elem>, ops: seq<Op>, res: seq<Result>, n: nat,
                     calls: History, who: seq<nat>, pops: seq<nat>, d: seq<Elem>, m: nat, d': seq<Elem>, m': nat)
    returns (calls': History, who': seq<nat>)
    requires Tracks(before, ops, res, n, calls, who, pops, d, m) && pops != []
    requires Extracted(d, m, d', m') && Heap(d, m)
    ensures Tracks(before, ops, res[Next(pops) := Popped(d[0])], n, calls', who', Others(pops), d', m')
  {
    if m == 0 {
      calls', who' := TrackHeaplessPop(before, ops, res, n, calls, who, pops, d);
    } else if m < |d| {
      calls', who' := TrackTopPop(before, ops, res, n, calls, who, pops, d, m, d');
    } else {
      TrackLastTopPop(before, ops, res, n, calls, who, pops, d, d');
      calls', who' := Then(calls, Call(Next(pops), Pop, Popped(d[0]))), who;
    }
  }

  /** The first `m` elements of `d'` are those of `d` with the first one exchanged for the last of `d`. */
  ghost predicate FirstReplaced(d: seq<Elem>, d': seq<Elem>, m: nat)
    requires 0 < m <= |d| && m <= |d'|
  {
    forall x {:trigger Count(d', m, x)} ::
      Count(d', m, x) + (if x == d[0] then 1 else 0) == Count(d, m, x) + if x == d[|d| - 1] then 1 else 0
  }

  ghost predicate FirstRemoved(d: seq<Elem>, d': seq<Elem>)
    requires 0 < |d|
  {
    forall x {:trigger Count(d', |d'|, x)} ::
      Count(d', |d'|, x) + (if x == d[0] then 1 else 0) == Count(d, |d|, x)
  }

  /** `d'`, `m'` are the vector and its mark once the first element of `d` is out. */
  ghost predicate Extracted(d: seq<Elem>, m: nat, d': seq<Elem>, m': nat) {
    && m <= |d| == |d'| + 1
    && m' == (if m > |d'| then |d'| else m)
    && (m == 0 ==> d' == MoveLastToFront(d))
    && (0 < m < |d| ==>
          && FirstReplaced(d, d', m)
          && forall i | m <= i < |d'| :: d'[i] == d[i])
    && (0 < m == |d| ==> FirstRemoved(d, d'))
  }

  lemma {:induction false} CountWithoutFirst<T>(s: seq<T>, m: nat, x: T)
    requires 0 < m <= |s|
    ensures Count(s, m, x) == Count(s[1..], m - 1, x) + if s[0] == x then 1 else 0
  {
    if m > 1 {
      CountWithoutFirst(s, m - 1, x);
    }
  }

  /** The heap grows over the first waiting element, whose push is linearized. */
  lemma FlushOne(before: multiset<Elem>, ops: seq<Op>, res: seq<Result>, n: nat, calls: History,
                 who: seq<nat>, data: seq<Elem>, mark: nat)
    requires Tracks(before, ops, res, n, calls, who, [], data, mark) && who != []
    ensures Tracks(before, ops, res, n, Then(calls, Call(who[0], ops[who[0]], Pushed)), who[1..], [], data, mark + 1)
  {
    var c := Call(who[0], ops[who[0]], Pushed);
    var calls', rest := Then(calls, c), who[1..];
    forall i: nat
      ensures Executions(calls', i) + Count(rest, |rest|, i) + Count<nat>([], 0, i) == if i < n then 1 else 0
    {
      CountWithoutFirst(who, |who|, i);
      assert Executions(calls, i) + Count(who, |who|, i) + Count<nat>([], 0, i) == if i < n then 1 else 0;
    }
    assert PushesWait(ops, res, rest, data, mark + 1) by {
      assert forall j {:trigger rest[j]} | 0 <= j < |rest| :: rest[j] == who[j + 1];
    }
  }

  lemma {:induction false} FlushPushes(before: multiset<Elem>, ops: seq<Op>, res: seq<Result>, n: nat,
                                       calls: History, who: seq<nat>, data: seq<Elem>, mark: nat)
    returns (calls': History)
    requires Tracks(before, ops, res, n, calls, who, [], data, mark)
    ensures Tracks(before, ops, res, n, calls', [], [], data, |data|)
    decreases |who|
  {
    if who == [] {
      calls' := calls;
    } else {
      FlushOne(before, ops, res, n, calls, who, data, mark);
      calls' := FlushPushes(before, ops, res, n, Then(calls, Call(who[0], ops[who[0]], Pushed)), who[1..],
                            data, mark + 1);
    }
  }

  /** The final merge only rearranges the vector, so the waiting pushes are linearized last. */
  lemma TrackHeapify(before: multiset<Elem>, ops: seq<Op>, res: seq<Result>,
                     calls: History, who: seq<nat>, data: seq<Elem>, mark: nat, data': seq<Elem>)
    returns (calls': History)
    requires Tracks(before, ops, res, |ops|, calls, who, [], data, mark)
    requires |data'| == |data| && SameBag(data, data', |data|)
    ensures Linearizes(calls', ops, res, before, multiset(data'))
  {
    calls' := FlushPushes(before, ops, res, |ops|, calls, who, data, mark);
    var q := After(before, calls');
    forall x
      ensures q[x] == multiset(data')[x]
    {
      assert Count(data, |data|, x) == Count(data', |data|, x);
      CountIsMultiset(data', x);
    }
    assert q == multiset(data');
    forall i: nat
      ensures Executions(calls', i) == if i < |ops| then 1 else 0
    {
      assert Count<nat>([], 0, i) == 0;
    }
  }

  lemma SiftUpStart(d: seq<Elem>, m: nat)
    requires 0 < m < |d| && Heap(d, m)
    ensures HeapButUp(d, m + 1, m)
  {
    forall i | 1 <= i < m + 1 && i != m
      ensures Under(d, i)
    {
    }
  }

  /** `d` with a hole at `cur` that stands for `x`; the hole moves to the parent. */
  lemma RaiseHole(d: seq<Elem>, f: seq<Elem>, m: nat, cur: nat, x: Elem) returns (f': seq<Elem>)
    requires 0 < cur < m <= |d| && f == d[cur := x] && HeapButUp(f, m, cur) && Less(d[Parent(cur)], x)
    ensures f' == d[cur := d[Parent(cur)]][Parent(cur) := x]
    ensures HeapButUp(f', m, Parent(cur)) && SameBag(f, f', |f|)
  {
    SwapUp(f, m, cur);
    BagSwap(f, cur, Parent(cur), |f|);
    f' := f[cur := f[Parent(cur)]][Parent(cur) := f[cur]];
  }

  /** The same downwards, to the child that the hole is exchanged with. */
  lemma LowerHole(d: seq<Elem>, f: seq<Elem>, m: nat, cur: nat, target: nat, x: Elem) returns (f': seq<Elem>)
    requires cur < m <= |d| && f == d[cur := x] && HeapButDown(f, m, cur)
    requires 1 <= target < m && Parent(target) == cur && !Less(d[target], x)
    requires forall i | 1 <= i < m && Parent(i) == cur :: f[i].prio <= f[target].prio
    ensures f' == d[cur := d[target]][target := x]
    ensures HeapButDown(f', m, target) && SameBag(f, f', m)
    ensures forall i | m <= i < |d| :: f'[i] == f[i]
  {
    SwapDown(f, m, cur, target);
    BagSwap(f, cur, target, m);
    f' := f[cur := f[target]][target := f[cur]];
  }

  /** `target` is the higher of the two children of `cur`. */
  lemma ChildrenBelow(d: seq<Elem>, f: seq<Elem>, m: nat, cur: nat, target: nat)
    requires cur < m <= |d| && |f| == |d| && f == d[cur := f[cur]]
    requires target == 2 * cur + 1 || target == 2 * cur + 2
    requires target < m
    requires if target == 2 * cur + 1 then target + 1 < m ==> !Less(d[target], d[target + 1])
             else Less(d[target - 1], d[target])
    ensures forall i | 1 <= i < m && Parent(i) == cur :: f[i].prio <= f[target].prio
  {
  }

  lemma ReheapStart(d: seq<Elem>, m: nat, last: Elem)
    requires 0 < m <= |d| && Heap(d, m)
    ensures HeapButDown(d[0 := last], m, 0)
  {
    forall i | 1 <= i < m && Parent(i) != 0
      ensures Under(d[0 := last], i)
    {
      assert Under(d, i);
    }
  }

  /** What the descent leaves, read off the filled-in vector `f` before its last slot is dropped. */
  lemma ReheapDone(d: seq<Elem>, f: seq<Elem>, m: nat, m': nat)
    requires 0 < |d| == |f| && m <= |d| && m' == if m > |d| - 1 then |d| - 1 else m
    requires SameBag(d[0 := d[|d| - 1]], f, m)
    requires forall i | m <= i < |d| :: f[i] == d[0 := d[|d| - 1]][i]
    requires m == |d| ==> f[m - 1] == d[m - 1]
    ensures Extracted(d, m, f[..|d| - 1], m')
  {
    if m == 0 {
      assert f == d[0 := d[|d| - 1]];
    } else {
      forall x
        ensures Count(f, m, x) + (if x == d[0] then 1 else 0) == Count(d, m, x) + if x == d[|d| - 1] then 1 else 0
        ensures Count(f, m', x) == Count(f[..|d| - 1], m', x)
      {
        CountUpdate(d, m, 0, d[|d| - 1], x);
        assert Count(d[0 := d[|d| - 1]], m, x) == Count(f, m, x);
        CountSame(f, f[..|d| - 1], m', x);
      }
    }
  }

  lemma HeapPrefix(d: seq<Elem>, m: nat, d': seq<Elem>, m': nat)
    requires m <= |d| && Heap(d, m) && m' <= m && m' <= |d'|
    requires forall i | 0 <= i < m' :: d'[i] == d[i]
    ensures Heap(d', m')
  {
    forall i | 1 <= i < m'
      ensures Under(d', i)
    {
      assert Under(d, i);
    }
  }

  // ---------- the queue ----------

  class ConcurrentPriorityQueue {
    var data: seq<Elem>
    var mark: nat
    var size: nat

    /** Between two batches the whole vector is a heap. */
    ghost predicate Valid()
      reads this
    {
      mark == size == |data| && Heap(data, mark)
    }

    constructor ()
      ensures Valid() && data == []
    {
      data, mark, size := [], 0, 0;
    }

    /** The elements behind the mark join the heap one by one. */
    method Heapify()
      requires mark <= |data| && Heap(data, mark)
      modifies this`data, this`mark
      ensures mark == |data| && Heap(data, mark)
      ensures |data| == |old(data)| && SameBag(old(data), data, |data|)
    {
      if mark == 0 && |data| > 0 {
        mark := 1;
      }
      while mark < |data|
        invariant mark <= |data| == |old(data)| && Heap(data, mark) && (|data| > 0 ==> mark > 0)
        invariant SameBag(old(data), data, |data|)
      {
        SiftUp();
        mark := mark + 1;
      }
    }

    /** One round of heapify: push the element at `mark` up the heap. */
    method SiftUp()
      requires 0 < mark < |data| && Heap(data, mark)
      modifies this`data
      ensures |data| == |old(data)| && Heap(data, mark + 1)
      ensures |data| == |old(data)| && SameBag(old(data), data, |data|)
    {
      var m := mark + 1;
      var curPos := mark;
      var toPlace := data[mark];
      ghost var f := data;
      SiftUpStart(data, mark);
      while curPos != 0
        invariant 0 <= curPos < m <= |data| == |old(data)| && f == data[curPos := toPlace]
        invariant HeapButUp(f, m, curPos) && SameBag(old(data), f, |f|)
      {
        var parent := Parent(curPos);
        if !Less(data[parent], toPlace) {
          break;
        }
        f := RaiseHole(data, f, m, curPos, toPlace);
        data := data[curPos := data[parent]];
        curPos := parent;
      }
      UpDone(f, m, curPos);
      data := data[curPos := toPlace];
    }

    /** The top is dropped and the last element finds its place below the root. */
    method Reheap()
      requires 0 < |data| && mark <= |data| && Heap(data, mark)
      modifies this`data, this`mark
      ensures mark <= |data| && Heap(data, mark)
      ensures Extracted(old(data), old(mark), data, mark)
    {
      ghost var d := data;
      ghost var f := SiftDown();
      var rest := data[..|data| - 1];
      ghost var m' := if mark > |rest| then |rest| else mark;
      ReheapDone(d, f, mark, m');
      HeapPrefix(f, mark, rest, m');
      data := rest;
      if mark > |data| {
        mark := |data|;
      }
    }

    /** The descent of reheap: finds the place of the last element and copies it there. */
    method SiftDown() returns (ghost f: seq<Elem>)
      requires 0 < |data| && mark <= |data| && Heap(data, mark)
      modifies this`data
      ensures f == data && |data| == |old(data)| && Heap(f, mark)
      ensures f[|f| - 1] == old(data)[|f| - 1]
      ensures SameBag(old(data)[0 := old(data)[|f| - 1]], f, mark)
      ensures forall i | mark <= i < |f| :: f[i] == old(data)[0 := old(data)[|f| - 1]][i]
    {
      var n := |data|;
      ghost var last := data[n - 1];
      ghost var start := data[0 := last];
      f := start;
      if mark > 0 {
        ReheapStart(data, mark, last);
      }
      var curPos, child := 0, 1;
      while child < mark
        modifies this`data
        invariant mark <= n == |data| == |f|
        invariant child == 2 * curPos + 1 && 0 <= curPos < n && (0 < mark ==> curPos < mark)
        invariant f == data[curPos := last] && data[n - 1] == last
        invariant mark > 0 ==> HeapButDown(f, mark, curPos)
        invariant SameBag(start, f, mark)
        invariant forall i | mark <= i < n :: f[i] == start[i]
        decreases mark - child
      {
        var target := child;
        if child + 1 < mark && Less(data[child], data[child + 1]) {
          target := target + 1;
        }
        ChildrenBelow(data, f, mark, curPos, target);
        if Less(data[target], data[n - 1]) {
          break;
        }
        f := LowerHole(data, f, mark, curPos, target, last);
        data := data[curPos := data[target]];
        curPos := target;
        child := 2 * curPos + 1;
      }
      if mark > 0 {
        DownDone(f, mark, curPos);
      }
      if curPos != n - 1 {
        data := data[curPos := data[n - 1]];
      }
    }

    /** Executes a batch; `calls` is the sequential order that explains its results. */
    method HandleOperations(ops: seq<Op>) returns (res: seq<Result>, ghost calls: History)
      requires Valid()
      modifies this
      ensures Valid()
      ensures Linearizes(calls, ops, res, multiset(old(data)), multiset(data))
    {
      ghost var before := multiset(data);
      ghost var who: seq<nat> := [];
      var popList: seq<nat> := [];
      res := seq(|ops|, i => Waiting);
      calls := Start;
      forall x
        ensures before[x] == Count(data, mark, x)
      {
        CountIsMultiset(data, x);
      }
      var k := 0;
      while k < |ops|
        invariant 0 <= k <= |ops| && size == |data|
        invariant mark <= |data| && Heap(data, mark)
        invariant Tracks(before, ops, res, k, calls, who, popList, data, mark)
      {
        if ops[k].Pop? {
          res, popList, calls, who := FirstPassPop(ops, res, k, popList, before, calls, who);
        } else {
          TrackPush(before, ops, res, k, calls, who, popList, data, mark);
          who := who + [k];
          PushBack(ops[k].elem);
          res := res[k := Pushed];
        }
        k := k + 1;
      }
      res, calls, who := HandlePops(ops, res, popList, before, calls, who);
      calls := FinishBatch(ops, res, before, calls, who);
    }

    method FinishBatch(ghost ops: seq<Op>, ghost res: seq<Result>, ghost before: multiset<Elem>,
                       ghost calls0: History, ghost who: seq<nat>)
      returns (ghost calls: History)
      requires size == |data| && mark <= |data| && Heap(data, mark)
      requires Tracks(before, ops, res, |ops|, calls0, who, [], data, mark)
      modifies this`data, this`mark
      ensures Valid() && Linearizes(calls, ops, res, before, multiset(data))
    {
      ghost var was, m := data, mark;
      if mark < |data| {
        Heapify();
      }
      calls := TrackHeapify(before, ops, res, calls0, who, was, m, data);
    }

    method PopBack()
      requires 0 < size == |data| && mark < |data| && Heap(data, mark)
      modifies this`data, this`size
      ensures data == old(data)[..|old(data)| - 1] && size == |data| && Heap(data, mark)
    {
      var rest := data[..|data| - 1];
      HeapPrefix(data, mark, rest, mark);
      size := size - 1;
      data := rest;
    }

    method PushBack(e: Elem)
      requires size == |data| && mark <= |data| && Heap(data, mark)
      modifies this`data, this`size
      ensures data == old(data) + [e] && size == |data| && Heap(data, mark)
    {
      HeapPrefix(data, mark, data + [e], mark);
      data := data + [e];
      size := size + 1;
    }

    /** A pop met in the first pass. */
    method FirstPassPop(ops: seq<Op>, res0: seq<Result>, k: nat, popList0: seq<nat>,
                        ghost before: multiset<Elem>, ghost calls0: History, ghost who0: seq<nat>)
      returns (res: seq<Result>, popList: seq<nat>, ghost calls: History, ghost who: seq<nat>)
      requires size == |data| && mark <= |data| && Heap(data, mark) && k < |ops| && ops[k] == Pop
      requires Tracks(before, ops, res0, k, calls0, who0, popList0, data, mark)
      modifies this`data, this`size
      ensures size == |data| && mark <= |data| && Heap(data, mark)
      ensures Tracks(before, ops, res, k + 1, calls, who, popList, data, mark)
    {
      if mark < |data| && Less(data[0], data[|data| - 1]) {
        calls, who := TrackPopNow(before, ops, res0, k, calls0, who0, popList0, data, mark);
        popList := popList0;
        res := res0[k := Popped(data[|data| - 1])];
        PopBack();
      } else {
        TrackPostpone(before, ops, res0, k, calls0, who0, popList0, data, mark);
        res, popList, calls, who := res0, popList0 + [k], calls0, who0;
      }
    }

    /** Answers the first postponed pop with the top of the vector. */
    method PopTop(ops: seq<Op>, res0: seq<Result>, popList: seq<nat>,
                  ghost before: multiset<Elem>, ghost calls0: History, ghost who0: seq<nat>)
      returns (res: seq<Result>, ghost calls: History, ghost who: seq<nat>)
      requires size == |data| && mark <= |data| && Heap(data, mark) && data != [] && popList != []
      requires Tracks(before, ops, res0, |ops|, calls0, who0, popList, data, mark)
      modifies this
      ensures size == |data| && mark <= |data| && Heap(data, mark)
      ensures Tracks(before, ops, res, |ops|, calls, who, Others(popList), data, mark)
    {
      ghost var d, m := data, mark;
      res := res0[Next(popList) := Popped(data[0])];
      size := size - 1;
      Reheap();
      calls, who := TrackExtract(before, ops, res0, |ops|, calls0, who0, popList, d, m, data, mark);
    }

    /** The second pass: the postponed pops, the last postponed one first. */
    method HandlePops(ops: seq<Op>, res0: seq<Result>, popList0: seq<nat>,
                      ghost before: multiset<Elem>, ghost calls0: History, ghost who0: seq<nat>)
      returns (res: seq<Result>, ghost calls: History, ghost who: seq<nat>)
      requires size == |data| && mark <= |data| && Heap(data, mark)
      requires Tracks(before, ops, res0, |ops|, calls0, who0, popList0, data, mark)
      modifies this
      ensures size == |data| && mark <= |data| && Heap(data, mark)
      ensures Tracks(before, ops, res, |ops|, calls, who, [], data, mark)
    {
      res, calls, who := res0, calls0, who0;
      var popList := popList0;
      while popList != []
        invariant size == |data| && mark <= |data| && Heap(data, mark)
        invariant Tracks(before, ops, res, |ops|, calls, who, popList, data, mark)
        decreases |popList|
      {
        res, calls, who := SecondPassPop(ops, res, popList, before, calls, who);
        popList := Others(popList);
      }
    }

    method SecondPassPop(ops: seq<Op>, res0: seq<Result>, popList: seq<nat>,
                         ghost before: multiset<Elem>, ghost calls0: History, ghost who0: seq<nat>)
      returns (res: seq<Result>, ghost calls: History, ghost who: seq<nat>)
      requires size == |data| && mark <= |data| && Heap(data, mark) && popList != []
      requires Tracks(before, ops, res0, |ops|, calls0, who0, popList, data, mark)
      modifies this
      ensures size == |data| && mark <= |data| && Heap(data, mark)
      ensures Tracks(before, ops, res, |ops|, calls, who, Others(popList), data, mark)
    {
      if data == [] {
        TrackFailedPop(before, ops, res0, |ops|, calls0, who0, popList, data, mark);
        calls, who := Then(calls0, Call(Next(popList), Pop, Failed)), who0;
        res := res0[Next(popList) := Failed];
      } else if mark < |data| && Less(data[0], data[|data| - 1]) {
        calls, who := TrackFastPop(before, ops, res0, |ops|, calls0, who0, popList, data, mark);
        res := res0[Next(popList) := Popped(data[|data| - 1])];
        PopBack();
      } else {
        res, calls, who := PopTop(ops, res0, popList, before, calls0, who0);
      }
    }
  }
}
