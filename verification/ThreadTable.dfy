/**
 ets_base::table_lookup (src/intel/include/tbb/enumerable_thread_specific.h): a growing chain of
 linear-probe tables that maps each thread to its own element.  A step is one access to a shared word.
 Thread t has key t; where its probing starts in a table of 2^lg slots is given by `start`.
 */
module ThreadTable {
  import opened Buckets

  const EMPTY := -1

  datatype Slot = Slot(key: int, ptr: int)

  datatype Table = Table(lg: nat, slots: seq<Slot>)

  datatype Phase =
    | Idle
    | Scan(r: nat, d: nat)                       // about to look at the d-th slot of its probe sequence in table r
    | Creating                                   // found nowhere: about to call create_local
    | Counting(found: int)                       // about to take a ticket, ++my_count
    | Sizing(found: int, c: nat)                 // about to compare the ticket with the root's size
    | Growing(found: int, c: nat, lg: nat, root: int)  // about to swap in a table of 2^lg slots
    | Inserting(found: int, known: bool)       // about to read the root
    | Probing(found: int, known: bool, r: nat, d: nat)
    | Claiming(found: int, known: bool, r: nat, d: nat)  // saw the slot empty
    | Writing(found: int, known: bool, r: nat, d: nat)   // has claimed the slot
    | Returning(found: int, known: bool)

  datatype State = State(
    tables: seq<Table>,   // oldest first: the root is the last, and each table's next is the one before it
    count: nat,           // my_count
    threads: seq<Phase>,
    // history: each thread's ticket (0: none), its element (EMPTY: none) and how often one was made for it
    ticket: seq<nat>,
    local: seq<int>,
    made: seq<nat>,
    pointers: nat)        // elements created so far; the next one gets this number

  function Size(tab: Table): (n: nat)
    ensures n >= 1
  {
    Pow2(tab.lg)
  }

  /** The d-th slot that thread t looks at in a table. */
  function Pos(start: (nat, nat) -> nat, t: nat, lg: nat, d: nat): (j: nat)
    ensures j < Pow2(lg)
  {
    (start(t, lg) + d) % Pow2(lg)
  }

  /** The smallest size exponent from lg on with room for ticket c in half of the table. */
  function Fit(c: nat, lg: nat): (s: nat)
    requires lg >= 1
    ensures s >= lg && c <= Pow2(s - 1)
    ensures s > lg ==> c > Pow2(s - 2)
    decreases c - Pow2(lg - 1)
  {
    if c <= Pow2(lg - 1) then lg else Fit(c, lg + 1)
  }

  function Root(s: State): (r: int) {
    |s.tables| - 1
  }

  function Fresh(lg: nat): (tab: Table) {
    Table(lg, seq(Pow2(lg), i => Slot(EMPTY, EMPTY)))
  }

  function Move(s: State, t: nat, ph: Phase): (s': State)
    requires t < |s.threads|
  {
    s.(threads := s.threads[t := ph])
  }

  function SetSlot(tables: seq<Table>, r: nat, j: nat, slot: Slot): (tables': seq<Table>)
    requires r < |tables| && j < |tables[r].slots|
  {
    tables[r := tables[r].(slots := tables[r].slots[j := slot])]
  }

  /** The next step of thread t inside table_lookup. */
  function Step(s: State, start: (nat, nat) -> nat, t: nat): (s': State)
    requires t < |s.threads| == |s.ticket| == |s.local| == |s.made|
  {
    match s.threads[t]
    case Idle => Move(s, t, if s.tables == [] then Creating else Scan(|s.tables| - 1, 0))
    case Scan(r, d) =>
      if r >= |s.tables| || Pos(start, t, s.tables[r].lg, d) >= |s.tables[r].slots| then s
      else
        var slot := s.tables[r].slots[Pos(start, t, s.tables[r].lg, d)];
        if slot.key == EMPTY then Move(s, t, if r == 0 then Creating else Scan(r - 1, 0))
        else if slot.key == t then
          Move(s, t, if r == Root(s) then Returning(slot.ptr, true) else Inserting(slot.ptr, true))
        else Move(s, t, Scan(r, d + 1))
    case Creating =>
      Move(s.(pointers := s.pointers + 1, local := s.local[t := s.pointers], made := s.made[t := s.made[t] + 1]),
           t, Counting(s.pointers))
    case Counting(found) =>
      Move(s.(count := s.count + 1, ticket := s.ticket[t := s.count + 1]), t, Sizing(found, s.count + 1))
    case Sizing(found, c) =>
      if s.tables == [] then Move(s, t, Growing(found, c, Fit(c, 2), EMPTY))
      else
        var root := s.tables[Root(s)];
        if c > Size(root) / 2 && root.lg >= 1 then Move(s, t, Growing(found, c, Fit(c, root.lg), Root(s)))
        else Move(s, t, Inserting(found, false))
    case Growing(found, c, lg, root) =>
      if Root(s) == root then Move(s.(tables := s.tables + [Fresh(lg)]), t, Inserting(found, false))
      else if s.tables != [] && s.tables[Root(s)].lg >= lg then Move(s, t, Inserting(found, false))
      else Move(s, t, Growing(found, c, lg, Root(s)))
    case Inserting(found, e) => if s.tables == [] then s else Move(s, t, Probing(found, e, |s.tables| - 1, 0))
    case Probing(found, e, r, d) =>
      if r >= |s.tables| || Pos(start, t, s.tables[r].lg, d) >= |s.tables[r].slots| then s
      else if s.tables[r].slots[Pos(start, t, s.tables[r].lg, d)].key == EMPTY then Move(s, t, Claiming(found, e, r, d))
      else Move(s, t, Probing(found, e, r, d + 1))
    case Claiming(found, e, r, d) =>
      if r >= |s.tables| || Pos(start, t, s.tables[r].lg, d) >= |s.tables[r].slots| then s
      else
        var j := Pos(start, t, s.tables[r].lg, d);
        if s.tables[r].slots[j].key == EMPTY then
          Move(s.(tables := SetSlot(s.tables, r, j, s.tables[r].slots[j].(key := t))), t, Writing(found, e, r, d))
        else Move(s, t, Probing(found, e, r, d + 1))
    case Writing(found, e, r, d) =>
      if r >= |s.tables| || Pos(start, t, s.tables[r].lg, d) >= |s.tables[r].slots| then s
      else
        var j := Pos(start, t, s.tables[r].lg, d);
        Move(s.(tables := SetSlot(s.tables, r, j, s.tables[r].slots[j].(ptr := found))), t, Returning(found, e))
    case Returning(_, _) => Move(s, t, Idle)
  }

  // ---------- the invariant ----------

  /** Slot d of t's probe sequence in the table holds t's key. */
  predicate HasAt(tab: Table, start: (nat, nat) -> nat, t: nat, d: nat)
    requires |tab.slots| == Size(tab)
  {
    tab.slots[Pos(start, t, tab.lg, d)].key == t
  }

  predicate FullAt(tab: Table, start: (nat, nat) -> nat, t: nat, d: nat)
    requires |tab.slots| == Size(tab)
  {
    tab.slots[Pos(start, t, tab.lg, d)].key != EMPTY
  }

  /** The first d slots of t's probe sequence are taken, none of them by t. */
  ghost predicate Passed(tab: Table, start: (nat, nat) -> nat, t: nat, d: nat)
    requires |tab.slots| == Size(tab)
  {
    forall e {:trigger FullAt(tab, start, t, e)} | 0 <= e < d :: FullAt(tab, start, t, e) && !HasAt(tab, start, t, e)
  }

  ghost predicate Absent(tab: Table, t: nat) {
    forall j {:trigger tab.slots[j]} | 0 <= j < |tab.slots| :: tab.slots[j].key != t
  }

  predicate Lengths(s: State) {
    |s.threads| == |s.ticket| == |s.local| == |s.made|
  }

  /** Slot j of a table: empty, or the entry of a thread whose ticket entitles it to this table. */
  ghost predicate SlotOk(s: State, start: (nat, nat) -> nat, r: nat, j: nat)
    requires Lengths(s) && r < |s.tables| && j < |s.tables[r].slots| == Size(s.tables[r])
  {
    var tab := s.tables[r];
    var k := tab.slots[j].key;
    k != EMPTY ==>
      && 0 <= k < |s.threads| && 1 <= s.ticket[k] <= Size(tab) / 2
      && (exists d :: 0 <= d && Pos(start, k, tab.lg, d) == j && Passed(tab, start, k, d))
      && (tab.slots[j].ptr == s.local[k] || AtWrite(s, start, k, r, j))
  }

  /** Thread k has claimed slot j of table r and not written its pointer yet. */
  predicate AtWrite(s: State, start: (nat, nat) -> nat, k: nat, r: nat, j: nat)
    requires k < |s.threads| && r < |s.tables|
  {
    s.threads[k].Writing? && s.threads[k].r == r && Pos(start, k, s.tables[r].lg, s.threads[k].d) == j
  }

  ghost predicate TableOk(s: State, start: (nat, nat) -> nat, r: nat)
    requires Lengths(s) && r < |s.tables|
  {
    var tab := s.tables[r];
    && tab.lg >= 2 && |tab.slots| == Size(tab)
    && (forall j {:trigger SlotOk(s, start, r, j)} | 0 <= j < |tab.slots| :: SlotOk(s, start, r, j))
    && (forall i, j | 0 <= i < j < |tab.slots| && tab.slots[i].key != EMPTY :: tab.slots[i].key != tab.slots[j].key)
  }

  ghost predicate TablesOk(s: State, start: (nat, nat) -> nat)
    requires Lengths(s)
  {
    && (forall r {:trigger TableOk(s, start, r)} | 0 <= r < |s.tables| :: TableOk(s, start, r))
    && (forall q, r | 0 <= q < r < |s.tables| :: s.tables[q].lg < s.tables[r].lg)
  }

  predicate TicketsOk(s: State)
    requires Lengths(s)
  {
    && (forall t | 0 <= t < |s.threads| :: s.ticket[t] <= s.count)
    && (forall t, u | 0 <= t < u < |s.threads| && s.ticket[t] != 0 :: s.ticket[t] != s.ticket[u])
  }

  /** Elements are told apart by their number. */
  predicate LocalsOk(s: State)
    requires Lengths(s)
  {
    && (forall t | 0 <= t < |s.threads| :: EMPTY <= s.local[t] < s.pointers)
    && (forall t, u | 0 <= t < u < |s.threads| && s.local[t] != EMPTY :: s.local[t] != s.local[u])
  }

  ghost predicate AbsentAbove(s: State, t: nat, r: int) {
    forall q {:trigger Absent(s.tables[q], t)} | 0 <= q && r < q < |s.tables| :: Absent(s.tables[q], t)
  }

  ghost predicate PresentUpTo(s: State, t: nat, r: int) {
    exists q {:trigger Absent(s.tables[q], t)} :: 0 <= q <= r && q < |s.tables| && !Absent(s.tables[q], t)
  }

  /** What thread t knows between two steps. */
  ghost predicate ThreadOk(s: State, start: (nat, nat) -> nat, t: nat)
    requires Lengths(s) && t < |s.threads| && forall r | 0 <= r < |s.tables| :: |s.tables[r].slots| == Size(s.tables[r])
  {
    var ph := s.threads[t];
    && s.made[t] == (if s.local[t] == EMPTY then 0 else 1)
    && match ph
       case Idle => s.local[t] != EMPTY ==> PresentUpTo(s, t, Root(s))
       case Scan(r, d) =>
         && r < |s.tables| && Passed(s.tables[r], start, t, d) && AbsentAbove(s, t, r)
         && (s.local[t] != EMPTY ==> PresentUpTo(s, t, r))
       case Creating => s.local[t] == EMPTY && s.ticket[t] == 0 && AbsentAbove(s, t, EMPTY)
       case Counting(found) => found == s.local[t] != EMPTY && s.ticket[t] == 0 && AbsentAbove(s, t, EMPTY)
       case Sizing(found, c) => found == s.local[t] != EMPTY && s.ticket[t] == c >= 1 && AbsentAbove(s, t, EMPTY)
       case Growing(found, c, lg, root) =>
         && found == s.local[t] != EMPTY && s.ticket[t] == c >= 1 && AbsentAbove(s, t, EMPTY)
         && lg >= 2 && c <= Pow2(lg - 1) && EMPTY <= root <= Root(s) && (root != EMPTY ==> s.tables[root].lg < lg)
       case Inserting(found, _) =>
         && found == s.local[t] != EMPTY && s.tables != []
         && 1 <= s.ticket[t] <= Size(s.tables[Root(s)]) / 2 && Absent(s.tables[Root(s)], t)
       case Probing(found, _, r, d) => InsertOk(s, start, t, found, r, d) && Absent(s.tables[r], t)
       case Claiming(found, _, r, d) => InsertOk(s, start, t, found, r, d) && Absent(s.tables[r], t)
       case Writing(found, _, r, d) =>
         found == s.local[t] != EMPTY && r < |s.tables| && HasAt(s.tables[r], start, t, d)
       case Returning(found, _) => found == s.local[t] != EMPTY && PresentUpTo(s, t, Root(s))
  }

  ghost predicate InsertOk(s: State, start: (nat, nat) -> nat, t: nat, found: int, r: nat, d: nat)
    requires Lengths(s) && t < |s.threads| && forall r | 0 <= r < |s.tables| :: |s.tables[r].slots| == Size(s.tables[r])
  {
    && found == s.local[t] != EMPTY && r < |s.tables| && 1 <= s.ticket[t] <= Size(s.tables[r]) / 2
    && Passed(s.tables[r], start, t, d)
  }

  ghost predicate Inv(s: State, start: (nat, nat) -> nat) {
    && Lengths(s) && TablesOk(s, start) && TicketsOk(s) && LocalsOk(s)
    && (forall r | 0 <= r < |s.tables| :: |s.tables[r].slots| == Size(s.tables[r]))
    && (forall t {:trigger ThreadOk(s, start, t)} | 0 <= t < |s.threads| :: ThreadOk(s, start, t))
    && MadeFirst(s)
  }

  // ---------- how the tables change ----------

  /** A table fills up: only empty slots change their key, and only to t; only t's pointers change. */
  ghost predicate Filling(tab: Table, tab': Table, t: nat) {
    && tab'.lg == tab.lg && |tab'.slots| == |tab.slots|
    && forall j {:trigger tab'.slots[j]} {:trigger tab.slots[j]} | 0 <= j < |tab.slots| ::
         && (tab'.slots[j].key == tab.slots[j].key || (tab.slots[j].key == EMPTY && tab'.slots[j].key == t))
         && (tab'.slots[j].ptr == tab.slots[j].ptr || tab'.slots[j].key == t)
  }

  /** Everything but the tables. */
  predicate OthersSame(s: State, s': State, t: nat) {
    && Lengths(s) && Lengths(s') && |s'.threads| == |s.threads|
    && forall u | 0 <= u < |s.threads| && u != t ::
         s'.threads[u] == s.threads[u] && s'.ticket[u] == s.ticket[u] && s'.local[u] == s.local[u]
           && s'.made[u] == s.made[u]
  }

  ghost predicate TablesEvolve(tables: seq<Table>, tables': seq<Table>, t: nat) {
    && |tables| <= |tables'|
    && (forall r {:trigger tables'[r]} | 0 <= r < |tables| :: Filling(tables[r], tables'[r], t))
    && (forall r {:trigger tables'[r]} | |tables| <= r < |tables'| :: tables'[r] == Fresh(tables'[r].lg))
  }

  /** A step of thread t as the others see it. */
  ghost predicate Evolves(s: State, s': State, t: nat) {
    OthersSame(s, s', t) && TablesEvolve(s.tables, s'.tables, t)
  }

  lemma SetSlotEvolves(tables: seq<Table>, r: nat, j: nat, slot: Slot, t: nat)
    requires r < |tables| && j < |tables[r].slots|
    requires slot.key == t && (tables[r].slots[j].key == EMPTY || tables[r].slots[j].key == t)
    ensures TablesEvolve(tables, SetSlot(tables, r, j, slot), t)
  {
  }

  /** Most steps change at most the tables and where the thread stands. */
  lemma NoHistory(s: State, start: (nat, nat) -> nat, t: nat)
    requires Lengths(s) && t < |s.threads| && !s.threads[t].Counting? && !s.threads[t].Creating?
    ensures (var s' := Step(s, start, t);
             && s'.count == s.count && s'.ticket == s.ticket && s'.local == s.local && s'.made == s.made
             && |s'.threads| == |s.threads| && s'.threads == s.threads[t := s'.threads[t]])
  {
  }

  lemma StepOthersSame(s: State, start: (nat, nat) -> nat, t: nat)
    requires Lengths(s) && t < |s.threads|
    ensures OthersSame(s, Step(s, start, t), t)
  {
    if !s.threads[t].Counting? && !s.threads[t].Creating? {
      NoHistory(s, start, t);
    }
  }

  lemma SameTables(s: State, start: (nat, nat) -> nat, t: nat)
    requires Lengths(s) && t < |s.threads|
    requires !s.threads[t].Growing? && !s.threads[t].Claiming? && !s.threads[t].Writing?
    ensures Step(s, start, t).tables == s.tables
  {
  }

  lemma StepTables(s: State, start: (nat, nat) -> nat, t: nat)
    requires Inv(s, start) && t < |s.threads|
    ensures TablesEvolve(s.tables, Step(s, start, t).tables, t)
  {
    assert ThreadOk(s, start, t);
    var ph := s.threads[t];
    if ph.Claiming? || ph.Writing? {
      var j := Pos(start, t, s.tables[ph.r].lg, ph.d);
      var slot := s.tables[ph.r].slots[j];
      if ph.Writing? {
        SetSlotEvolves(s.tables, ph.r, j, slot.(ptr := ph.found), t);
      } else if slot.key == EMPTY {
        SetSlotEvolves(s.tables, ph.r, j, slot.(key := t), t);
      }
    } else if !ph.Growing? {
      SameTables(s, start, t);
    }
  }

  lemma StepEvolves(s: State, start: (nat, nat) -> nat, t: nat)
    requires Inv(s, start) && t < |s.threads|
    ensures Evolves(s, Step(s, start, t), t)
  {
    StepOthersSame(s, start, t);
    StepTables(s, start, t);
  }

  lemma PassedKept(tab: Table, tab': Table, start: (nat, nat) -> nat, t: nat, u: nat, d: nat)
    requires |tab.slots| == Size(tab) && Filling(tab, tab', t) && t != u && Passed(tab, start, u, d)
    ensures |tab'.slots| == Size(tab') && Passed(tab', start, u, d)
  {
    forall e | 0 <= e < d ensures FullAt(tab', start, u, e) && !HasAt(tab', start, u, e) {
      assert FullAt(tab, start, u, e);
    }
  }

  lemma AbsentKept(tab: Table, tab': Table, t: nat, u: nat)
    requires Filling(tab, tab', t) && t != u
    ensures Absent(tab', u) <==> Absent(tab, u)
  {
    if Absent(tab', u) {
      forall j | 0 <= j < |tab.slots| ensures tab.slots[j].key != u {
        assert tab'.slots[j].key != u;
      }
    }
    if Absent(tab, u) {
      forall j | 0 <= j < |tab'.slots| ensures tab'.slots[j].key != u {
        assert tab.slots[j].key != u;
      }
    }
  }

  // ---------- the other threads ----------

  lemma AbsentAboveKept(s: State, s': State, t: nat, u: nat, r: int)
    requires TablesEvolve(s.tables, s'.tables, t) && t != u && EMPTY <= r < |s.tables| && AbsentAbove(s, u, r)
    ensures AbsentAbove(s', u, r)
  {
    forall q | 0 <= q && r < q < |s'.tables| ensures Absent(s'.tables[q], u) {
      if q < |s.tables| {
        AbsentKept(s.tables[q], s'.tables[q], t, u);
      }
    }
  }

  lemma PresentKept(s: State, s': State, t: nat, u: nat, r: int, r': int)
    requires TablesEvolve(s.tables, s'.tables, t) && t != u && r <= r' && PresentUpTo(s, u, r)
    ensures PresentUpTo(s', u, r')
  {
    var q :| 0 <= q <= r && q < |s.tables| && !Absent(s.tables[q], u);
    AbsentKept(s.tables[q], s'.tables[q], t, u);
    assert !Absent(s'.tables[q], u);
  }

  predicate Sized(s: State) {
    && (forall r | 0 <= r < |s.tables| :: |s.tables[r].slots| == Size(s.tables[r]))
    && (forall q, r | 0 <= q < r < |s.tables| :: s.tables[q].lg < s.tables[r].lg)
  }

  /** A larger root has room for the same tickets. */
  lemma RootGrows(s: State, s': State, t: nat)
    requires TablesEvolve(s.tables, s'.tables, t) && Sized(s') && s.tables != []
    ensures Size(s.tables[Root(s)]) <= Size(s'.tables[Root(s')])
  {
    assert s'.tables[Root(s)].lg == s.tables[Root(s)].lg;
    Pow2Grows(s.tables[Root(s)].lg, s'.tables[Root(s')].lg);
  }

  /** A thread that stands at some table. */
  lemma OtherAtTable(s: State, s': State, start: (nat, nat) -> nat, t: nat, u: nat)
    requires Evolves(s, s', t) && Sized(s) && Sized(s') && t != u && t < |s.threads| && u < |s.threads|
    requires ThreadOk(s, start, u)
    requires s.threads[u].Scan? || s.threads[u].Probing? || s.threads[u].Claiming? || s.threads[u].Writing?
    ensures ThreadOk(s', start, u)
  {
    var ph := s.threads[u];
    assert s'.tables[ph.r].lg == s.tables[ph.r].lg;
    if ph.Scan? {
      PassedKept(s.tables[ph.r], s'.tables[ph.r], start, t, u, ph.d);
      AbsentAboveKept(s, s', t, u, ph.r);
      if s.local[u] != EMPTY {
        PresentKept(s, s', t, u, ph.r, ph.r);
      }
    } else if !ph.Writing? {
      PassedKept(s.tables[ph.r], s'.tables[ph.r], start, t, u, ph.d);
      AbsentKept(s.tables[ph.r], s'.tables[ph.r], t, u);
    }
  }

  /** A thread that stands between tables. */
  lemma OtherElsewhere(s: State, s': State, start: (nat, nat) -> nat, t: nat, u: nat)
    requires Evolves(s, s', t) && Sized(s) && Sized(s') && t != u && t < |s.threads| && u < |s.threads|
    requires ThreadOk(s, start, u)
    requires !(s.threads[u].Scan? || s.threads[u].Probing? || s.threads[u].Claiming? || s.threads[u].Writing?)
    ensures ThreadOk(s', start, u)
  {
    var ph := s.threads[u];
    if ph.Inserting? {
      RootGrows(s, s', t);
      if Root(s') == Root(s) {
        AbsentKept(s.tables[Root(s)], s'.tables[Root(s)], t, u);
      }
    } else if ph.Idle? || ph.Returning? {
      if s.local[u] != EMPTY {
        PresentKept(s, s', t, u, Root(s), Root(s'));
      }
    } else {
      AbsentAboveKept(s, s', t, u, EMPTY);
    }
  }

  lemma OtherThreadOk(s: State, s': State, start: (nat, nat) -> nat, t: nat, u: nat)
    requires Evolves(s, s', t) && Sized(s) && Sized(s') && t != u && t < |s.threads| && u < |s.threads|
    requires ThreadOk(s, start, u)
    ensures ThreadOk(s', start, u)
  {
    if s.threads[u].Scan? || s.threads[u].Probing? || s.threads[u].Claiming? || s.threads[u].Writing? {
      OtherAtTable(s, s', start, t, u);
    } else {
      OtherElsewhere(s, s', start, t, u);
    }
  }

  // ---------- the tables ----------

  /** Slots that kept their key are as good as before; t's own must not have been touched. */
  lemma SlotKept(s: State, s': State, start: (nat, nat) -> nat, t: nat, r: nat, j: nat)
    requires Evolves(s, s', t) && t < |s.threads| && Sized(s) && r < |s.tables| && j < Size(s.tables[r])
    requires SlotOk(s, start, r, j) && s'.tables[r].slots[j].key == s.tables[r].slots[j].key
    requires s.tables[r].slots[j].key == t ==>
               && s'.tables[r] == s.tables[r] && s'.ticket[t] == s.ticket[t] && s'.local[t] == s.local[t]
               && (AtWrite(s, start, t, r, j) ==> AtWrite(s', start, t, r, j))
    ensures |s'.tables[r].slots| == Size(s'.tables[r]) && SlotOk(s', start, r, j)
  {
    var tab, tab' := s.tables[r], s'.tables[r];
    var k := tab.slots[j].key;
    if k != EMPTY {
      var d :| 0 <= d && Pos(start, k, tab.lg, d) == j && Passed(tab, start, k, d);
      if k != t {
        PassedKept(tab, tab', start, t, k, d);
      }
    }
  }

  /** Steps that leave the tables alone. */
  lemma TablesUntouched(s: State, s': State, start: (nat, nat) -> nat, t: nat)
    requires TablesOk'(s, start) && OthersSame(s, s', t) && s'.tables == s.tables && t < |s.threads|
    requires s.threads[t].Writing? ==> s'.threads[t] == s.threads[t]
    requires (s'.ticket[t] == s.ticket[t] && s'.local[t] == s.local[t]) || AbsentAbove(s, t, EMPTY)
    ensures TablesOk'(s', start)
  {
    forall r | 0 <= r < |s.tables| ensures TableOk(s', start, r) {
      assert TableOk(s, start, r);
      forall j | 0 <= j < |s.tables[r].slots| ensures SlotOk(s', start, r, j) {
        assert SlotOk(s, start, r, j);
        if s.tables[r].slots[j].key == t {
          assert !Absent(s.tables[r], t);
        }
        SlotKept(s, s', start, t, r, j);
      }
    }
  }

  ghost predicate TablesOk'(s: State, start: (nat, nat) -> nat) {
    Lengths(s) && TablesOk(s, start) && Sized(s)
  }

  /** The claimed slot is where the thread's probing met the first empty one. */
  lemma ClaimedSlotOk(s: State, start: (nat, nat) -> nat, t: nat)
    requires Inv(s, start) && t < |s.threads| && s.threads[t].Claiming?
    requires Step(s, start, t).threads[t].Writing?
    ensures (var s', ph := Step(s, start, t), s.threads[t];
             && Lengths(s') && ph.r < |s.tables| == |s'.tables| && |s'.tables[ph.r].slots| == Size(s'.tables[ph.r])
             && SlotOk(s', start, ph.r, Pos(start, t, s.tables[ph.r].lg, ph.d)))
  {
    var s', ph := Step(s, start, t), s.threads[t];
    assert ThreadOk(s, start, t);
    var tab, tab' := s.tables[ph.r], s'.tables[ph.r];
    forall e | 0 <= e < ph.d ensures FullAt(tab', start, t, e) && !HasAt(tab', start, t, e) {
      assert FullAt(tab, start, t, e) && !HasAt(tab, start, t, e);
    }
    assert Passed(tab', start, t, ph.d);
  }

  lemma ClaimedTableOk(s: State, start: (nat, nat) -> nat, t: nat, r: nat)
    requires Inv(s, start) && t < |s.threads| && s.threads[t].Claiming? && r < |s.tables|
    requires Step(s, start, t).threads[t].Writing? && Evolves(s, Step(s, start, t), t)
    ensures Lengths(Step(s, start, t)) && TableOk(Step(s, start, t), start, r)
  {
    var s', ph := Step(s, start, t), s.threads[t];
    assert ThreadOk(s, start, t) && TableOk(s, start, r);
    var i := Pos(start, t, s.tables[ph.r].lg, ph.d);
    forall j | 0 <= j < |s.tables[r].slots| ensures SlotOk(s', start, r, j) {
      assert SlotOk(s, start, r, j);
      if r == ph.r && j == i {
        ClaimedSlotOk(s, start, t);
      } else {
        SlotKept(s, s', start, t, r, j);
      }
    }
  }

  lemma TablesClaimed(s: State, start: (nat, nat) -> nat, t: nat)
    requires Inv(s, start) && t < |s.threads| && s.threads[t].Claiming?
    requires Step(s, start, t).threads[t].Writing?
    ensures TablesOk'(Step(s, start, t), start)
  {
    StepEvolves(s, start, t);
    forall r | 0 <= r < |s.tables| ensures TableOk(Step(s, start, t), start, r) {
      ClaimedTableOk(s, start, t, r);
    }
  }

  lemma TablesWritten(s: State, start: (nat, nat) -> nat, t: nat)
    requires Inv(s, start) && t < |s.threads| && s.threads[t].Writing?
    ensures TablesOk'(Step(s, start, t), start)
  {
    var s', ph := Step(s, start, t), s.threads[t];
    assert ThreadOk(s, start, t);
    StepEvolves(s, start, t);
    var i := Pos(start, t, s.tables[ph.r].lg, ph.d);
    forall r | 0 <= r < |s.tables| ensures TableOk(s', start, r) {
      assert TableOk(s, start, r);
      forall j | 0 <= j < |s.tables[r].slots| ensures SlotOk(s', start, r, j) {
        assert SlotOk(s, start, r, j);
        if r == ph.r && j == i {
          var tab, tab' := s.tables[r], s'.tables[r];
          var d :| 0 <= d && Pos(start, t, tab.lg, d) == j && Passed(tab, start, t, d);
          forall e | 0 <= e < d ensures FullAt(tab', start, t, e) && !HasAt(tab', start, t, e) {
            assert FullAt(tab, start, t, e) && !HasAt(tab, start, t, e);
          }
        } else {
          SlotKept(s, s', start, t, r, j);
        }
      }
    }
  }

  /** t's larger, empty table becomes the root. */
  lemma TablesGrown(s: State, start: (nat, nat) -> nat, t: nat)
    requires Inv(s, start) && t < |s.threads| && s.threads[t].Growing? && Root(s) == s.threads[t].root
    ensures TablesOk'(Step(s, start, t), start)
  {
    var s', ph := Step(s, start, t), s.threads[t];
    assert ThreadOk(s, start, t);
    StepEvolves(s, start, t);
    var n := |s.tables|;
    forall r | 0 <= r < |s'.tables| ensures TableOk(s', start, r) {
      if r < n {
        assert TableOk(s, start, r);
        forall j | 0 <= j < |s.tables[r].slots| ensures SlotOk(s', start, r, j) {
          assert SlotOk(s, start, r, j);
          SlotKept(s, s', start, t, r, j);
        }
      } else {
        assert s'.tables[r] == Fresh(ph.lg);
      }
    }
  }

  lemma StepTablesOk(s: State, start: (nat, nat) -> nat, t: nat)
    requires Inv(s, start) && t < |s.threads|
    ensures TablesOk'(Step(s, start, t), start)
  {
    var s', ph := Step(s, start, t), s.threads[t];
    assert ThreadOk(s, start, t);
    StepOthersSame(s, start, t);
    if ph.Writing? {
      TablesWritten(s, start, t);
    } else if ph.Claiming? && s'.threads[t].Writing? {
      TablesClaimed(s, start, t);
    } else if ph.Growing? && Root(s) == ph.root {
      TablesGrown(s, start, t);
    } else {
      TablesUntouched(s, s', start, t);
    }
  }

  // ---------- the thread itself ----------

  lemma PassedMore(tab: Table, start: (nat, nat) -> nat, t: nat, d: nat)
    requires |tab.slots| == Size(tab) && Passed(tab, start, t, d)
    requires FullAt(tab, start, t, d) && !HasAt(tab, start, t, d)
    ensures Passed(tab, start, t, d + 1)
  {
  }

  /** The probe sequence cannot be broken before the thread's own slot. */
  lemma NoGapBefore(tab: Table, start: (nat, nat) -> nat, t: nat, d: nat, e: nat)
    requires |tab.slots| == Size(tab) && Passed(tab, start, t, d) && Passed(tab, start, t, e)
    requires HasAt(tab, start, t, e)
    ensures FullAt(tab, start, t, d) && d <= e
  {
    var atEntry, atGap := FullAt(tab, start, t, e), FullAt(tab, start, t, d);
  }

  /** An empty slot on the probe sequence ends the search of a table: the key is not in it. */
  lemma EmptyEndsTable(s: State, start: (nat, nat) -> nat, r: nat, t: nat, d: nat)
    requires Lengths(s) && r < |s.tables| && TableOk(s, start, r)
    requires Passed(s.tables[r], start, t, d) && !FullAt(s.tables[r], start, t, d)
    ensures Absent(s.tables[r], t)
  {
    var tab := s.tables[r];
    forall j | 0 <= j < |tab.slots| ensures tab.slots[j].key != t {
      if tab.slots[j].key == t {
        var e := EntryAt(s, start, r, t, j);
        NoGapBefore(tab, start, t, d, e);
      }
    }
  }

  lemma EntryAt(s: State, start: (nat, nat) -> nat, r: nat, t: nat, j: nat) returns (e: nat)
    requires Lengths(s) && r < |s.tables| && TableOk(s, start, r)
    requires j < |s.tables[r].slots| && s.tables[r].slots[j].key == t
    ensures HasAt(s.tables[r], start, t, e) && Passed(s.tables[r], start, t, e) && Pos(start, t, s.tables[r].lg, e) == j
  {
    assert SlotOk(s, start, r, j);
    e :| 0 <= e && Pos(start, t, s.tables[r].lg, e) == j && Passed(s.tables[r], start, t, e);
  }

  /** The thread finds its own entry, with its pointer and with its right to a place in this and larger tables. */
  lemma OwnEntry(s: State, start: (nat, nat) -> nat, t: nat)
    requires Inv(s, start) && t < |s.threads| && s.threads[t].Scan? && s.threads[t].r < |s.tables|
    requires HasAt(s.tables[s.threads[t].r], start, t, s.threads[t].d)
    ensures (var ph := s.threads[t];
             var tab := s.tables[ph.r];
             && tab.slots[Pos(start, t, tab.lg, ph.d)].ptr == s.local[t] != EMPTY
             && 1 <= s.ticket[t] <= Size(s.tables[Root(s)]) / 2
             && !Absent(tab, t))
  {
    var ph := s.threads[t];
    assert TableOk(s, start, ph.r) && ThreadOk(s, start, t);
    assert SlotOk(s, start, ph.r, Pos(start, t, s.tables[ph.r].lg, ph.d));
    if ph.r < Root(s) {
      Pow2Grows(s.tables[ph.r].lg, s.tables[Root(s)].lg);
    }
  }

  /** The search of a table ends at an empty slot. */
  lemma ScanMissOk(s: State, start: (nat, nat) -> nat, t: nat)
    requires Inv(s, start) && t < |s.threads| && s.threads[t].Scan? && s.threads[t].r < |s.tables|
    requires !FullAt(s.tables[s.threads[t].r], start, t, s.threads[t].d)
    ensures ThreadOk(Step(s, start, t), start, t)
  {
    var ph := s.threads[t];
    assert ThreadOk(s, start, t) && TableOk(s, start, ph.r);
    EmptyEndsTable(s, start, ph.r, t, ph.d);
    assert AbsentAbove(s, t, ph.r - 1);
    if s.local[t] != EMPTY {
      var q :| 0 <= q <= ph.r && q < |s.tables| && !Absent(s.tables[q], t);
      assert q <= ph.r - 1;
    }
    NotYet(s, start, t);
  }

  lemma ScanHitOk(s: State, start: (nat, nat) -> nat, t: nat)
    requires Inv(s, start) && t < |s.threads| && s.threads[t].Scan? && s.threads[t].r < |s.tables|
    requires HasAt(s.tables[s.threads[t].r], start, t, s.threads[t].d)
    ensures ThreadOk(Step(s, start, t), start, t)
  {
    var s', ph := Step(s, start, t), s.threads[t];
    assert ThreadOk(s, start, t);
    OwnEntry(s, start, t);
    assert PresentUpTo(s', t, ph.r);
    if ph.r < Root(s) {
      assert Absent(s.tables[Root(s)], t);
    }
  }

  lemma ScanOk(s: State, start: (nat, nat) -> nat, t: nat)
    requires Inv(s, start) && t < |s.threads| && s.threads[t].Scan?
    ensures ThreadOk(Step(s, start, t), start, t)
  {
    var ph := s.threads[t];
    assert ThreadOk(s, start, t);
    var tab := s.tables[ph.r];
    if !FullAt(tab, start, t, ph.d) {
      ScanMissOk(s, start, t);
    } else if HasAt(tab, start, t, ph.d) {
      ScanHitOk(s, start, t);
    } else {
      PassedMore(tab, start, t, ph.d);
    }
  }

  /** A ticket is only taken after the element was made. */
  lemma NotYet(s: State, start: (nat, nat) -> nat, t: nat)
    requires Inv(s, start) && t < |s.threads|
    ensures s.local[t] == EMPTY ==> s.ticket[t] == 0
  {
  }

  /** The comparison of the ticket with the root's size. */
  lemma SizingOk(s: State, start: (nat, nat) -> nat, t: nat)
    requires Inv(s, start) && t < |s.threads| && s.threads[t].Sizing?
    ensures ThreadOk(Step(s, start, t), start, t)
  {
    assert ThreadOk(s, start, t);
    if s.tables != [] {
      var root := s.tables[Root(s)];
      assert TableOk(s, start, Root(s)) && Absent(root, t);
      assert Pow2(root.lg) == 2 * Pow2(root.lg - 1);
    }
  }

  /** The swap of the root. */
  lemma GrowingOk(s: State, start: (nat, nat) -> nat, t: nat)
    requires Inv(s, start) && t < |s.threads| && s.threads[t].Growing?
    requires Sized(Step(s, start, t)) && Lengths(Step(s, start, t))
    ensures ThreadOk(Step(s, start, t), start, t)
  {
    var s', ph := Step(s, start, t), s.threads[t];
    assert ThreadOk(s, start, t);
    assert Pow2(ph.lg) == 2 * Pow2(ph.lg - 1);
    if Root(s) == ph.root {
      assert s'.tables[Root(s')] == Fresh(ph.lg) && Absent(Fresh(ph.lg), t);
    } else if s.tables != [] {
      assert Absent(s.tables[Root(s)], t);
      if ph.lg <= s.tables[Root(s)].lg {
        Pow2Grows(ph.lg, s.tables[Root(s)].lg);
      }
    }
  }

  lemma ProbingOk(s: State, start: (nat, nat) -> nat, t: nat)
    requires Inv(s, start) && t < |s.threads| && (s.threads[t].Probing? || s.threads[t].Claiming?)
    ensures ThreadOk(Step(s, start, t), start, t)
  {
    var s', ph := Step(s, start, t), s.threads[t];
    assert ThreadOk(s, start, t);
    StepTablesOk(s, start, t);
    if FullAt(s.tables[ph.r], start, t, ph.d) {
      assert !HasAt(s.tables[ph.r], start, t, ph.d);
      PassedMore(s.tables[ph.r], start, t, ph.d);
    }
  }

  lemma WritingOk(s: State, start: (nat, nat) -> nat, t: nat)
    requires Inv(s, start) && t < |s.threads| && s.threads[t].Writing?
    ensures ThreadOk(Step(s, start, t), start, t)
  {
    var s', ph := Step(s, start, t), s.threads[t];
    assert ThreadOk(s, start, t);
    StepTablesOk(s, start, t);
    var j := Pos(start, t, s.tables[ph.r].lg, ph.d);
    assert s'.tables[ph.r].slots[j].key == t;
    assert !Absent(s'.tables[ph.r], t);
  }

  lemma OwnThreadOk(s: State, start: (nat, nat) -> nat, t: nat)
    requires Inv(s, start) && t < |s.threads|
    requires Sized(Step(s, start, t)) && Lengths(Step(s, start, t))
    ensures ThreadOk(Step(s, start, t), start, t)
  {
    assert ThreadOk(s, start, t);
    var ph := s.threads[t];
    if ph.Scan? {
      ScanOk(s, start, t);
    } else if ph.Sizing? {
      SizingOk(s, start, t);
    } else if ph.Growing? {
      GrowingOk(s, start, t);
    } else if ph.Probing? || ph.Claiming? {
      ProbingOk(s, start, t);
    } else if ph.Writing? {
      WritingOk(s, start, t);
    } else if ph.Idle? || ph.Creating? {
      NotYet(s, start, t);
    }
  }

  predicate MadeFirst(s: State)
    requires Lengths(s)
  {
    forall t | 0 <= t < |s.threads| :: s.ticket[t] != 0 ==> s.local[t] != EMPTY
  }

  lemma TicketsKept(s: State, start: (nat, nat) -> nat, t: nat)
    requires Lengths(s) && TicketsOk(s) && MadeFirst(s) && t < |s.threads|
    requires s.threads[t].Counting? ==> s.local[t] != EMPTY && s.ticket[t] == 0
    ensures (var s' := Step(s, start, t); Lengths(s') && TicketsOk(s') && MadeFirst(s'))
  {
    var s' := Step(s, start, t);
    if s.threads[t].Counting? {
      assert s'.count == s.count + 1 && s'.ticket == s.ticket[t := s'.count] && s'.local == s.local;
    } else if s.threads[t].Creating? {
      assert s'.count == s.count && s'.ticket == s.ticket && s'.local == s.local[t := s.pointers];
    } else {
      NoHistory(s, start, t);
    }
  }

  lemma LocalsKept(s: State, start: (nat, nat) -> nat, t: nat)
    requires Lengths(s) && LocalsOk(s) && t < |s.threads|
    requires s.threads[t].Creating? ==> s.local[t] == EMPTY
    ensures Lengths(Step(s, start, t)) && LocalsOk(Step(s, start, t))
    ensures forall u | 0 <= u < |s.threads| && s.local[u] != EMPTY :: Step(s, start, t).local[u] == s.local[u]
  {
    if !s.threads[t].Counting? && !s.threads[t].Creating? {
      NoHistory(s, start, t);
      SamePointers(s, start, t);
    }
  }

  lemma SamePointers(s: State, start: (nat, nat) -> nat, t: nat)
    requires Lengths(s) && t < |s.threads| && !s.threads[t].Creating?
    ensures Step(s, start, t).pointers == s.pointers
  {
  }

  lemma ThreadsKept(s: State, start: (nat, nat) -> nat, t: nat, u: nat)
    requires Inv(s, start) && t < |s.threads| && u < |s.threads|
    requires Evolves(s, Step(s, start, t), t) && TablesOk'(Step(s, start, t), start)
    ensures ThreadOk(Step(s, start, t), start, u)
  {
    if u == t {
      OwnThreadOk(s, start, t);
    } else {
      assert ThreadOk(s, start, u);
      OtherThreadOk(s, Step(s, start, t), start, t, u);
    }
  }

  /** Every step keeps the invariant. */
  lemma StepKeepsInv(s: State, start: (nat, nat) -> nat, t: nat)
    requires Inv(s, start) && t < |s.threads|
    ensures Inv(Step(s, start, t), start) && |Step(s, start, t).threads| == |s.threads|
  {
    var s' := Step(s, start, t);
    StepEvolves(s, start, t);
    StepTablesOk(s, start, t);
    assert ThreadOk(s, start, t);
    TicketsKept(s, start, t);
    LocalsKept(s, start, t);
    forall u | 0 <= u < |s'.threads| ensures ThreadOk(s', start, u) {
      ThreadsKept(s, start, t, u);
    }
  }

  // ---------- how full a table can be ----------

  /** How many of the first n slots are taken. */
  function Taken(slots: seq<Slot>, n: nat): (c: nat)
    requires n <= |slots|
    ensures c <= n
  {
    if n == 0 then 0 else Taken(slots, n - 1) + if slots[n - 1].key == EMPTY then 0 else 1
  }

  predicate Entered(slots: seq<Slot>, ticket: seq<nat>, j: nat)
    requires j < |slots|
  {
    0 <= slots[j].key < |ticket|
  }

  /** The tickets of the threads whose keys are in the first n slots. */
  function Tickets(slots: seq<Slot>, ticket: seq<nat>, n: nat): (f: set<nat>)
    requires n <= |slots|
  {
    if n == 0 then {}
    else Tickets(slots, ticket, n - 1) + if Entered(slots, ticket, n - 1) then {ticket[slots[n - 1].key]} else {}
  }

  lemma {:induction false} UpTo(f: set<nat>, m: nat)
    requires forall x | x in f :: 1 <= x <= m
    ensures |f| <= m
  {
    if m == 0 {
      assert forall x :: x !in f;
    } else if m in f {
      var g := f - {m};
      UpTo(g, m - 1);
      assert f == g + {m};
    } else {
      UpTo(f, m - 1);
    }
  }

  /** Each taken slot has a ticket of its own, up to m. */
  ghost predicate Ticketed(slots: seq<Slot>, ticket: seq<nat>, m: nat) {
    && (forall j | 0 <= j < |slots| :: slots[j].key >= EMPTY)
    && (forall j {:trigger Entered(slots, ticket, j)} | 0 <= j < |slots| && slots[j].key != EMPTY ::
          Entered(slots, ticket, j) && 1 <= ticket[slots[j].key] <= m)
    && (forall i, j {:trigger Entered(slots, ticket, i), Entered(slots, ticket, j)} |
          0 <= i < j < |slots| && Entered(slots, ticket, i) && Entered(slots, ticket, j) ::
          ticket[slots[i].key] != ticket[slots[j].key])
  }

  lemma TableTicketed(s: State, start: (nat, nat) -> nat, r: nat)
    requires Lengths(s) && TicketsOk(s) && r < |s.tables| && TableOk(s, start, r)
    ensures Ticketed(s.tables[r].slots, s.ticket, Size(s.tables[r]) / 2)
  {
    var slots := s.tables[r].slots;
    forall j | 0 <= j < |slots| && slots[j].key != EMPTY
      ensures Entered(slots, s.ticket, j) && 1 <= s.ticket[slots[j].key] <= Size(s.tables[r]) / 2
    {
      assert SlotOk(s, start, r, j);
    }
  }

  lemma {:induction false} NewTicket(slots: seq<Slot>, ticket: seq<nat>, m: nat, n: nat, k: nat)
    requires n <= k < |slots| && Ticketed(slots, ticket, m) && Entered(slots, ticket, k)
    ensures ticket[slots[k].key] !in Tickets(slots, ticket, n)
  {
    if n > 0 {
      NewTicket(slots, ticket, m, n - 1, k);
      assert Entered(slots, ticket, n - 1) ==> ticket[slots[n - 1].key] != ticket[slots[k].key];
    }
  }

  /** The keys of a table have as many tickets, all within half of its size. */
  lemma {:induction false} TicketsCount(slots: seq<Slot>, ticket: seq<nat>, m: nat, n: nat)
    requires n <= |slots| && Ticketed(slots, ticket, m)
    ensures |Tickets(slots, ticket, n)| == Taken(slots, n)
    ensures forall x | x in Tickets(slots, ticket, n) :: 1 <= x <= m
  {
    if n > 0 {
      TicketsCount(slots, ticket, m, n - 1);
      assert Entered(slots, ticket, n - 1) <==> slots[n - 1].key != EMPTY;
      if Entered(slots, ticket, n - 1) {
        NewTicket(slots, ticket, m, n - 1, n - 1);
      }
    }
  }

  /** A table never holds keys in more than half of its slots. */
  lemma HalfFull(s: State, start: (nat, nat) -> nat, r: nat)
    requires Lengths(s) && TicketsOk(s) && r < |s.tables| && TableOk(s, start, r)
    ensures Taken(s.tables[r].slots, |s.tables[r].slots|) <= Size(s.tables[r]) / 2
  {
    var slots := s.tables[r].slots;
    TableTicketed(s, start, r);
    TicketsCount(slots, s.ticket, Size(s.tables[r]) / 2, |slots|);
    UpTo(Tickets(slots, s.ticket, |slots|), Size(s.tables[r]) / 2);
  }

  function TakenSlots(slots: seq<Slot>, n: nat): (f: set<nat>)
    requires n <= |slots|
  {
    set j | 0 <= j < n && slots[j].key != EMPTY
  }

  lemma {:induction false} TakenSize(slots: seq<Slot>, n: nat)
    requires n <= |slots|
    ensures |TakenSlots(slots, n)| == Taken(slots, n)
  {
    if n == 0 {
      assert forall x :: x !in TakenSlots(slots, 0);
    } else {
      TakenSize(slots, n - 1);
      assert TakenSlots(slots, n)
          == TakenSlots(slots, n - 1) + if slots[n - 1].key == EMPTY then {} else {n - 1};
    }
  }

  function Visited(start: (nat, nat) -> nat, t: nat, lg: nat, d: nat): (f: set<nat>) {
    set e: nat | 0 <= e < d :: Pos(start, t, lg, e)
  }

  lemma ModDiffers(x: nat, e: nat, d: nat, n: nat)
    requires e < d < e + n
    ensures (x + e) % n != (x + d) % n
  {
    var q, r := (x + e) / n, (x + e) % n;
    var y := r + (d - e);
    assert x + d == n * q + y;
    if y < n {
      DivModUnique(x + d, n, q, y);
    } else {
      assert n * (q + 1) == n * q + n;
      DivModUnique(x + d, n, q + 1, y - n);
    }
  }

  /** Within one round a probe sequence visits no slot twice. */
  lemma {:induction false} VisitedSize(start: (nat, nat) -> nat, t: nat, lg: nat, d: nat)
    requires d <= Pow2(lg)
    ensures |Visited(start, t, lg, d)| == d
  {
    if d == 0 {
      assert forall x :: x !in Visited(start, t, lg, 0);
    } else {
      VisitedSize(start, t, lg, d - 1);
      forall e: nat | e < d - 1 ensures Pos(start, t, lg, e) != Pos(start, t, lg, d - 1) {
        ModDiffers(start(t, lg), e, d - 1, Pow2(lg));
      }
      assert Visited(start, t, lg, d) == Visited(start, t, lg, d - 1) + {Pos(start, t, lg, d - 1)};
    }
  }

  /** A probe sequence meets an empty slot before it has looked at more than half of the table. */
  lemma PassedIsShort(s: State, start: (nat, nat) -> nat, r: nat, t: nat, d: nat)
    requires Lengths(s) && TicketsOk(s) && r < |s.tables| && TableOk(s, start, r)
    requires Passed(s.tables[r], start, t, d)
    ensures d <= Size(s.tables[r]) / 2
  {
    var tab := s.tables[r];
    var n := |tab.slots|;
    var e := if d <= n then d else n;
    HalfFull(s, start, r);
    TakenSize(tab.slots, n);
    VisitedSize(start, t, tab.lg, e);
    var seen, taken := Visited(start, t, tab.lg, e), TakenSlots(tab.slots, n);
    forall x | x in seen ensures x in taken {
      var i: nat :| i < e && x == Pos(start, t, tab.lg, i);
      assert FullAt(tab, start, t, i);
    }
    SubsetSize(seen, taken);
  }

  lemma {:induction false} SubsetSize(a: set<nat>, b: set<nat>)
    requires a <= b
    ensures |a| <= |b|
  {
    var rest := b - a;
    assert b == a + rest;
  }

  // ---------- every run ----------

  datatype History = Begun(start: State) | Then(past: History, thread: nat)

  /** A new container. */
  predicate Start(s: State) {
    && Lengths(s) && s.tables == [] && s.count == 0
    && forall t | 0 <= t < |s.threads| ::
         s.threads[t].Idle? && s.ticket[t] == 0 && s.local[t] == EMPTY && s.made[t] == 0
  }

  function Threads(h: History): (n: nat) {
    match h
    case Begun(s0) => |s0.threads|
    case Then(past, _) => Threads(past)
  }

  /** No thread is inside table_lookup. */
  ghost predicate Settled(s: State, start: (nat, nat) -> nat) {
    Inv(s, start) && forall t | 0 <= t < |s.threads| :: s.threads[t].Idle?
  }

  lemma NewIsSettled(s: State, start: (nat, nat) -> nat)
    requires Start(s)
    ensures Settled(s, start)
  {
    forall t | 0 <= t < |s.threads| ensures ThreadOk(s, start, t) {
    }
  }

  /** Runs begin with a new container, or with one that was used, or copied from another, before. */
  ghost predicate Begins(h: History, start: (nat, nat) -> nat) {
    match h
    case Begun(s0) => Settled(s0, start)
    case Then(past, t) => Begins(past, start) && t < Threads(past)
  }

  ghost function After(h: History, start: (nat, nat) -> nat): (s: State)
    requires Begins(h, start)
    ensures Inv(s, start) && |s.threads| == Threads(h)
  {
    match h
    case Begun(s0) => s0
    case Then(past, t) =>
      StepKeepsInv(After(past, start), start, t);
      Step(After(past, start), start, t)
  }

  /** Every table is at most half full, and each table is smaller than the one swapped in after it. */
  lemma TablesStayHalfEmpty(h: History, start: (nat, nat) -> nat, r: nat)
    requires Begins(h, start) && r < |After(h, start).tables|
    ensures (var tab := After(h, start).tables[r];
             && |tab.slots| == Size(tab) && 2 * Taken(tab.slots, |tab.slots|) <= Size(tab)
             && (r > 0 ==> Size(After(h, start).tables[r - 1]) < Size(tab)))
  {
    var s := After(h, start);
    assert TableOk(s, start, r);
    HalfFull(s, start, r);
    if r > 0 {
      Pow2Grows(s.tables[r - 1].lg, s.tables[r].lg);
    }
  }

  /** Every probe loop ends: it has never passed more slots than half of its table. */
  lemma ProbesEnd(h: History, start: (nat, nat) -> nat, t: nat)
    requires Begins(h, start) && t < Threads(h)
    ensures (var s, ph := After(h, start), After(h, start).threads[t];
             ph.Scan? || ph.Probing? || ph.Claiming? ==> ph.r < |s.tables| && 2 * ph.d <= Size(s.tables[ph.r]))
  {
    var s := After(h, start);
    assert ThreadOk(s, start, t);
    var ph := s.threads[t];
    if ph.Scan? || ph.Probing? || ph.Claiming? {
      assert TableOk(s, start, ph.r);
      PassedIsShort(s, start, ph.r, t, ph.d);
    }
  }

  /** create_local runs at most once for a thread, and exactly once for one whose lookup has returned. */
  lemma CreatedOnce(h: History, start: (nat, nat) -> nat, t: nat)
    requires Begins(h, start) && t < Threads(h)
    ensures (var s := After(h, start);
             && s.made[t] <= 1 && (s.threads[t].Creating? ==> s.made[t] == 0)
             && (s.threads[t].Returning? ==> s.made[t] == 1))
  {
    assert ThreadOk(After(h, start), start, t);
  }

  predicate Extends(later: History, h: History) {
    later == h || (later.Then? && Extends(later.past, h))
  }

  lemma AtTableGoesOn(s: State, start: (nat, nat) -> nat, t: nat)
    requires Lengths(s) && t < |s.threads|
    requires s.threads[t].Scan? || s.threads[t].Probing? || s.threads[t].Claiming? || s.threads[t].Writing?
    requires s.threads[t].r < |s.tables| && |s.tables[s.threads[t].r].slots| == Size(s.tables[s.threads[t].r])
    ensures |Step(s, start, t).threads| == |s.threads| && Step(s, start, t).threads[t] != s.threads[t]
  {
  }

  lemma ElsewhereGoesOn(s: State, start: (nat, nat) -> nat, t: nat)
    requires Lengths(s) && t < |s.threads| && (s.threads[t].Inserting? ==> s.tables != [])
    requires !s.threads[t].Scan? && !s.threads[t].Probing? && !s.threads[t].Claiming? && !s.threads[t].Writing?
    ensures |Step(s, start, t).threads| == |s.threads| && Step(s, start, t).threads[t] != s.threads[t]
  {
  }

  /** A lookup never waits for others: each of its steps takes it somewhere else. */
  lemma LookupsGoOn(h: History, start: (nat, nat) -> nat, t: nat)
    requires Begins(h, start) && t < Threads(h)
    ensures Step(After(h, start), start, t).threads[t] != After(h, start).threads[t]
  {
    var s := After(h, start);
    var ph := s.threads[t];
    assert ThreadOk(s, start, t);
    if ph.Scan? || ph.Probing? || ph.Claiming? || ph.Writing? {
      AtTableGoesOn(s, start, t);
    } else {
      ElsewhereGoesOn(s, start, t);
    }
  }

  /** The state in which thread t began its current call, or its last one. */
  ghost function Began(h: History, start: (nat, nat) -> nat, t: nat): (s: State)
    requires Begins(h, start) && t < Threads(h)
    ensures |s.threads| == |s.local| == |s.made| == Threads(h)
  {
    match h
    case Begun(s0) => s0
    case Then(past, u) =>
      if u == t && After(past, start).threads[t].Idle? then After(past, start) else Began(past, start, t)
  }

  /** The call of a thread in phase ph knows whether the element was there when the call began; `now` it is `local`. */
  predicate Knows(ph: Phase, before: int, now: int) {
    match ph
    case Idle => true
    case Scan(_, _) => now == before
    case Creating => now == before == EMPTY
    case Inserting(_, known) => known <==> before != EMPTY
    case Probing(_, known, _, _) => known <==> before != EMPTY
    case Claiming(_, known, _, _) => known <==> before != EMPTY
    case Writing(_, known, _, _) => known <==> before != EMPTY
    case Returning(_, known) => known <==> before != EMPTY
    case _ => before == EMPTY
  }

  lemma StepKnows(s: State, start: (nat, nat) -> nat, t: nat, before: int)
    requires Lengths(s) && t < |s.threads| && !s.threads[t].Idle? && Knows(s.threads[t], before, s.local[t])
    requires Lengths(Step(s, start, t)) && |Step(s, start, t).threads| == |s.threads|
    requires (var s' := Step(s, start, t);
              && (s'.threads[t].Creating? ==> s'.local[t] == EMPTY)
              && (s.threads[t].Scan? && (s'.threads[t].Inserting? || s'.threads[t].Returning?) ==>
                    s'.local[t] != EMPTY))
    ensures (var s' := Step(s, start, t); Knows(s'.threads[t], before, s'.local[t]))
  {
  }

  lemma {:induction false} RunKnows(h: History, start: (nat, nat) -> nat, t: nat)
    requires Begins(h, start) && t < Threads(h)
    ensures Knows(After(h, start).threads[t], Began(h, start, t).local[t], After(h, start).local[t])
  {
    match h
    case Begun(_) =>
    case Then(past, u) =>
      RunKnows(past, start, t);
      var s := After(past, start);
      StepOthersSame(s, start, u);
      if u == t {
        OwnKnows(s, start, t, Began(h, start, t).local[t]);
      }
  }

  lemma OwnKnows(s: State, start: (nat, nat) -> nat, t: nat, before: int)
    requires Inv(s, start) && t < |s.threads|
    requires if s.threads[t].Idle? then before == s.local[t] else Knows(s.threads[t], before, s.local[t])
    ensures (var s' := Step(s, start, t);
             |s'.threads| == |s.threads| == |s'.local| && Knows(s'.threads[t], before, s'.local[t]))
  {
    StepKeepsInv(s, start, t);
    assert ThreadOk(Step(s, start, t), start, t);
    if !s.threads[t].Idle? {
      StepKnows(s, start, t, before);
    } else {
      NoHistory(s, start, t);
    }
  }

  /** Some table from number r on, counted from the oldest one, holds t's key. */
  ghost predicate PresentFrom(s: State, t: nat, r: int) {
    exists q {:trigger Absent(s.tables[q], t)} :: 0 <= q && r <= q < |s.tables| && !Absent(s.tables[q], t)
  }

  /** Where a call that began when table r was the root puts, or found, its key. */
  ghost predicate PutsHigh(s: State, t: nat, r: int)
    requires t < |s.threads|
  {
    match s.threads[t]
    case Probing(_, _, q, _) => r <= q
    case Claiming(_, _, q, _) => r <= q
    case Writing(_, _, q, _) => r <= q
    case Returning(_, _) => PresentFrom(s, t, r)
    case _ => true
  }

  lemma OwnPutsHigh(s: State, start: (nat, nat) -> nat, t: nat, r: int)
    requires Inv(s, start) && t < |s.threads| && r <= Root(s) && PutsHigh(s, t, r)
    ensures (var s' := Step(s, start, t); |s'.threads| == |s.threads| && PutsHigh(s', t, r))
  {
    var s', ph := Step(s, start, t), s.threads[t];
    StepKeepsInv(s, start, t);
    assert ThreadOk(s, start, t);
    if s'.threads[t].Returning? {
      assert 0 <= ph.r < |s.tables| && r <= ph.r;
      assert |s'.tables| == |s.tables| && |s.tables[ph.r].slots| == Size(s.tables[ph.r]);
      var j := Pos(start, t, s.tables[ph.r].lg, ph.d);
      assert s'.tables[ph.r].slots[j].key == t;
      assert !Absent(s'.tables[ph.r], t);
    }
  }

  lemma OtherPutsHigh(s: State, start: (nat, nat) -> nat, u: nat, t: nat, r: int)
    requires Inv(s, start) && t < |s.threads| && u < |s.threads| && t != u && PutsHigh(s, t, r)
    ensures (var s' := Step(s, start, u); |s'.threads| == |s.threads| && PutsHigh(s', t, r))
  {
    StepEvolves(s, start, u);
    if s.threads[t].Returning? {
      var q :| 0 <= q && r <= q < |s.tables| && !Absent(s.tables[q], t);
      AbsentKept(s.tables[q], Step(s, start, u).tables[q], u, t);
    }
  }

  /**
   When a lookup returns, the thread's key is in a table no older than the root that the call began with:
   an entry found further down was entered again.
   */
  lemma {:induction false} FoundIsMovedUp(h: History, start: (nat, nat) -> nat, t: nat)
    requires Begins(h, start) && t < Threads(h)
    ensures Root(Began(h, start, t)) <= Root(After(h, start)) && PutsHigh(After(h, start), t, Root(Began(h, start, t)))
  {
    match h
    case Begun(_) =>
    case Then(past, u) =>
      FoundIsMovedUp(past, start, t);
      var s := After(past, start);
      StepEvolves(s, start, u);
      if u == t {
        OwnPutsHigh(s, start, t, Root(Began(h, start, t)));
      } else {
        OtherPutsHigh(s, start, u, t, Root(Began(past, start, t)));
      }
  }

  /**
   A lookup that returns gives the thread's own element: the same ever after, and no other thread's.  It
   says that the element was there if and only if it was when the call began, that is, if and only if
   create_local did not run in this call.
   */
  lemma {:induction false} ReturnsOwnElement(h: History, later: History, start: (nat, nat) -> nat, t: nat, u: nat)
    requires Begins(later, start) && Extends(later, h) && t < Threads(later) && u < Threads(later)
    ensures Begins(h, start) && Threads(h) == Threads(later)
    ensures After(h, start).threads[t].Returning? ==>
              (var found := After(h, start).threads[t].found;
               && found != EMPTY && After(later, start).local[t] == found
               && (After(later, start).threads[t].Returning? ==> After(later, start).threads[t].found == found)
               && (u != t ==> After(later, start).local[u] != found))
    ensures After(h, start).threads[t].Returning? ==>
              (var s, before := After(h, start), Began(h, start, t);
               && (s.threads[t].known <==> before.made[t] == 1)
               && s.made[t] == before.made[t] + (if s.threads[t].known then 0 else 1))
  {
    ElementIsStable(h, later, start, t);
    ReturningOk(After(h, start), start, t);
    ReturningOk(After(later, start), start, t);
    RunKnows(h, start, t);
    assert ThreadOk(After(h, start), start, t);
    BeganOk(h, start, t);
  }

  lemma {:induction false} BeganOk(h: History, start: (nat, nat) -> nat, t: nat)
    requires Begins(h, start) && t < Threads(h)
    ensures (var s := Began(h, start, t); s.made[t] == if s.local[t] == EMPTY then 0 else 1)
  {
    match h
    case Begun(s0) => assert ThreadOk(s0, start, t);
    case Then(past, u) =>
      BeganOk(past, start, t);
      assert ThreadOk(After(past, start), start, t);
  }

  /** An element that a thread has stays, so each later call finds it. */
  lemma {:induction false} HadBefore(h: History, later: History, start: (nat, nat) -> nat, t: nat)
    requires Begins(later, start) && Extends(later, h) && t < Threads(later)
    requires h.Begun? && t < |h.start.local| && h.start.local[t] != EMPTY
    ensures Began(later, start, t).local[t] != EMPTY
  {
    if later != h {
      HadBefore(h, later.past, start, t);
      ElementIsStable(h, later.past, start, t);
    }
  }

  lemma ReturningOk(s: State, start: (nat, nat) -> nat, t: nat)
    requires Inv(s, start) && t < |s.threads|
    ensures s.threads[t].Returning? ==> s.threads[t].found == s.local[t] != EMPTY
    ensures s.local[t] != EMPTY ==> forall u | 0 <= u < |s.threads| && u != t :: s.local[u] != s.local[t]
  {
    assert ThreadOk(s, start, t);
  }

  lemma {:induction false} ElementIsStable(h: History, later: History, start: (nat, nat) -> nat, t: nat)
    requires Begins(later, start) && Extends(later, h) && t < Threads(later)
    ensures Begins(h, start) && Threads(h) == Threads(later)
    ensures After(h, start).local[t] != EMPTY ==> After(later, start).local[t] == After(h, start).local[t]
  {
    if later != h {
      ElementIsStable(h, later.past, start, t);
      assert ThreadOk(After(later.past, start), start, later.thread);
      LocalsKept(After(later.past, start), start, later.thread);
    }
  }
}
