/** Payload extents over runs of commits, failures, snapshots and recoveries. */
module PayloadRuns {
  import opened Pages
  import opened PayloadRegistration
  import opened ReuseQueue

  /** A version some open transaction reads. */
  datatype Reader = Reader(txid: nat, cells: multiset<PayloadRef>)

  /** What is committed: the registry, the references of all leaf cells, and the end of the file. */
  datatype Committed = Committed(
    entries: map<PageId, Extent>, queue: map<QueueKey, QueueValue>, cells: multiset<PayloadRef>, txid: nat, next: PageId, tree: iset<PageId>)

  /**
   * `bodies` says which body each extent holds on disk; `pending` is a commit whose
   * publication failed, so that recovery decides whether it happened.
   */
  datatype State = State(now: Committed, readers: map<nat, Reader>, bodies: map<PageId, PayloadRef>, pending: Option<Committed>)

  /** A body written during planning, straight into the main file. */
  datatype BodyWrite = BodyWrite(reference: PayloadRef, capacity: nat, generation: nat)

  // ---------- planning ----------

  ghost predicate IsOldest(s: State, oldest: nat) {
    && oldest <= s.now.txid
    && forall t :: t in s.readers ==> oldest <= s.readers[t].txid
  }

  /** What `Reserve` guarantees of the extent it picks. */
  ghost predicate Allowed(c: Committed, oldest: nat, w: BodyWrite) {
    var f := w.reference.first;
    || (c.next <= f && f !in c.entries)
    || (f in c.entries && Retired(c.entries[f]) && c.entries[f].retiredTxid <= oldest && c.entries[f].capacity == w.capacity)
  }

  ghost predicate PlannedWrites(s: State, writes: map<PageId, BodyWrite>) {
    exists oldest :: IsOldest(s, oldest) && forall f :: f in writes ==> writes[f].reference.first == f && Allowed(s.now, oldest, writes[f])
  }

  function Overwritten(bodies: map<PageId, PayloadRef>, writes: map<PageId, BodyWrite>): map<PageId, PayloadRef> {
    bodies + map f | f in writes :: writes[f].reference
  }

  function Registered(entries: map<PageId, Extent>, writes: map<PageId, BodyWrite>): map<PageId, Extent> {
    entries + map f | f in writes :: Extent(writes[f].reference, 0, writes[f].capacity, 0, writes[f].generation)
  }

  ghost predicate Apart(a: PageId, n: nat, b: PageId, m: nat) {
    a + n <= b || b + m <= a
  }

  /** The registry a plan leads to: every leaf cell added or dropped is counted. */
  ghost predicate Counted(s: State, writes: map<PageId, BodyWrite>, added: multiset<PayloadRef>, dropped: multiset<PayloadRef>, c: Committed) {
    && c.cells + dropped == s.now.cells + added
    && AllRecounted(Registered(s.now.entries, writes), c.entries, added, dropped, c.txid)
    && (forall f :: f in c.entries && Registered(s.now.entries, writes)[f].references == 0 && c.entries[f].references > 0 ==> f in writes)
    && (forall f :: f in writes ==> f in c.entries && c.entries[f].references > 0)
  }

  /** Where it puts things: the allocator hands out disjoint fresh ids. */
  ghost predicate Placed(s: State, writes: map<PageId, BodyWrite>, c: Committed) {
    && s.now.next <= c.next
    && (forall f :: f in writes && f !in s.now.entries ==> writes[f].capacity > 0 && f + writes[f].capacity <= c.next)
    && (forall f, g :: f in writes && g in writes && f != g && f !in s.now.entries && g !in s.now.entries ==> Apart(f, writes[f].capacity, g, writes[g].capacity))
    && (forall p :: p in c.tree ==> p < c.next && (p in s.now.tree || (s.now.next <= p && forall f :: f in writes && f !in s.now.entries ==> !(f <= p && p < f + writes[f].capacity))))
  }

  /** The commit a plan leads to. */
  ghost predicate Plans(s: State, writes: map<PageId, BodyWrite>, added: multiset<PayloadRef>, dropped: multiset<PayloadRef>, c: Committed) {
    PlannedWrites(s, writes) && s.now.txid < c.txid && Counted(s, writes, added, dropped, c) && Placed(s, writes, c) && Indexed(c.entries, c.queue)
  }

  datatype Step =
    | Begin(t: nat)
    | Finish(t: nat)
    | FailPlan(writes: map<PageId, BodyWrite>)
    | Commit(writes: map<PageId, BodyWrite>, added: multiset<PayloadRef>, dropped: multiset<PayloadRef>)
    | FailPublish(writes: map<PageId, BodyWrite>, added: multiset<PayloadRef>, dropped: multiset<PayloadRef>, c: Committed)
    | Recover(adopt: bool)

  ghost predicate Takes(s: State, step: Step, s': State) {
    match step
    case Begin(t) => s.pending.None? && t !in s.readers && s' == s.(readers := s.readers[t := Reader(s.now.txid, s.now.cells)])
    case Finish(t) => s' == s.(readers := s.readers - {t})
    // the bodies stay on disk, the registry forgets the plan
    case FailPlan(writes) => s.pending.None? && PlannedWrites(s, writes) && s' == s.(bodies := Overwritten(s.bodies, writes))
    case Commit(writes, added, dropped) =>
      s.pending.None? && Plans(s, writes, added, dropped, s'.now) && s' == s.(now := s'.now, bodies := Overwritten(s.bodies, writes))
    case FailPublish(writes, added, dropped, c) =>
      s.pending.None? && Plans(s, writes, added, dropped, c) && s' == s.(bodies := Overwritten(s.bodies, writes), pending := Some(c))
    case Recover(adopt) =>
      s' == State(if adopt && s.pending.Some? then s.pending.value else s.now, map[], s.bodies, None)
  }

  // ---------- the invariant ----------

  /** Counts are exact: an extent's count is the number of cells naming its body. */
  ghost predicate Exact(c: Committed) {
    && (forall f :: f in c.entries ==> c.entries[f].references == c.cells[c.entries[f].reference])
    && (forall r :: r in c.cells ==> r.first in c.entries && c.entries[r.first].reference == r)
  }

  /** Extents are disjoint from each other and from tree pages, and inside the file. */
  ghost predicate Separate(c: Committed) {
    && (forall f :: f in c.entries ==> c.entries[f].capacity > 0 && f + c.entries[f].capacity <= c.next)
    && (forall f, g :: f in c.entries && g in c.entries && f != g ==> Apart(f, c.entries[f].capacity, g, c.entries[g].capacity))
    && (forall p :: p in c.tree ==> p < c.next)
    && (forall f, p :: f in c.entries && p in c.tree ==> !(f <= p && p < f + c.entries[f].capacity))
  }

  ghost predicate Good(c: Committed) {
    && Indexed(c.entries, c.queue) && Exact(c) && Separate(c)
    && (forall f :: f in c.entries ==> c.entries[f].retiredTxid <= c.txid && (c.entries[f].references == 0 <==> c.entries[f].retiredTxid > 0))
  }

  /** The extent a reader needs is still referenced, or was retired after its version. */
  ghost predicate Kept(c: Committed, v: Reader, r: PayloadRef) {
    r.first in c.entries && c.entries[r.first].reference == r && (c.entries[r.first].references > 0 || c.entries[r.first].retiredTxid > v.txid)
  }

  /** Every body named by these cells is intact on disk. */
  ghost predicate Intact(bodies: map<PageId, PayloadRef>, cells: multiset<PayloadRef>) {
    forall r :: r in cells ==> r.first in bodies && bodies[r.first] == r
  }

  ghost predicate ReaderOk(s: State, t: nat)
    requires t in s.readers
  {
    && s.readers[t].txid <= s.now.txid
    && (forall r :: r in s.readers[t].cells ==> Kept(s.now, s.readers[t], r))
    && Intact(s.bodies, s.readers[t].cells)
  }

  ghost predicate Inv(s: State) {
    && Good(s.now) && Intact(s.bodies, s.now.cells)
    && (forall t :: t in s.readers ==> ReaderOk(s, t))
    && (s.pending.Some? ==> Good(s.pending.value) && Intact(s.bodies, s.pending.value.cells))
  }

  // ---------- overwriting is safe ----------

  /** No current cell and no open reader names an extent that planning may overwrite. */
  lemma {:induction false} WritesAreUnreferenced(s: State, writes: map<PageId, BodyWrite>)
    requires Inv(s) && PlannedWrites(s, writes)
    ensures forall r :: r in s.now.cells ==> r.first !in writes
    ensures forall t, r :: t in s.readers && r in s.readers[t].cells ==> r.first !in writes
  {
    hide Indexed, Separate;
    var oldest :| IsOldest(s, oldest) && forall f :: f in writes ==> writes[f].reference.first == f && Allowed(s.now, oldest, writes[f]);
    forall r | r in s.now.cells ensures r.first !in writes {
      assert s.now.entries[r.first].references > 0;
    }
    forall t, r | t in s.readers && r in s.readers[t].cells ensures r.first !in writes {
      assert ReaderOk(s, t);
      assert Kept(s.now, s.readers[t], r);
    }
  }

  lemma {:induction false} WritesKeepIntact(s: State, writes: map<PageId, BodyWrite>)
    requires Inv(s) && PlannedWrites(s, writes)
    ensures Intact(Overwritten(s.bodies, writes), s.now.cells)
    ensures forall t :: t in s.readers ==> Intact(Overwritten(s.bodies, writes), s.readers[t].cells)
  {
    hide PlannedWrites, Good;
    WritesAreUnreferenced(s, writes);
    forall t | t in s.readers ensures Intact(Overwritten(s.bodies, writes), s.readers[t].cells) {
      assert ReaderOk(s, t);
    }
  }

  // ---------- a plan keeps the registry good ----------

  lemma {:induction false} WriteFacts(s: State, writes: map<PageId, BodyWrite>, f: PageId)
    requires Good(s.now) && PlannedWrites(s, writes) && f in writes
    ensures writes[f].reference.first == f && forall r :: r in s.now.cells ==> r.first != f
    ensures f in s.now.entries ==> writes[f].capacity == s.now.entries[f].capacity
    ensures f !in s.now.entries ==> s.now.next <= f
  {
    hide Indexed, Separate;
    var oldest :| IsOldest(s, oldest) && forall f :: f in writes ==> writes[f].reference.first == f && Allowed(s.now, oldest, writes[f]);
    assert Allowed(s.now, oldest, writes[f]);
    forall r | r in s.now.cells ensures r.first != f {
      assert s.now.entries[r.first].references > 0;
    }
  }

  lemma {:induction false} CountOf(s: State, added: multiset<PayloadRef>, dropped: multiset<PayloadRef>, c: Committed, r: PayloadRef)
    requires c.cells + dropped == s.now.cells + added
    ensures c.cells[r] == s.now.cells[r] + Net(added, dropped, r)
  {
    assert (c.cells + dropped)[r] == (s.now.cells + added)[r];
  }

  /** What a plan makes of one extent. */
  lemma {:induction false} ExtentAfter(s: State, writes: map<PageId, BodyWrite>, added: multiset<PayloadRef>, dropped: multiset<PayloadRef>, c: Committed, f: PageId)
    requires Counted(s, writes, added, dropped, c) && f in c.entries
    ensures f in writes ==>
              && c.entries[f].reference == writes[f].reference && c.entries[f].capacity == writes[f].capacity
              && c.entries[f].references == Net(added, dropped, writes[f].reference) && c.entries[f].references > 0 && c.entries[f].retiredTxid == 0
    ensures f !in writes ==>
              && f in s.now.entries
              && var e := s.now.entries[f];
              && c.entries[f].reference == e.reference && c.entries[f].capacity == e.capacity
              && c.entries[f].references == e.references + Net(added, dropped, e.reference)
              && (if Net(added, dropped, e.reference) == 0 then c.entries[f] == e else c.entries[f].retiredTxid == if c.entries[f].references == 0 then c.txid else 0)
              && (e.references == 0 ==> c.entries[f].references == 0)
  {
    var mid := Registered(s.now.entries, writes);
    assert f in mid;
  }

  lemma {:induction false} AddedNamesExtent(s: State, writes: map<PageId, BodyWrite>, added: multiset<PayloadRef>, dropped: multiset<PayloadRef>, c: Committed, r: PayloadRef)
    requires Counted(s, writes, added, dropped, c) && r in added
    ensures r.first in c.entries && c.entries[r.first].reference == r
  {
    var mid := Registered(s.now.entries, writes);
    assert r.first in mid && mid[r.first].reference == r;
  }

  lemma {:induction false} OldExtentsStay(s: State, writes: map<PageId, BodyWrite>, added: multiset<PayloadRef>, dropped: multiset<PayloadRef>, c: Committed, f: PageId)
    requires Counted(s, writes, added, dropped, c) && f in s.now.entries
    ensures f in c.entries
  {
    var mid := Registered(s.now.entries, writes);
    assert f in mid;
  }

  lemma {:induction false} PlanIsExact(s: State, writes: map<PageId, BodyWrite>, added: multiset<PayloadRef>, dropped: multiset<PayloadRef>, c: Committed)
    requires Good(s.now) && PlannedWrites(s, writes) && Counted(s, writes, added, dropped, c)
    ensures Exact(c)
  {
    hide Indexed, Separate, PlannedWrites, Counted, Net;
    assert c.cells + dropped == s.now.cells + added by { CellsBalance(s, writes, added, dropped, c); }
    forall f | f in c.entries ensures c.entries[f].references == c.cells[c.entries[f].reference] {
      ExtentAfter(s, writes, added, dropped, c, f);
      CountOf(s, added, dropped, c, c.entries[f].reference);
      if f in writes {
        WriteFacts(s, writes, f);
        assert s.now.cells[c.entries[f].reference] == 0;
      }
    }
    forall r | r in c.cells ensures r.first in c.entries && c.entries[r.first].reference == r {
      if r in added {
        AddedNamesExtent(s, writes, added, dropped, c, r);
      } else {
        StillNamed(s, added, dropped, c, r);
        OldExtentsStay(s, writes, added, dropped, c, r.first);
        ExtentAfter(s, writes, added, dropped, c, r.first);
        if r.first in writes {
          WriteFacts(s, writes, r.first);
        }
      }
    }
  }

  lemma {:induction false} CellsBalance(s: State, writes: map<PageId, BodyWrite>, added: multiset<PayloadRef>, dropped: multiset<PayloadRef>, c: Committed)
    requires Counted(s, writes, added, dropped, c)
    ensures c.cells + dropped == s.now.cells + added
  {
  }

  lemma {:induction false} StillNamed(s: State, added: multiset<PayloadRef>, dropped: multiset<PayloadRef>, c: Committed, r: PayloadRef)
    requires c.cells + dropped == s.now.cells + added && r in c.cells && r !in added
    ensures r in s.now.cells
  {
    CountOf(s, added, dropped, c, r);
  }

  lemma {:induction false} PlanIsSeparate(s: State, writes: map<PageId, BodyWrite>, added: multiset<PayloadRef>, dropped: multiset<PayloadRef>, c: Committed)
    requires Good(s.now) && PlannedWrites(s, writes) && Counted(s, writes, added, dropped, c) && Placed(s, writes, c)
    ensures Separate(c)
  {
    hide Indexed, Exact, PlannedWrites, Counted, Net, Good;
    assert Separate(s.now) by { GoodIsSeparate(s.now); }
    forall f | f in c.entries
      ensures f in s.now.entries ==> c.entries[f].capacity == s.now.entries[f].capacity
      ensures f !in s.now.entries ==> f in writes && s.now.next <= f && c.entries[f].capacity == writes[f].capacity
    {
      ExtentAfter(s, writes, added, dropped, c, f);
      if f in writes {
        WriteFacts(s, writes, f);
      }
    }
    forall f, g | f in c.entries && g in c.entries && f != g ensures Apart(f, c.entries[f].capacity, g, c.entries[g].capacity) {
      if f in s.now.entries && g in s.now.entries {
        assert Apart(f, s.now.entries[f].capacity, g, s.now.entries[g].capacity);
      } else if f !in s.now.entries && g !in s.now.entries {
        assert Apart(f, writes[f].capacity, g, writes[g].capacity);
      }
    }
  }

  lemma {:induction false} GoodIsSeparate(c: Committed)
    requires Good(c)
    ensures Separate(c)
  {
    hide Indexed, Exact, Separate;
  }

  lemma {:induction false} PlanRetires(s: State, writes: map<PageId, BodyWrite>, added: multiset<PayloadRef>, dropped: multiset<PayloadRef>, c: Committed, f: PageId)
    requires Good(s.now) && Counted(s, writes, added, dropped, c) && f in c.entries && s.now.txid < c.txid
    ensures c.entries[f].retiredTxid <= c.txid && (c.entries[f].references == 0 <==> c.entries[f].retiredTxid > 0)
  {
    hide Indexed, Exact, Separate, Counted, Net;
    ExtentAfter(s, writes, added, dropped, c, f);
  }

  lemma {:induction false} PlanKeepsGood(s: State, writes: map<PageId, BodyWrite>, added: multiset<PayloadRef>, dropped: multiset<PayloadRef>, c: Committed)
    requires Inv(s) && Plans(s, writes, added, dropped, c)
    ensures Good(c) && Intact(Overwritten(s.bodies, writes), c.cells)
  {
    hide Indexed, Separate, PlannedWrites, Counted, Placed, Exact, Net, ReaderOk;
    PlanIsExact(s, writes, added, dropped, c);
    PlanIsSeparate(s, writes, added, dropped, c);
    forall f | f in c.entries ensures c.entries[f].retiredTxid <= c.txid && (c.entries[f].references == 0 <==> c.entries[f].retiredTxid > 0) {
      PlanRetires(s, writes, added, dropped, c, f);
    }
    hide Good;
    forall r | r in c.cells ensures r.first in Overwritten(s.bodies, writes) && Overwritten(s.bodies, writes)[r.first] == r {
      BodyAfter(s, writes, added, dropped, c, r);
    }
  }

  lemma {:induction false} BodyAfter(s: State, writes: map<PageId, BodyWrite>, added: multiset<PayloadRef>, dropped: multiset<PayloadRef>, c: Committed, r: PayloadRef)
    requires Inv(s) && PlannedWrites(s, writes) && Counted(s, writes, added, dropped, c) && Exact(c) && r in c.cells
    ensures r.first in Overwritten(s.bodies, writes) && Overwritten(s.bodies, writes)[r.first] == r
  {
    hide Indexed, Separate, Counted, PlannedWrites, ReaderOk;
    ExtentAfter(s, writes, added, dropped, c, r.first);
    if r.first !in writes {
      assert c.entries[r.first].references > 0;
      assert s.now.entries[r.first].references > 0;
      assert r in s.now.cells;
    }
  }

  /** A commit keeps what open readers need. */
  lemma {:induction false} PlanKeepsReaders(s: State, writes: map<PageId, BodyWrite>, added: multiset<PayloadRef>, dropped: multiset<PayloadRef>, c: Committed, t: nat, r: PayloadRef)
    requires Inv(s) && Plans(s, writes, added, dropped, c) && t in s.readers && r in s.readers[t].cells
    ensures Kept(c, s.readers[t], r)
  {
    hide Indexed, Separate, Exact, Counted, PlannedWrites, Placed, Net;
    WritesAreUnreferenced(s, writes);
    assert ReaderOk(s, t);
    assert Kept(s.now, s.readers[t], r);
    OldExtentsStay(s, writes, added, dropped, c, r.first);
    ExtentAfter(s, writes, added, dropped, c, r.first);
  }

  lemma {:induction false} StepKeeps(s: State, step: Step, s': State)
    requires Inv(s) && Takes(s, step, s')
    ensures Inv(s')
  {
    hide Inv, Plans, PlannedWrites;
    match step
    case Begin(t) => BeginKeeps(s, t, s');
    case Finish(t) => FinishKeeps(s, t, s');
    case FailPlan(writes) => FailPlanKeeps(s, writes, s');
    case Commit(writes, added, dropped) => CommitKeeps(s, writes, added, dropped, s');
    case FailPublish(writes, added, dropped, c) => FailPublishKeeps(s, writes, added, dropped, c, s');
    case Recover(adopt) => RecoverKeeps(s, adopt, s');
  }

  lemma {:induction false} FinishKeeps(s: State, t: nat, s': State)
    requires Inv(s) && s' == s.(readers := s.readers - {t})
    ensures Inv(s')
  {
    hide Good, Intact, Kept;
    forall u | u in s'.readers ensures ReaderOk(s', u) {
      assert ReaderOk(s, u);
    }
  }

  lemma {:induction false} FailPlanKeeps(s: State, writes: map<PageId, BodyWrite>, s': State)
    requires Inv(s) && s.pending.None? && PlannedWrites(s, writes) && s' == s.(bodies := Overwritten(s.bodies, writes))
    ensures Inv(s')
  {
    hide Good, Kept, PlannedWrites, Intact;
    WritesKeepIntact(s, writes);
    forall u | u in s'.readers ensures ReaderOk(s', u) {
      assert ReaderOk(s, u);
    }
  }

  lemma {:induction false} FailPublishKeeps(s: State, writes: map<PageId, BodyWrite>, added: multiset<PayloadRef>, dropped: multiset<PayloadRef>, c: Committed, s': State)
    requires Inv(s) && s.pending.None? && Plans(s, writes, added, dropped, c) && s' == s.(bodies := Overwritten(s.bodies, writes), pending := Some(c))
    ensures Inv(s')
  {
    hide Good, Kept, Intact, Counted, Placed, PlannedWrites, Indexed;
    PlanKeepsGood(s, writes, added, dropped, c);
    WritesKeepIntact(s, writes);
    forall u | u in s'.readers ensures ReaderOk(s', u) {
      assert ReaderOk(s, u);
    }
  }

  lemma {:induction false} RecoverKeeps(s: State, adopt: bool, s': State)
    requires Inv(s) && s' == State(if adopt && s.pending.Some? then s.pending.value else s.now, map[], s.bodies, None)
    ensures Inv(s')
  {
    hide Good, Kept, Intact, ReaderOk;
  }

  lemma {:induction false} BeginKeeps(s: State, t: nat, s': State)
    requires Inv(s) && t !in s.readers && s' == s.(readers := s.readers[t := Reader(s.now.txid, s.now.cells)])
    ensures Inv(s')
  {
    hide Indexed, Separate;
    forall u | u in s'.readers ensures ReaderOk(s', u) {
      if u != t {
        assert ReaderOk(s, u);
      } else {
        forall r | r in s.now.cells ensures Kept(s.now, s'.readers[t], r) {
          assert s.now.entries[r.first].references > 0;
        }
      }
    }
  }

  lemma {:induction false} CommitKeeps(s: State, writes: map<PageId, BodyWrite>, added: multiset<PayloadRef>, dropped: multiset<PayloadRef>, s': State)
    requires Inv(s) && s.pending.None? && Plans(s, writes, added, dropped, s'.now) && s' == s.(now := s'.now, bodies := Overwritten(s.bodies, writes))
    ensures Inv(s')
  {
    hide Good, Kept, Intact, Counted, Placed, PlannedWrites, Indexed;
    PlanKeepsGood(s, writes, added, dropped, s'.now);
    WritesKeepIntact(s, writes);
    forall u | u in s'.readers ensures ReaderOk(s', u) {
      assert ReaderOk(s, u);
      forall r | r in s.readers[u].cells ensures Kept(s'.now, s.readers[u], r) {
        PlanKeepsReaders(s, writes, added, dropped, s'.now, u, r);
      }
    }
  }

  // ---------- runs ----------

  ghost predicate IsRun(states: seq<State>, steps: seq<Step>) {
    && |states| == |steps| + 1
    && states[0].now.entries == map[] && states[0].now.cells == multiset{} && states[0].readers == map[] && states[0].pending.None?
    && (forall p :: p in states[0].now.tree ==> p < states[0].now.next)
    && forall i :: 0 <= i < |steps| ==> Takes(states[i], steps[i], states[i + 1])
  }

  /**
   * Payload safety over every run: counts equal the cells that name an extent, extents are
   * disjoint from each other and from tree pages, and every body that the current state, an
   * open snapshot or a commit recovery may still adopt refers to is intact on disk.
   */
  lemma {:induction false} PayloadsAreSafe(states: seq<State>, steps: seq<Step>, i: nat)
    requires IsRun(states, steps) && i < |states|
    ensures Inv(states[i])
    decreases i
  {
    hide Takes;
    if i > 0 {
      PayloadsAreSafe(states, steps, i - 1);
      hide Inv;
      StepKeeps(states[i - 1], steps[i - 1], states[i]);
    }
  }
}
