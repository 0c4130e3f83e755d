/**
 * Planning one commit: bodies written to extents and trees changed over one allocator, then the
 * registry recounted. The result is a plan in the sense of `Reclaim` and of `PayloadRuns`.
 */
module CommitPlanning {
  import opened Pages
  import opened Allocator
  import opened TreeApply
  import opened PayloadRegistration
  import opened ReuseQueue
  import opened CommitTrees
  import PR = PayloadRuns
  import F = FreePages
  import R = Reclaim

  /** A step of planning: a tree job, or a payload body. */
  datatype Task = TreeTask(job: Job) | BodyTask(bodyLen: nat, checksum: nat)

  ghost predicate TaskOk(disk: map<PageId, Page>, task: Task, t: Option<Tree>) {
    match task
    case TreeTask(job) => JobOk(disk, job, t)
    case BodyTask(bodyLen, _) => t.None? && bodyLen > 0
  }

  type Writes = map<PageId, PR.BodyWrite>

  // ---------- bodies ----------

  ghost predicate Within(f: PageId, capacity: nat, x: PageId) {
    f <= x < f + capacity
  }

  /** Where bodies may go: a retired extent no version from `oldest` on needs, or fresh pages. */
  ghost predicate PlaceOk(extents: map<PageId, Extent>, b0: Book, b: Book, w: PR.BodyWrite, oldest: nat) {
    var f := w.reference.first;
    if f in extents then Retired(extents[f]) && extents[f].retiredTxid <= oldest && extents[f].capacity == w.capacity
    else w.capacity > 0 && b0.next <= f && f + w.capacity <= b.next
  }

  /** Fresh extents share no page with each other, with images or with ids still free. */
  ghost predicate BodiesOk(extents: map<PageId, Extent>, b0: Book, b: Book, writes: Writes, oldest: nat) {
    && (forall f :: f in writes ==> writes[f].reference.first == f && PlaceOk(extents, b0, b, writes[f], oldest))
    && (forall f, g :: f in writes && g in writes && f != g && f !in extents && g !in extents ==> PR.Apart(f, writes[f].capacity, g, writes[g].capacity))
    && (forall f, x :: f in writes && f !in extents && Within(f, writes[f].capacity, x) ==> !Free(b, x) && x !in b.images)
  }

  lemma {:induction false} NoBodies(extents: map<PageId, Extent>, b: Book, oldest: nat)
    ensures BodiesOk(extents, b, b, map[], oldest)
  {
  }

  /** Tree jobs stay clear of the extents. */
  lemma {:induction false} TreesKeepBodies(extents: map<PageId, Extent>, b0: Book, b: Book, c: Book, writes: Writes, oldest: nat)
    requires BodiesOk(extents, b0, b, writes, oldest) && Later(b, c)
    ensures BodiesOk(extents, b0, c, writes, oldest)
  {
    forall f, x: PageId | f in writes && f !in extents && Within(f, writes[f].capacity, x) ensures !Free(c, x) && x !in c.images {
      assert !Free(b, x) && x !in b.images;
    }
    assert forall f :: f in writes ==> PlaceOk(extents, b0, b, writes[f], oldest);
  }

  /** The extent of one more body: fresh pages at the end of the file, or a retired extent. */
  ghost predicate Placing(extents: map<PageId, Extent>, b: Book, c: Book, writes: Writes, oldest: nat, w: PR.BodyWrite) {
    var f := w.reference.first;
    || (f == b.next && w.capacity > 0 && c.next == f + w.capacity)
    || (f in extents && f !in writes && Retired(extents[f]) && extents[f].retiredTxid <= oldest && extents[f].capacity == w.capacity && c.next == b.next)
  }

  lemma {:induction false} PlaceStays(extents: map<PageId, Extent>, b0: Book, b: Book, c: Book, w: PR.BodyWrite, oldest: nat)
    requires PlaceOk(extents, b0, b, w, oldest) && b.next <= c.next
    ensures PlaceOk(extents, b0, c, w, oldest)
  {
  }

  lemma {:induction false} EndMoves(b: Book, c: Book)
    requires c.reusable == b.reusable && b.next <= c.next && forall x :: x in b.reusable ==> x < b.next
    ensures forall x :: Free(c, x) ==> Free(b, x)
    ensures forall x :: b.next <= x < c.next ==> !Free(c, x)
  {
  }

  /** One more body. */
  lemma {:induction false} BodyAdded(extents: map<PageId, Extent>, b0: Book, b: Book, c: Book, writes: Writes, oldest: nat, w: PR.BodyWrite)
    requires BodiesOk(extents, b0, b, writes, oldest) && b0.next <= b.next
    requires forall f :: f in extents ==> f < b0.next
    requires forall x :: x in b.reusable ==> x < b.next
    requires forall x :: x in b.images ==> !Free(b, x)
    requires c.images == b.images && c.reusable == b.reusable && Placing(extents, b, c, writes, oldest, w)
    ensures BodiesOk(extents, b0, c, writes[w.reference.first := w], oldest)
  {
    hide Free, PlaceOk, Retired;
    var f := w.reference.first;
    var all := writes[f := w];
    EndMoves(b, c);
    forall g | g in all ensures all[g].reference.first == g && PlaceOk(extents, b0, c, all[g], oldest) {
      if g == f {
        NewPlace(extents, b0, b, c, writes, oldest, w);
      } else {
        PlaceStays(extents, b0, b, c, writes[g], oldest);
      }
    }
    forall g, x: PageId | g in all && g !in extents && Within(g, all[g].capacity, x) ensures !Free(c, x) && x !in c.images {
      if g == f {
        assert b.next <= x < c.next;
        EndFree(b, x);
      } else {
        assert !Free(b, x) && x !in b.images;
      }
    }
    forall g | g in writes && g != f && g !in extents && f !in extents ensures PR.Apart(g, writes[g].capacity, f, w.capacity) {
      FreshEnds(extents, b0, b, writes[g], oldest);
    }
  }

  lemma {:induction false} NewPlace(extents: map<PageId, Extent>, b0: Book, b: Book, c: Book, writes: Writes, oldest: nat, w: PR.BodyWrite)
    requires Placing(extents, b, c, writes, oldest, w) && b0.next <= b.next && forall f :: f in extents ==> f < b0.next
    ensures PlaceOk(extents, b0, c, w, oldest)
  {
    assert w.reference.first in extents ==> w.reference.first < b0.next;
  }

  lemma {:induction false} EndFree(b: Book, x: PageId)
    requires b.next <= x
    ensures Free(b, x)
  {
  }

  lemma {:induction false} FreshEnds(extents: map<PageId, Extent>, b0: Book, b: Book, w: PR.BodyWrite, oldest: nat)
    requires PlaceOk(extents, b0, b, w, oldest) && w.reference.first !in extents
    ensures w.reference.first + w.capacity <= b.next
  {
  }

  lemma {:induction false} RegisteredMore(extents: map<PageId, Extent>, writes: Writes, w: PR.BodyWrite)
    ensures PR.Registered(extents, writes)[w.reference.first := Extent(w.reference, 0, w.capacity, 0, w.generation)]
         == PR.Registered(extents, writes[w.reference.first := w])
  {
  }

  /** The registry during planning: what was committed, and the bodies written so far. */
  ghost predicate RegistryOk(registry: PayloadRegistry, extents: map<PageId, Extent>, writes: Writes, keys: seq<QueueKey>)
    reads registry
  {
    && registry.Valid() && registry.reservations == map[] && registry.registered == writes.Keys
    && registry.entries == PR.Registered(extents, writes)
    && (registry.candidates.None? ==> Ordered(keys) && forall k :: k in keys <==> k in registry.queue)
  }

  /** Reserves an extent and registers the body written to it. */
  method WriteBody(registry: PayloadRegistry, keys: seq<QueueKey>, bodyLen: nat, checksum: nat, oldest: nat, alloc: PageAllocator,
                   ghost extents: map<PageId, Extent>, ghost writes: Writes) returns (r: Option<PR.BodyWrite>)
    requires alloc.Valid() && bodyLen > 0 && RegistryOk(registry, extents, writes, keys)
    modifies registry, alloc`nextPageId
    ensures r.Some? ==> alloc.Valid() && RegistryOk(registry, extents, writes[r.value.reference.first := r.value], keys)
    ensures r.Some? ==> r.value.reference.bodyLen == bodyLen && r.value.reference.checksum == checksum
    ensures r.Some? ==>
      var f := r.value.reference.first;
      || (f == old(alloc.nextPageId) && r.value.capacity > 0 && alloc.nextPageId == f + r.value.capacity)
      || (f in extents && f !in writes && Retired(extents[f]) && extents[f].retiredTxid <= oldest && extents[f].capacity == r.value.capacity
          && alloc.nextPageId == old(alloc.nextPageId))
  {
    hide Indexed;
    var reserved := registry.Reserve(keys, bodyLen, oldest, alloc);
    if reserved.Err? {
      return None;
    }
    ghost var queued := registry.reservations;
    var first := reserved.value.first;
    var generation := registry.reservations[first].generation;
    var reference := PayloadRef(first, bodyLen, checksum);
    var ok := registry.RegisterBody(reserved.value, reference);
    if !ok {
      return None;
    }
    var w := PR.BodyWrite(reference, reserved.value.capacity, generation);
    RegisteredMore(extents, writes, w);
    assert queued - {first} == map[];
    return Some(w);
  }

  /** The fresh pages that bodies take. */
  ghost function BodyPages(extents: map<PageId, Extent>, writes: Writes): iset<PageId> {
    iset f, x | f in writes && f !in extents && Within(f, writes[f].capacity, x) :: x
  }

  lemma {:induction false} BodiesAreFresh(extents: map<PageId, Extent>, b0: Book, b: Book, writes: Writes, oldest: nat)
    requires BodiesOk(extents, b0, b, writes, oldest)
    ensures forall x :: x in BodyPages(extents, writes) ==> b0.next <= x
  {
    hide Free, Retired;
    forall f | f in writes && f !in extents ensures b0.next <= f {
      assert PlaceOk(extents, b0, b, writes[f], oldest);
    }
  }

  /** One more body takes no id but those of its own pages. */
  lemma {:induction false} BodySpent(extents: map<PageId, Extent>, b0: Book, b: Book, c: Book, writes: Writes, oldest: nat, w: PR.BodyWrite)
    requires BodiesOk(extents, b0, b, writes, oldest) && Spent(b0, b, BodyPages(extents, writes))
    requires forall f :: f in extents ==> f < b0.next
    requires b0.next <= b.next && c.images == b.images && c.reusable == b.reusable && Placing(extents, b, c, writes, oldest, w)
    ensures Spent(b0, c, BodyPages(extents, writes[w.reference.first := w]))
  {
    hide Free, Retired;
    var f, all := w.reference.first, writes[w.reference.first := w];
    forall g | g in writes && g !in extents ensures g != f || f in extents {
      assert PlaceOk(extents, b0, b, writes[g], oldest);
    }
    assert forall g :: g in writes && g !in extents ==> g in all && all[g] == writes[g];
    forall x | x in BodyPages(extents, writes) ensures x in BodyPages(extents, all) {
      var g :| g in writes && g !in extents && Within(g, writes[g].capacity, x);
      assert Within(g, all[g].capacity, x);
    }
    forall x: PageId | b.next <= x < c.next ensures x in BodyPages(extents, all) {
      assert Within(f, all[f].capacity, x);
    }
    NextSpent(b, c, BodyPages(extents, all));
    SpentTransitive(b0, b, c, BodyPages(extents, writes), BodyPages(extents, all));
  }

  lemma {:induction false} NextSpent(b: Book, c: Book, taken: iset<PageId>)
    requires c.reusable == b.reusable && forall x: PageId :: b.next <= x < c.next ==> x in taken
    ensures Spent(b, c, taken)
  {
  }

  // ---------- all tasks ----------

  lemma {:induction false} BodyMade(disk: map<PageId, Page>, b: Book, c: Book)
    requires c.images == b.images && c.freed == b.freed && c.added == b.added && c.dropped == b.dropped && c.reusable == b.reusable && b.next <= c.next
    ensures Made(disk, b, c, map[], None, 0, None)
  {
    var none: map<PageId, Page> := map[];
    assert none.Keys == {} && disk + none == disk && b.images + none == b.images;
    assert c.freed[|b.freed|..] == [] && c.added[|b.added|..] == [] && c.dropped[|b.dropped|..] == [];
  }

  lemma {:induction false} ImagesTaken(disk: map<PageId, Page>, b0: Book, b: Book, ts: seq<Option<Tree>>, made: seq<Option<Tree>>, roots: seq<PageId>)
    requires Done(disk, b0, b, ts, made, roots) && b0.images == map[]
    ensures Later(b0, b) && forall x :: x in b.images ==> Free(b0, x) && !Free(b, x)
  {
    hide WellFormed, PagesIn, RefsIn, FreedSince, AddedSince, DroppedSince, PagesOfForest, RefsOfForest;
  }

  /** Tree jobs and bodies in any order, over one allocator. */
  method RunTasks(disk: map<PageId, Page>, tasks: seq<Task>, alloc: PageAllocator, registry: PayloadRegistry, keys: seq<QueueKey>, oldest: nat,
                  ghost extents: map<PageId, Extent>, ghost ts: seq<Option<Tree>>)
    returns (ok: bool, images: map<PageId, Page>, roots: seq<PageId>, ghost made: seq<Option<Tree>>, ghost writes: Writes)
    requires alloc.Valid() && |ts| == |tasks| && forall j :: 0 <= j < |tasks| ==> TaskOk(disk, tasks[j], ts[j])
    requires forall x :: x in PagesOfForest(ts) ==> x > 0 && !alloc.Available(x)
    requires RegistryOk(registry, extents, map[], keys) && forall f :: f in extents ==> f < alloc.nextPageId
    modifies alloc, registry
    ensures ok ==> alloc.Valid() && |roots| == |made| == |tasks|
    ensures ok ==> Done(disk, old(BookOf(map[], alloc)), BookOf(images, alloc), ts, made, roots)
    ensures ok ==> BodiesOk(extents, old(BookOf(map[], alloc)), BookOf(images, alloc), writes, oldest)
    ensures ok ==> Spent(old(BookOf(map[], alloc)), BookOf(images, alloc), BodyPages(extents, writes))
    ensures ok ==> RegistryOk(registry, extents, writes, keys)
    ensures ok ==> forall j :: 0 <= j < |tasks| && tasks[j].TreeTask? ==> Fulfilled(tasks[j].job, ts[j], made[j])
  {
    hide WellFormed, PagesIn, Done, Made, JobOk, Fulfilled, PagesOfForest, Denoted, Later, Free, BodiesOk, RegistryOk, RefsNamed, Spent, BodyPages, Placing;
    ghost var b0 := BookOf(map[], alloc);
    images, roots, made, writes := map[], [], [], map[];
    NothingDone(disk, b0);
    NoBodies(extents, b0, oldest);
    NothingSpent(b0, BodyPages(extents, map[]));
    FreeIs(map[], alloc);
    assert forall x :: x in PagesOfForest(ts) ==> x > 0 && !Free(b0, x);
    assert ts[..0] == [];
    while |roots| < |tasks|
      invariant |roots| == |made| <= |tasks| && alloc.Valid()
      invariant Done(disk, b0, BookOf(images, alloc), ts[..|roots|], made, roots)
      invariant BodiesOk(extents, b0, BookOf(images, alloc), writes, oldest) && RegistryOk(registry, extents, writes, keys)
      invariant Spent(b0, BookOf(images, alloc), BodyPages(extents, writes))
      invariant forall j :: 0 <= j < |made| && tasks[j].TreeTask? ==> Fulfilled(tasks[j].job, ts[j], made[j])
    {
      ghost var i, b := |roots|, BookOf(images, alloc);
      TreeUntouched(disk, b0, b, ts[..i], made, roots, ts);
      assert TaskOk(disk, tasks[i], ts[i]);
      assert ts[..i] + [ts[i]] == ts[..i + 1];
      match tasks[|roots|]
      case TreeTask(job) =>
        FreeIs(images, alloc);
        var done, root, after;
        ghost var one;
        done, root, after, one := RunJob(disk, job, alloc, images, ts[i]);
        if !done {
          return false, images, roots, made, writes;
        }
        ghost var c := BookOf(after, alloc);
        ghost var emitted :| Made(disk, b, c, emitted, ts[i], root, one);
        OneMore(disk, b0, b, ts[..i], made, roots, c, emitted, ts[i], root, one);
        MadeLater(disk, b, c, emitted, ts[i], root, one);
        TreesKeepBodies(extents, b0, b, c, writes, oldest);
        SpentMore(b, c, iset{}, BodyPages(extents, writes));
        SpentTransitive(b0, b, c, BodyPages(extents, writes), BodyPages(extents, writes));
        images, roots, made := after, roots + [root], made + [one];
      case BodyTask(bodyLen, checksum) =>
        var w := WriteBody(registry, keys, bodyLen, checksum, oldest, alloc, extents, writes);
        if w.None? {
          return false, images, roots, made, writes;
        }
        ghost var c := BookOf(images, alloc);
        BodyMade(disk, b, c);
        OneMore(disk, b0, b, ts[..i], made, roots, c, map[], ts[i], 0, None);
        ImagesTaken(disk, b0, b, ts[..i], made, roots);
        assert Placing(extents, b, c, writes, oldest, w.value) by { PlacedAt(extents, b, c, writes, oldest, w.value); }
        assert b0.next <= b.next by { LaterEnds(b0, b); }
        BodyFits(extents, b0, b, c, writes, oldest, w.value);
        BodySpent(extents, b0, b, c, writes, oldest, w.value);
        writes := writes[w.value.reference.first := w.value];
        roots, made := roots + [0], made + [None];
    }
    assert ts[..|ts|] == ts;
    return true, images, roots, made, writes;
  }

  lemma {:induction false} LaterEnds(b: Book, c: Book)
    requires Later(b, c)
    ensures b.next <= c.next
  {
  }

  lemma {:induction false} PlacedAt(extents: map<PageId, Extent>, b: Book, c: Book, writes: Writes, oldest: nat, w: PR.BodyWrite)
    requires
      var f := w.reference.first;
      || (f == b.next && w.capacity > 0 && c.next == f + w.capacity)
      || (f in extents && f !in writes && Retired(extents[f]) && extents[f].retiredTxid <= oldest && extents[f].capacity == w.capacity && c.next == b.next)
    ensures Placing(extents, b, c, writes, oldest, w)
  {
  }

  lemma {:induction false} BodyFits(extents: map<PageId, Extent>, b0: Book, b: Book, c: Book, writes: Writes, oldest: nat, w: PR.BodyWrite)
    requires BodiesOk(extents, b0, b, writes, oldest) && Later(b0, b)
    requires forall f :: f in extents ==> f < b0.next
    requires forall x :: x in b.reusable ==> x < b.next
    requires forall x :: x in b.images ==> !Free(b, x)
    requires c.images == b.images && c.reusable == b.reusable && Placing(extents, b, c, writes, oldest, w)
    ensures BodiesOk(extents, b0, c, writes[w.reference.first := w], oldest)
  {
    hide BodiesOk, Free, Placing;
    BodyAdded(extents, b0, b, c, writes, oldest, w);
  }

  // ---------- the plan ----------

  /** The state a commit is planned in, as `Reclaim` and `PayloadRuns` see it, and the trees it changes. */
  ghost predicate Ready(rs: R.State, ps: PR.State, ts: seq<Option<Tree>>, plain: seq<Option<Tree>>, txid: nat, oldest: nat) {
    && R.Inv(rs) && PR.Good(ps.now) && PR.IsOldest(ps, oldest)
    && rs.current.txid < txid && ps.now.txid < txid && ps.now.next == rs.next && rs.next > 0
    && (forall p :: p in rs.pool.ready ==> p > 0 && p in ps.now.tree)
    && (forall x :: PagesOfForest(ts + plain)[x] <= 1)
    && (forall x :: x in PagesOfForest(ts + plain) ==> x > 0 && x in rs.current.pages)
    && RefsOfForest(ts) <= ps.now.cells && RefsOfForest(plain) == multiset{}
  }

  ghost function PlanOf(txid: nat, b: Book, dirty: seq<F.DirtyImage>): R.Plan {
    R.Plan(txid, b.images, b.freed, b.reusable, dirty, b.next)
  }

  /** What is committed afterwards: all cells, and every id that tree pages use. */
  ghost function CommittedAs(ps: PR.State, entries: map<PageId, Extent>, queue: map<QueueKey, QueueValue>, cells: multiset<PayloadRef>, txid: nat, b: Book): PR.Committed {
    PR.Committed(entries, queue, cells, txid, b.next, ps.now.tree + (iset p | p in b.images || p in b.reusable))
  }

  /** The books at the start: an allocator over the ready pages. */
  ghost predicate Opening(b0: Book, rs: R.State) {
    && b0.images == map[] && b0.freed == [] && b0.added == [] && b0.dropped == [] && b0.next == rs.next
    && forall x :: x in b0.reusable <==> x in rs.pool.ready
  }

  ghost predicate Closing(b: Book) {
    && (forall x :: x in b.reusable ==> 0 < x < b.next) && (forall i, j :: 0 <= i < j < |b.reusable| ==> b.reusable[i] != b.reusable[j])
  }

  lemma {:induction false} AtMostOnceEach(ids: seq<PageId>)
    requires forall x :: multiset(ids)[x] <= 1
    ensures R.NoRepeats(ids)
  {
    forall i, j | 0 <= i < j < |ids| ensures ids[i] != ids[j] {
      if ids[i] == ids[j] {
        Twice(ids, i, j);
      }
    }
  }

  /** The plan takes and frees what a plan may. */
  lemma {:induction false} PlanIsPlanned(rs: R.State, ps: PR.State, disk: map<PageId, Page>, b0: Book, b: Book, all: seq<Option<Tree>>, made: seq<Option<Tree>>, roots: seq<PageId>,
                                         ts: seq<Option<Tree>>, plain: seq<Option<Tree>>, txid: nat, oldest: nat, dirty: seq<F.DirtyImage>, taken: iset<PageId>)
    requires Ready(rs, ps, ts, plain, txid, oldest) && all == ts + plain && Opening(b0, rs) && Closing(b) && Done(disk, b0, b, all, made, roots)
    requires Spent(b0, b, taken) && forall x :: x in taken ==> b0.next <= x
    ensures R.PlannedFrom(rs, rs.pool.ready, PlanOf(txid, b, dirty))
  {
    hide R.Inv, PR.Good, PR.IsOldest, PagesOfForest, RefsOfForest, Stands;
    ReadyPool(rs);
    ImagesTaken(disk, b0, b, all, made, roots);
    var plan := PlanOf(txid, b, dirty);
    assert multiset(b.freed) == FreedSince(b0, b) by { assert b.freed[0..] == b.freed; }
    assert forall x :: multiset(b.freed)[x] <= PagesOfForest(all)[x];
    AtMostOnceEach(b.freed);
    forall p | p in plan.freed ensures p in rs.current.pages {
      assert p in multiset(b.freed);
    }
    forall p | p in plan.images ensures R.Allocatable(rs.pool.ready, rs.next, p) && p < plan.next {
      assert Free(b0, p) && !Free(b, p);
    }
    forall p | p in plan.unused ensures R.Allocatable(rs.pool.ready, rs.next, p) && p < plan.next && p !in plan.images {
      assert Free(b, p);
    }
    forall p | p in rs.pool.ready ensures p in plan.images || p in plan.unused {
      assert Free(b0, p) && p < b.next;
    }
  }

  /** The bodies are written where a plan may write. */
  lemma {:induction false} WritesAreAllowed(ps: PR.State, b0: Book, b: Book, writes: Writes, oldest: nat)
    requires BodiesOk(ps.now.entries, b0, b, writes, oldest) && PR.IsOldest(ps, oldest) && b0.next == ps.now.next
    ensures PR.PlannedWrites(ps, writes)
  {
    hide PR.IsOldest;
    forall f | f in writes ensures writes[f].reference.first == f && PR.Allowed(ps.now, oldest, writes[f]) {
      assert PlaceOk(ps.now.entries, b0, b, writes[f], oldest);
    }
  }

  /** Extents and tree pages are placed apart. */
  lemma {:induction false} PlanIsPlaced(rs: R.State, ps: PR.State, b0: Book, b: Book, writes: Writes, oldest: nat, c: PR.Committed)
    requires BodiesOk(ps.now.entries, b0, b, writes, oldest) && Later(b0, b) && Opening(b0, rs) && Closing(b) && ps.now.next == rs.next
    requires PR.Separate(ps.now) && (forall p :: p in rs.pool.ready ==> p in ps.now.tree)
    requires forall x :: x in b.images ==> Free(b0, x) && !Free(b, x)
    requires c.next == b.next && forall p :: p in c.tree <==> p in ps.now.tree || p in b.images || p in b.reusable
    ensures PR.Placed(ps, writes, c)
  {
    forall f | f in writes && f !in ps.now.entries ensures writes[f].capacity > 0 && f + writes[f].capacity <= c.next {
      assert PlaceOk(ps.now.entries, b0, b, writes[f], oldest);
    }
    forall p | p in c.tree
      ensures p < c.next && (p in ps.now.tree || (ps.now.next <= p && forall f :: f in writes && f !in ps.now.entries ==> !(f <= p && p < f + writes[f].capacity)))
    {
      if p !in ps.now.tree {
        assert Free(b0, p) by {
          if p !in b.images {
            assert Free(b, p);
          }
        }
        assert p in b.images || Free(b, p);
        forall f | f in writes && f !in ps.now.entries ensures !Within(f, writes[f].capacity, p) {
        }
      }
    }
  }

  /** The references of all cells, before and after, differ by what was added and dropped. */
  lemma {:induction false} CellsBalance(disk: map<PageId, Page>, b0: Book, b: Book, ts: seq<Option<Tree>>, made: seq<Option<Tree>>, roots: seq<PageId>, cells: multiset<PayloadRef>)
    requires Done(disk, b0, b, ts, made, roots) && b0.added == [] && b0.dropped == [] && RefsOfForest(ts) <= cells
    ensures (cells - RefsOfForest(ts)) + RefsOfForest(made) + multiset(b.dropped) == cells + multiset(b.added)
  {
    hide RefsOfForest, PagesOfForest, FreedSince, Stands, Later;
    assert Later(b0, b);
    assert b.added[0..] == b.added && b.dropped[0..] == b.dropped;
    var before, after, a, d := RefsOfForest(ts), RefsOfForest(made), multiset(b.added), multiset(b.dropped);
    SinceStart(b0, b);
    assert after + d == before + a;
    var rest := cells - before;
    assert cells == rest + before;
    assert (rest + after) + d == rest + (after + d) == rest + (before + a) == (rest + before) + a;
  }

  lemma {:induction false} SinceStart(b0: Book, b: Book)
    requires Later(b0, b) && b0.added == [] && b0.dropped == []
    ensures AddedSince(b0, b) == multiset(b.added) && DroppedSince(b0, b) == multiset(b.dropped)
  {
    assert b.added[0..] == b.added && b.dropped[0..] == b.dropped;
  }

  /** Trees without references stay so when nothing names one. */
  lemma {:induction false} PlainStaysPlain(disk: map<PageId, Page>, b0: Book, b1: Book, b2: Book, ts: seq<Option<Tree>>, made: seq<Option<Tree>>, roots: seq<PageId>,
                                           plain: seq<Option<Tree>>, made2: seq<Option<Tree>>, roots2: seq<PageId>)
    requires Done(disk, b0, b1, ts, made, roots) && Done(disk, b0, b2, ts + plain, made + made2, roots + roots2)
    requires Later(b1, b2) && b0.added == [] && b0.dropped == [] && RefsOfForest(plain) == multiset{} && b2.added[|b1.added|..] == []
    ensures RefsOfForest(made2) == multiset{} && RefsOfForest(made + made2) == RefsOfForest(made)
  {
    hide PagesOfForest, RefsOfForest, FreedSince, Stands, Later, RefsIn, AddedSince, DroppedSince;
    assert Later(b0, b1) && Later(b0, b2);
    SinceStart(b0, b1);
    SinceStart(b0, b2);
    RefsJoinForest(ts, plain);
    RefsJoinForest(made, made2);
    assert b2.added == b1.added by { PrefixWhole(b1, b2); }
    PrefixWhole(b1, b2);
    var more := multiset(b2.dropped[|b1.dropped|..]);
    assert multiset(b2.dropped) == multiset(b1.dropped) + more;
    assert RefsOfForest(made) + RefsOfForest(made2) + (multiset(b1.dropped) + more) == RefsOfForest(ts) + multiset(b1.added);
    assert (RefsOfForest(made) + multiset(b1.dropped)) + (RefsOfForest(made2) + more) == RefsOfForest(made) + multiset(b1.dropped);
    NothingMore(RefsOfForest(made) + multiset(b1.dropped), RefsOfForest(made2) + more);
  }

  lemma {:induction false} NothingMore(a: multiset<PayloadRef>, b: multiset<PayloadRef>)
    requires a + b == a
    ensures b == multiset{}
  {
    forall r ensures b[r] == 0 {
      assert (a + b)[r] == a[r] + b[r];
    }
  }

  lemma {:induction false} PrefixWhole(b1: Book, b2: Book)
    requires Later(b1, b2) && b2.added[|b1.added|..] == []
    ensures |b1.dropped| <= |b2.dropped| && b2.added == b1.added && b2.dropped == b1.dropped + b2.dropped[|b1.dropped|..]
  {
    assert b2.added == b1.added + b2.added[|b1.added|..];
  }

  lemma {:induction false} RefsJoinForest(a: seq<Option<Tree>>, b: seq<Option<Tree>>)
    ensures RefsOfForest(a + b) == RefsOfForest(a) + RefsOfForest(b)
    decreases |b|
  {
    hide RefsIn;
    if b == [] {
      assert a + b == a;
    } else {
      assert (a + b)[..|a + b| - 1] == a + b[..|b| - 1];
      RefsJoinForest(a, b[..|b| - 1]);
    }
  }

  // ---------- the published version ----------

  /** Pages of the published version: everything shared, and the images. */
  ghost function Published(rs: R.State, txid: nat, b: Book, dirty: seq<F.DirtyImage>): map<PageId, Page> {
    R.Publishes(rs, PlanOf(txid, b, dirty)).pages
  }

  /** A new tree's pages are images or pages that were not freed. */
  lemma {:induction false} MadeFromShared(b0: Book, b: Book, all: seq<Option<Tree>>, made: seq<Option<Tree>>, j: nat, x: PageId)
    requires b0.freed == [] && b0.images == map[] && j < |made| && x in PagesIn(made[j])
    requires PagesOfForest(made) + multiset(b.freed) == PagesOfForest(all) + multiset(b.images.Keys)
    requires multiset(b.freed) <= PagesOfForest(all) && PagesOfForest(all)[x] <= 1
    ensures x in b.images || (x in PagesOfForest(all) && x !in b.freed)
  {
    hide PagesIn;
    InForest(made, j, x);
    if x !in b.images {
      assert (PagesOfForest(made) + multiset(b.freed))[x] == (PagesOfForest(all) + multiset(b.images.Keys))[x];
      assert multiset(b.images.Keys)[x] == 0;
      assert multiset(b.freed)[x] == 0;
    }
  }

  lemma {:induction false} TreeMoves(disk: map<PageId, Page>, pages: map<PageId, Page>, root: PageId, t: Option<Tree>)
    requires WellFormed(disk, root, t) && forall x :: x in PagesIn(t) ==> x in pages && x in disk && pages[x] == disk[x]
    ensures WellFormed(pages, root, t)
  {
    hide PagesOf, Spelled, Sorted, Flat, ShapedRoot;
    if t.Some? {
      assert AgreeOn(disk, pages, PagesOf(t.value));
      TreeFrame(disk, pages, t.value);
    }
  }

  /** Every new tree is well formed on the pages of the published version alone. */
  lemma {:induction false} NewTreesPublished(rs: R.State, ps: PR.State, b0: Book, b: Book, all: seq<Option<Tree>>, made: seq<Option<Tree>>, roots: seq<PageId>,
                                             ts: seq<Option<Tree>>, plain: seq<Option<Tree>>, txid: nat, oldest: nat, dirty: seq<F.DirtyImage>, j: nat)
    requires Ready(rs, ps, ts, plain, txid, oldest) && all == ts + plain && Opening(b0, rs) && Done(rs.view, b0, b, all, made, roots) && j < |made|
    ensures WellFormed(Published(rs, txid, b, dirty), roots[j], made[j])
  {
    hide PR.Good, PR.IsOldest, PagesOfForest, RefsOfForest, PagesIn, RefsIn, WellFormed, R.Bounded, R.Disjoint, R.Unreachable, R.OnlyOlderReach;
    assert b.freed[0..] == b.freed && b.images.Keys - b0.images.Keys == b.images.Keys;
    assert Stands(rs.view, b, roots[j], made[j]);
    var pages := Published(rs, txid, b, dirty);
    forall x | x in PagesIn(made[j]) ensures x in pages && x in rs.view + b.images && pages[x] == (rs.view + b.images)[x] {
      MadeFromShared(b0, b, all, made, j, x);
    }
    TreeMoves(rs.view + b.images, pages, roots[j], made[j]);
  }

  /** A tree of the current version with none of the pages of these. */
  ghost predicate Untouched(rs: R.State, all: seq<Option<Tree>>, root: PageId, t: Option<Tree>) {
    WellFormed(rs.current.pages, root, t) && forall x :: x in PagesIn(t) ==> x in rs.current.pages && x !in PagesOfForest(all)
  }

  /** Trees that the commit does not touch stay as they are. */
  lemma {:induction false} OtherTreesPublished(rs: R.State, ps: PR.State, disk: map<PageId, Page>, b0: Book, b: Book, all: seq<Option<Tree>>, made: seq<Option<Tree>>, roots: seq<PageId>,
                                               ts: seq<Option<Tree>>, plain: seq<Option<Tree>>, txid: nat, oldest: nat, dirty: seq<F.DirtyImage>, taken: iset<PageId>, root: PageId, t: Option<Tree>)
    requires Spent(b0, b, taken) && forall x :: x in taken ==> b0.next <= x
    requires Ready(rs, ps, ts, plain, txid, oldest) && all == ts + plain && Opening(b0, rs) && Closing(b) && Done(disk, b0, b, all, made, roots)
    requires Untouched(rs, all, root, t)
    ensures WellFormed(Published(rs, txid, b, dirty), root, t)
  {
    hide PR.Good, PR.IsOldest, PagesOfForest, RefsOfForest, PagesIn, WellFormed, R.Inv, Stands;
    PlanIsPlanned(rs, ps, disk, b0, b, all, made, roots, ts, plain, txid, oldest, dirty, taken);
    assert b.freed[0..] == b.freed;
    var pages := Published(rs, txid, b, dirty);
    forall p | p in b.images ensures p !in rs.current.pages {
      R.ImagesAreFresh(rs, PlanOf(txid, b, dirty), p);
    }
    forall x | x in PagesIn(t) ensures x in pages && pages[x] == rs.current.pages[x] {
      assert x !in multiset(b.freed);
    }
    TreeMoves(rs.current.pages, pages, root, t);
  }

  // ---------- the whole commit ----------

  /** What planning reports. */
  datatype Planned = NotPlanned | Plan(plan: R.Plan, roots: seq<PageId>)

  /** The registry's records count the bodies and the references of a plan, and no body is left without one. */
  ghost predicate Recounts(extents: map<PageId, Extent>, writes: Writes, entries: map<PageId, Extent>, queue: map<QueueKey, QueueValue>,
                          added: multiset<PayloadRef>, dropped: multiset<PayloadRef>, txid: nat) {
    && Indexed(entries, queue)
    && AllRecounted(PR.Registered(extents, writes), entries, added, dropped, txid)
    && (forall f :: f in entries && PR.Registered(extents, writes)[f].references == 0 && entries[f].references > 0 ==> f in writes)
    && (forall f :: f in writes ==> f in entries && entries[f].references > 0)
  }

  /** Runs the tasks, then recounts the registry. */
  method RunAndCount(disk: map<PageId, Page>, tasks: seq<Task>, alloc: PageAllocator, registry: PayloadRegistry, keys: seq<QueueKey>, oldest: nat, txid: nat,
                     ghost extents: map<PageId, Extent>, ghost ts: seq<Option<Tree>>)
    returns (ok: bool, images: map<PageId, Page>, roots: seq<PageId>, ghost made: seq<Option<Tree>>, ghost writes: Writes)
    requires alloc.Valid() && |ts| == |tasks| && txid > 0 && forall j :: 0 <= j < |tasks| ==> TaskOk(disk, tasks[j], ts[j])
    requires forall x :: x in PagesOfForest(ts) ==> x > 0 && !alloc.Available(x)
    requires RegistryOk(registry, extents, map[], keys) && forall f :: f in extents ==> f < alloc.nextPageId
    modifies alloc, registry
    ensures ok ==> alloc.Valid() && |roots| == |made| == |tasks|
    ensures ok ==> Done(disk, old(BookOf(map[], alloc)), BookOf(images, alloc), ts, made, roots)
    ensures ok ==> BodiesOk(extents, old(BookOf(map[], alloc)), BookOf(images, alloc), writes, oldest)
    ensures ok ==> Spent(old(BookOf(map[], alloc)), BookOf(images, alloc), BodyPages(extents, writes))
    ensures ok ==> Recounts(extents, writes, registry.entries, registry.queue, multiset(alloc.addedPayloadRefs), multiset(alloc.droppedPayloadRefs), txid)
    ensures ok ==> forall j :: 0 <= j < |tasks| && tasks[j].TreeTask? ==> Fulfilled(tasks[j].job, ts[j], made[j])
  {
    hide WellFormed, PagesIn, Done, TaskOk, Fulfilled, PagesOfForest, Free, BodiesOk, RegistryOk, Indexed, AllRecounted, PR.Registered;
    ok, images, roots, made, writes := RunTasks(disk, tasks, alloc, registry, keys, oldest, extents, ts);
    if !ok {
      return;
    }
    RegistryFacts(registry, extents, writes, keys);
    ok := registry.ApplyReferenceChanges(alloc.addedPayloadRefs, alloc.droppedPayloadRefs, txid);
    if ok {
      ok := registry.Finish();
    }
  }

  /** The root that stands for a tree. */
  function RootOf(t: Option<Tree>): PageId {
    if t.None? then 0 else t.value.id
  }

  /**
   * A plan on the trees `all` that both reclamation schemes accept: ids and freed pages are in
   * order, the new trees hold exactly the shared pages and the images, the registry counts the
   * cells, every new id is in use or given back, and on the published version's own pages every
   * new tree and every tree left alone is well formed.
   */
  ghost predicate Sound(rs: R.State, ps: PR.State, all: seq<Option<Tree>>, plan: R.Plan, roots: seq<PageId>, made: seq<Option<Tree>>,
                        writes: Writes, added: multiset<PayloadRef>, dropped: multiset<PayloadRef>, c: PR.Committed) {
    && R.PlannedFrom(rs, rs.pool.ready, plan)
    && PR.Plans(ps, writes, added, dropped, c) && c.txid == plan.txid && c.next == plan.next
    && c.cells == (ps.now.cells - RefsOfForest(all)) + RefsOfForest(made)
    && (forall p :: p in c.tree <==> p in ps.now.tree || p in plan.images || p in plan.unused)
    && PagesOfForest(made) + multiset(plan.freed) == PagesOfForest(all) + multiset(plan.images.Keys)
    && (forall p :: p in plan.images || p in plan.unused ==> p > 0)
    && (forall p :: rs.next <= p < plan.next ==> p in plan.images || p in plan.unused || p in BodyPages(ps.now.entries, writes))
    && |made| == |roots| == |all|
    && (forall j :: 0 <= j < |made| ==> roots[j] == RootOf(made[j]))
    && (forall j :: 0 <= j < |made| ==> WellFormed(R.Publishes(rs, plan).pages, roots[j], made[j]))
    && forall root, t :: Untouched(rs, all, root, t) ==> WellFormed(R.Publishes(rs, plan).pages, root, t)
  }

  /** Every job did to its tree what it says. */
  ghost predicate AllDone(tasks: seq<Task>, ts: seq<Option<Tree>>, jobs: seq<Job>, plain: seq<Option<Tree>>, made: seq<Option<Tree>>) {
    && |tasks| == |ts| && |jobs| == |plain| && |made| == |tasks| + |jobs|
    && (forall j :: 0 <= j < |tasks| && tasks[j].TreeTask? ==> Fulfilled(tasks[j].job, ts[j], made[j]))
    && forall j :: 0 <= j < |jobs| ==> Fulfilled(jobs[j], plain[j], made[|tasks| + j])
  }

  /**
   * Plans a commit: tree jobs and bodies in any order, then the counts of the registry, then
   * the jobs on trees that hold no references, the registry's and the catalog's among them.
   */
  method PlanCommit(disk: map<PageId, Page>, tasks: seq<Task>, jobs: seq<Job>, reusable: seq<PageId>, next: PageId, txid: nat, oldest: nat,
                    registry: PayloadRegistry, keys: seq<QueueKey>, dirty: seq<F.DirtyImage>,
                    ghost rs: R.State, ghost ps: PR.State, ghost ts: seq<Option<Tree>>, ghost plain: seq<Option<Tree>>)
    returns (r: Planned, ghost made: seq<Option<Tree>>, ghost writes: Writes, ghost added: multiset<PayloadRef>, ghost dropped: multiset<PayloadRef>, ghost c: PR.Committed)
    requires Ready(rs, ps, ts, plain, txid, oldest) && disk == rs.view && reusable == rs.pool.ready && next == rs.next
    requires |ts| == |tasks| && forall j :: 0 <= j < |tasks| ==> TaskOk(disk, tasks[j], ts[j])
    requires |plain| == |jobs| && forall j :: 0 <= j < |jobs| ==> JobOk(disk, jobs[j], plain[j])
    requires RefsNamed(jobs) == []
    requires RegistryOk(registry, ps.now.entries, map[], keys) && registry.queue == ps.now.queue
    modifies registry
    ensures r.Plan? ==> r.plan.txid == txid && r.plan.dirty == dirty && c.entries == registry.entries
    ensures r.Plan? ==> Sound(rs, ps, ts + plain, r.plan, r.roots, made, writes, added, dropped, c)
    ensures r.Plan? ==> AllDone(tasks, ts, jobs, plain, made) && RefsOfForest(made[|tasks|..]) == multiset{}
  {
    hide R.Inv, PR.Good, PR.IsOldest, WellFormed, PagesIn, RefsIn, Done, Made, JobOk, TaskOk, Fulfilled, PagesOfForest, RefsOfForest, RefsNamed,
         Denoted, Later, Free, BodiesOk, RegistryOk, Indexed, AllRecounted, R.PlannedFrom, R.Publishes, PR.Plans, Untouched, Sound, Recounts, Spent, BodyPages;
    made, writes, added, dropped, c := [], map[], multiset{}, multiset{}, ps.now;
    ReadyPool(rs);
    forall i | 0 <= i < |reusable| ensures 0 < reusable[i] < next {
      assert reusable[i] in rs.pool.ready;
    }
    var alloc := new PageAllocator.WithReusable(next, reusable);
    ghost var b0 := BookOf(map[], alloc);
    FreeIs(map[], alloc);
    Reachable(rs, ps, ts, plain, txid, oldest, b0);
    ExtentsBelow(ps);
    var ok, images, roots;
    ok, images, roots, made, writes := RunAndCount(disk, tasks, alloc, registry, keys, oldest, txid, ps.now.entries, ts);
    if !ok {
      return NotPlanned, made, writes, added, dropped, c;
    }
    ghost var b1, made1, roots1 := BookOf(images, alloc), made, roots;
    added, dropped := multiset(alloc.addedPayloadRefs), multiset(alloc.droppedPayloadRefs);
    var ok2, images2, roots2;
    ghost var made2;
    ok2, images2, roots2, made2 := RunJobs(disk, jobs, alloc, images, roots, b0, ts, made, plain);
    if !ok2 {
      return NotPlanned, made, writes, added, dropped, c;
    }
    ghost var b2 := BookOf(images2, alloc);
    made := made1 + made2;
    var plan := R.Plan(txid, images2, alloc.freed, alloc.reusable, dirty, alloc.nextPageId);
    c := CommittedAs(ps, registry.entries, registry.queue, (ps.now.cells - RefsOfForest(ts)) + RefsOfForest(made1), txid, b2);
    Concludes(rs, ps, b0, b1, b2, ts, made1, roots1, plain, made2, roots2, writes, oldest, txid, dirty, c);
    assert made[|tasks|..] == made2;
    return Plan(plan, roots + roots2), made, writes, added, dropped, c;
  }

  /** What the pieces of planning add up to. */
  lemma {:induction false} Concludes(rs: R.State, ps: PR.State, b0: Book, b1: Book, b2: Book, ts: seq<Option<Tree>>, made: seq<Option<Tree>>, roots: seq<PageId>,
                                     plain: seq<Option<Tree>>, made2: seq<Option<Tree>>, roots2: seq<PageId>, writes: Writes, oldest: nat, txid: nat, dirty: seq<F.DirtyImage>, c: PR.Committed)
    requires Ready(rs, ps, ts, plain, txid, oldest) && Opening(b0, rs) && Closing(b2)
    requires Done(rs.view, b0, b1, ts, made, roots) && Done(rs.view, b0, b2, ts + plain, made + made2, roots + roots2) && Later(b1, b2)
    requires b2.added[|b1.added|..] == [] && BodiesOk(ps.now.entries, b0, b1, writes, oldest)
    requires Spent(b0, b1, BodyPages(ps.now.entries, writes)) && Spent(b1, b2, iset{})
    requires c == CommittedAs(ps, c.entries, c.queue, (ps.now.cells - RefsOfForest(ts)) + RefsOfForest(made), txid, b2)
    requires Recounts(ps.now.entries, writes, c.entries, c.queue, multiset(b1.added), multiset(b1.dropped), txid)
    ensures RefsOfForest(made2) == multiset{}
    ensures Sound(rs, ps, ts + plain, PlanOf(txid, b2, dirty), roots + roots2, made + made2, writes, multiset(b1.added), multiset(b1.dropped), c)
  {
    hide R.Inv, PR.Good, PR.IsOldest, WellFormed, PagesIn, RefsIn, Done, PagesOfForest, RefsOfForest, Later, BodiesOk, Indexed, AllRecounted,
         R.PlannedFrom, PR.Plans, Untouched, PR.Registered, R.Publishes, Spent, BodyPages;
    var taken := BodyPages(ps.now.entries, writes);
    BodiesAreFresh(ps.now.entries, b0, b1, writes, oldest);
    AllSpent(b0, b1, b2, taken);
    PlanIsPlanned(rs, ps, rs.view, b0, b2, ts + plain, made + made2, roots + roots2, ts, plain, txid, oldest, dirty, taken);
    NewIdsSpent(b0, b2, taken);
    Countings(rs, ps, rs.view, b0, b1, b2, ts, made, roots, ts + plain, made + made2, roots + roots2, writes, oldest, c, c.entries);
    PlainStaysPlain(rs.view, b0, b1, b2, ts, made, roots, plain, made2, roots2);
    RefsJoinForest(ts, plain);
    DonePages(rs.view, b0, b2, ts + plain, made + made2, roots + roots2);
    assert multiset(b2.freed) == FreedSince(b0, b2) by { assert b2.freed[0..] == b2.freed; }
    DoneLengths(rs.view, b0, b2, ts + plain, made + made2, roots + roots2);
    forall j | 0 <= j < |made + made2| ensures WellFormed(Published(rs, txid, b2, dirty), (roots + roots2)[j], (made + made2)[j]) {
      NewTreesPublished(rs, ps, b0, b2, ts + plain, made + made2, roots + roots2, ts, plain, txid, oldest, dirty, j);
    }
    forall root, t | Untouched(rs, ts + plain, root, t) ensures WellFormed(Published(rs, txid, b2, dirty), root, t) {
      OtherTreesPublished(rs, ps, rs.view, b0, b2, ts + plain, made + made2, roots + roots2, ts, plain, txid, oldest, dirty, taken, root, t);
    }
  }

  lemma {:induction false} AllSpent(b0: Book, b1: Book, b2: Book, taken: iset<PageId>)
    requires Spent(b0, b1, taken) && Spent(b1, b2, iset{}) && Later(b1, b2)
    ensures Spent(b0, b2, taken)
  {
    hide Spent, Free;
    SpentMore(b1, b2, iset{}, taken);
    SpentTransitive(b0, b1, b2, taken, taken);
  }

  /** Every id between the old and the new end of the file is in use or given back. */
  lemma {:induction false} NewIdsSpent(b0: Book, b: Book, taken: iset<PageId>)
    requires Spent(b0, b, taken)
    ensures forall p :: b0.next <= p < b.next ==> p in b.images || p in b.reusable || p in taken
  {
    forall p | b0.next <= p < b.next ensures p in b.images || p in b.reusable || p in taken {
      assert Free(b0, p);
    }
  }

  lemma {:induction false} FromForest(ts: seq<Option<Tree>>, x: PageId) returns (j: nat)
    requires x in PagesOfForest(ts)
    ensures j < |ts| && x in PagesIn(ts[j])
    decreases |ts|
  {
    hide PagesIn;
    var n := |ts| - 1;
    if x in PagesIn(ts[n]) {
      j := n;
    } else {
      j := FromForest(ts[..n], x);
    }
  }

  /** Pages balance, images have ids, and roots are those of the trees. */
  lemma {:induction false} DonePages(disk: map<PageId, Page>, b0: Book, b: Book, ts: seq<Option<Tree>>, made: seq<Option<Tree>>, roots: seq<PageId>)
    requires Done(disk, b0, b, ts, made, roots) && b0.images == map[]
    ensures Later(b0, b) && PagesOfForest(made) + FreedSince(b0, b) == PagesOfForest(ts) + multiset(b.images.Keys)
    ensures forall p :: p in b.images ==> p > 0
    ensures |made| == |roots| && forall j :: 0 <= j < |made| ==> roots[j] == RootOf(made[j])
  {
    hide PagesOfForest, RefsOfForest, PagesIn, RefsIn, WellFormed;
    assert b.images.Keys - b0.images.Keys == b.images.Keys;
    forall p | p in b.images ensures p > 0 {
      assert (PagesOfForest(made) + FreedSince(b0, b))[p] == (PagesOfForest(ts) + multiset(b.images.Keys))[p];
      assert multiset(b.images.Keys)[p] == 1;
      assert FreedSince(b0, b)[p] <= PagesOfForest(ts)[p];
      var j := FromForest(made, p);
      assert Stands(disk, b, roots[j], made[j]);
    }
    forall j | 0 <= j < |made| ensures roots[j] == RootOf(made[j]) {
      assert Stands(disk, b, roots[j], made[j]);
      RootIs(disk + b.images, roots[j], made[j]);
    }
  }

  lemma {:induction false} RootIs(pages: map<PageId, Page>, root: PageId, t: Option<Tree>)
    requires WellFormed(pages, root, t)
    ensures root == RootOf(t)
  {
    hide Spelled, ShapedRoot, Sorted, Flat, PagesOf;
  }

  lemma {:induction false} DoneLengths(disk: map<PageId, Page>, b0: Book, b: Book, ts: seq<Option<Tree>>, made: seq<Option<Tree>>, roots: seq<PageId>)
    requires Done(disk, b0, b, ts, made, roots)
    ensures |made| == |roots| == |ts| && Later(b0, b)
  {
    hide Later, FreedSince, AddedSince, DroppedSince, PagesOfForest, RefsOfForest, Stands;
  }

  lemma {:induction false} ReadyPool(rs: R.State)
    requires R.Inv(rs)
    ensures forall i, j :: 0 <= i < j < |rs.pool.ready| ==> rs.pool.ready[i] != rs.pool.ready[j]
    ensures forall p :: p in rs.pool.ready ==> p < rs.next && p !in rs.current.pages
    ensures forall p :: p in rs.current.pages ==> p < rs.next
  {
    var all := rs.pool.ready + F.PagesIn(rs.pool.retired);
    assert forall i :: 0 <= i < |rs.pool.ready| ==> all[i] == rs.pool.ready[i];
    assert forall p :: p in rs.pool.ready ==> R.Unreachable(rs, p);
  }

  lemma {:induction false} Reachable(rs: R.State, ps: PR.State, ts: seq<Option<Tree>>, plain: seq<Option<Tree>>, txid: nat, oldest: nat, b0: Book)
    requires Ready(rs, ps, ts, plain, txid, oldest) && Opening(b0, rs)
    ensures forall x :: x in PagesOfForest(ts + plain) ==> x > 0 && !Free(b0, x)
    ensures forall x :: x in PagesOfForest(ts) ==> x > 0 && !Free(b0, x)
  {
    hide R.Inv, PR.Good, PR.IsOldest, PagesOfForest, RefsOfForest;
    ReadyPool(rs);
    forall x | x in PagesOfForest(ts) ensures x in PagesOfForest(ts + plain) {
      PagesJoinForest(ts, plain);
    }
  }

  lemma {:induction false} PagesJoinForest(a: seq<Option<Tree>>, b: seq<Option<Tree>>)
    ensures PagesOfForest(a + b) == PagesOfForest(a) + PagesOfForest(b)
    decreases |b|
  {
    hide PagesIn;
    if b == [] {
      assert a + b == a;
    } else {
      assert (a + b)[..|a + b| - 1] == a + b[..|b| - 1];
      PagesJoinForest(a, b[..|b| - 1]);
    }
  }

  lemma {:induction false} ExtentsBelow(ps: PR.State)
    requires PR.Good(ps.now)
    ensures PR.Separate(ps.now) && forall f :: f in ps.now.entries ==> f < ps.now.next
  {
    hide Indexed;
  }

  lemma {:induction false} RegistryFacts(registry: PayloadRegistry, extents: map<PageId, Extent>, writes: Writes, keys: seq<QueueKey>)
    requires RegistryOk(registry, extents, writes, keys)
    ensures registry.Valid() && registry.reservations == map[] && registry.registered == writes.Keys && registry.entries == PR.Registered(extents, writes)
  {
  }

  /** The registry counts what the trees hold. */
  lemma {:induction false} Countings(rs: R.State, ps: PR.State, disk: map<PageId, Page>, b0: Book, b1: Book, b2: Book, ts: seq<Option<Tree>>, made: seq<Option<Tree>>, roots: seq<PageId>,
                                     all: seq<Option<Tree>>, made2: seq<Option<Tree>>, roots2: seq<PageId>, writes: Writes, oldest: nat, c: PR.Committed, entries: map<PageId, Extent>)
    requires PR.Good(ps.now) && PR.IsOldest(ps, oldest) && Opening(b0, rs) && Closing(b2) && ps.now.next == rs.next && ps.now.txid < c.txid
    requires (forall p :: p in rs.pool.ready ==> p in ps.now.tree) && RefsOfForest(ts) <= ps.now.cells
    requires Done(disk, b0, b1, ts, made, roots) && Done(disk, b0, b2, all, made2, roots2) && Later(b1, b2)
    requires BodiesOk(ps.now.entries, b0, b1, writes, oldest)
    requires c.entries == entries && Indexed(entries, c.queue) && c.cells == (ps.now.cells - RefsOfForest(ts)) + RefsOfForest(made) && c.next == b2.next
    requires forall p :: p in c.tree <==> p in ps.now.tree || p in b2.images || p in b2.reusable
    requires AllRecounted(PR.Registered(ps.now.entries, writes), entries, multiset(b1.added), multiset(b1.dropped), c.txid)
    requires forall f :: f in entries && PR.Registered(ps.now.entries, writes)[f].references == 0 && entries[f].references > 0 ==> f in writes
    requires forall f :: f in writes ==> f in entries && entries[f].references > 0
    ensures PR.Plans(ps, writes, multiset(b1.added), multiset(b1.dropped), c)
  {
    hide PR.Good, PR.IsOldest, Done, RefsOfForest, BodiesOk, Indexed, Later, AllRecounted, PR.PlannedWrites, PR.Placed, PR.Registered;
    ExtentsBelow(ps);
    TreesKeepBodies(ps.now.entries, b0, b1, b2, writes, oldest);
    WritesAreAllowed(ps, b0, b2, writes, oldest);
    ImagesTaken(disk, b0, b2, all, made2, roots2);
    PlanIsPlaced(rs, ps, b0, b2, writes, oldest, c);
    CellsBalance(disk, b0, b1, ts, made, roots, ps.now.cells);
  }
}
