/**
 * Runs of a whole database: history, page pool, payload registry and trees together, from its
 * creation through plans, publications, failures, snapshots and recoveries.
 */
module DatabaseRuns {
  import opened Keys
  import opened Pages
  import opened MergeSpec
  import opened Allocator
  import opened Fitting
  import opened WalScan
  import opened History
  import opened TreeApply
  import opened CommitTrees
  import opened CommitPlanning
  import PayloadRegistration
  import L = CommitLink
  import C = Crash
  import CrashProof
  import CrashReach
  import CrashReopen
  import CrashRuns
  import F = FreePages
  import N = Creation
  import PR = PayloadRuns
  import R = Reclaim

  /** What a commit of unknown outcome leads to, if it turns out durable. */
  datatype Prospect = Prospect(commit: Commit, version: R.Version, now: PR.Committed, stores: seq<Option<Tree>>, system: seq<Option<Tree>>)

  /**
   * The committed history, the page pool with the current version, the payload extents, and the
   * trees of the current version: `system` are the registry and the catalog, which hold no
   * references, `stores` all others.
   */
  datatype Database = Database(h: Chronicle, rs: R.State, ps: PR.State, stores: seq<Option<Tree>>, system: seq<Option<Tree>>, pending: Option<Prospect>)

  // ---------- what fits together ----------

  /** Well-formed trees that share no page, hold exactly the pages of the version, and name exactly the counted cells. */
  ghost predicate TreesOk(v: R.Version, cells: multiset<PayloadRef>, stores: seq<Option<Tree>>, system: seq<Option<Tree>>) {
    && (forall t :: t in stores || t in system ==> WellFormed(v.pages, RootOf(t), t))
    && (forall x :: (PagesOfForest(stores) + PagesOfForest(system))[x] == if x in v.pages then 1 else 0)
    && RefsOfForest(stores) == cells && RefsOfForest(system) == multiset{}
  }

  ghost predicate Core(h: Chronicle, rs: R.State, now: PR.Committed, stores: seq<Option<Tree>>, system: seq<Option<Tree>>) {
    && Valid(h) && L.Linked(h, rs, now) && PR.Good(now) && TreesOk(rs.current, now.cells, stores, system)
    && (forall p :: p in now.tree ==> p > 0)
  }

  /** A version with no readers and an empty pool, as recovery leaves it. */
  ghost function Alone(v: R.Version, next: PageId, view: map<PageId, Page>): R.State {
    R.State(v, map[], F.Pool([], []), next, view, R.Healthy)
  }

  ghost predicate PendingOk(d: Database) {
    && (d.pending.Some? <==> d.ps.pending.Some?)
    && (d.pending.Some? ==>
          var o := d.pending.value;
          && d.ps.pending == Some(o.now) && d.rs.health.Poisoned?
          && Core(d.h + [o.commit], Alone(o.version, o.now.next, o.version.pages), o.now, o.stores, o.system))
  }

  /** Both schemes know the same readers. */
  ghost predicate Aligned(rs: R.State, ps: PR.State) {
    rs.readers.Keys == ps.readers.Keys && forall t :: t in rs.readers ==> rs.readers[t].txid == ps.readers[t].txid
  }

  ghost predicate Ok(d: Database) {
    && Core(d.h, d.rs, d.ps.now, d.stores, d.system)
    && R.Inv(d.rs) && PR.Inv(d.ps) && Aligned(d.rs, d.ps) && PendingOk(d)
  }

  // ---------- steps ----------

  /** A planned commit: the trees it changes, those it keeps, the plan, and what the log records of it. */
  datatype Work = Work(
    ts: seq<Option<Tree>>, kept: seq<Option<Tree>>, plain: seq<Option<Tree>>, rest: seq<Option<Tree>>,
    plan: R.Plan, roots: seq<PageId>, made: seq<Option<Tree>>, writes: Writes,
    added: multiset<PayloadRef>, dropped: multiset<PayloadRef>, c: PR.Committed, commit: Commit)

  /** `m` is the state with ripe pages promoted; `Sound` is what `PlanCommit` ensures. */
  ghost predicate Works(m: R.State, ps: PR.State, stores: seq<Option<Tree>>, system: seq<Option<Tree>>, w: Work) {
    && stores == w.ts + w.kept && system == w.plain + w.rest
    && Sound(m, ps, w.ts + w.plain, w.plan, w.roots, w.made, w.writes, w.added, w.dropped, w.c)
    && |w.made| == |w.ts| + |w.plain| && RefsOfForest(w.made[|w.ts|..]) == multiset{}
    && L.Records(w.commit, m, w.plan, w.writes, w.c) && TxValid(w.commit.tx)
  }

  ghost function NewStores(w: Work): seq<Option<Tree>>
    requires |w.ts| <= |w.made|
  {
    w.made[..|w.ts|] + w.kept
  }

  ghost function NewSystem(w: Work): seq<Option<Tree>>
    requires |w.ts| <= |w.made|
  {
    w.made[|w.ts|..] + w.rest
  }

  /** The same trees in another order, with or without absent ones. */
  ghost predicate Arranged(a: seq<Option<Tree>>, b: seq<Option<Tree>>) {
    forall t: Option<Tree> :: t.Some? ==> multiset(a)[t] == multiset(b)[t]
  }

  datatype Step =
    | Arrange
    | Begin(t: nat)
    | Finish(t: nat)
    | Promote
    | NoCommit(writes: Writes)
    | Commit(m: R.State, w: Work)
    | FailLogging(m: R.State, w: Work)
    | Recover(adopt: bool)

  ghost predicate Takes(d: Database, step: Step, d': Database) {
    match step
    case Arrange =>
      Arranged(d.stores, d'.stores) && Arranged(d.system, d'.system) && d' == d.(stores := d'.stores, system := d'.system)
    case Begin(t) =>
      && R.Takes(d.rs, R.Begin(t), d'.rs) && PR.Takes(d.ps, PR.Begin(t), d'.ps) && d' == d.(rs := d'.rs, ps := d'.ps)
    case Finish(t) =>
      && R.Takes(d.rs, R.Finish(t), d'.rs) && PR.Takes(d.ps, PR.Finish(t), d'.ps) && d' == d.(rs := d'.rs, ps := d'.ps)
    case Promote => R.Takes(d.rs, R.Promote, d'.rs) && d' == d.(rs := d'.rs)
    // planning failed, or publishing before the log was touched; bodies may have been written
    case NoCommit(writes) =>
      && R.Takes(d.rs, R.FailPlan, d'.rs) && PR.Takes(d.ps, PR.FailPlan(writes), d'.ps) && d' == d.(rs := d'.rs, ps := d'.ps)
    case Commit(m, w) =>
      && d.rs.health.Healthy? && d.ps.pending.None?
      && R.Promotes(d.rs, m) && Works(m, d.ps, d.stores, d.system, w) && R.Promotes(R.Installed(m, w.plan), d'.rs)
      && d' == Database(d.h + [w.commit], d'.rs, d.ps.(now := w.c, bodies := PR.Overwritten(d.ps.bodies, w.writes)), NewStores(w), NewSystem(w), None)
    case FailLogging(m, w) =>
      && d.rs.health.Healthy? && d.ps.pending.None?
      && R.Promotes(d.rs, m) && Works(m, d.ps, d.stores, d.system, w)
      && d' == d.(rs := m.(pool := F.Pool([], m.pool.retired), health := R.Poisoned),
                  ps := d.ps.(bodies := PR.Overwritten(d.ps.bodies, w.writes), pending := Some(w.c)),
                  pending := Some(Prospect(w.commit, R.Publishes(m, w.plan), w.c, NewStores(w), NewSystem(w))))
    // recovery decides about the pending commit
    case Recover(adopt) =>
      && PR.Takes(d.ps, PR.Recover(adopt), d'.ps)
      && R.Holds(d'.rs.view, d'.rs.current)
      && d' == if adopt && d.pending.Some? then
                 var o := d.pending.value;
                 Database(d.h + [o.commit], Alone(o.version, o.now.next, d'.rs.view), d'.ps, o.stores, o.system, None)
               else Database(d.h, Alone(d.rs.current, d.rs.next, d'.rs.view), d'.ps, d.stores, d.system, None)
  }

  // ---------- trees in another order ----------

  lemma {:induction false} AbsentTrees(ts: seq<Option<Tree>>)
    requires forall t :: t in ts ==> t.None?
    ensures PagesOfForest(ts) == multiset{} && RefsOfForest(ts) == multiset{}
    decreases |ts|
  {
    if ts != [] {
      AbsentTrees(ts[..|ts| - 1]);
      NoTree(map[]);
    }
  }

  lemma {:induction false} TakeOut(ts: seq<Option<Tree>>, j: nat)
    requires j < |ts|
    ensures var rest := ts[..j] + ts[j + 1..];
            && PagesOfForest(ts) == PagesOfForest(rest) + PagesIn(ts[j])
            && RefsOfForest(ts) == RefsOfForest(rest) + RefsIn(ts[j])
            && multiset(ts) == multiset(rest) + multiset{ts[j]}
  {
    hide PagesIn, RefsIn, PagesOfForest, RefsOfForest;
    var a, t, b := ts[..j], ts[j], ts[j + 1..];
    assert ts == (a + [t]) + b;
    PagesJoinForest(a + [t], b);
    RefsJoinForest(a + [t], b);
    ForestSnoc(a, t);
    PagesJoinForest(a, b);
    RefsJoinForest(a, b);
  }

  lemma {:induction false} SameForest(a: seq<Option<Tree>>, b: seq<Option<Tree>>)
    requires Arranged(a, b)
    ensures PagesOfForest(a) == PagesOfForest(b) && RefsOfForest(a) == RefsOfForest(b)
    decreases |a|
  {
    hide PagesIn, RefsIn;
    if a == [] {
      forall t | t in b ensures t.None? {
        assert multiset(b)[t] > 0;
        assert multiset(a)[t] == 0;
      }
      AbsentTrees(b);
    } else {
      var a', t := a[..|a| - 1], a[|a| - 1];
      assert a == a' + [t];
      if t.None? {
        assert Arranged(a', b) by {
          forall u: Option<Tree> | u.Some? ensures multiset(a')[u] == multiset(b)[u] {
            assert multiset(a)[u] == multiset(a')[u];
          }
        }
        SameForest(a', b);
        NoTree(map[]);
      } else {
        assert multiset(a)[t] > 0;
        assert t in multiset(b);
        var j :| 0 <= j < |b| && b[j] == t;
        TakeOut(b, j);
        var b' := b[..j] + b[j + 1..];
        assert Arranged(a', b') by {
          forall u: Option<Tree> | u.Some? ensures multiset(a')[u] == multiset(b')[u] {
            assert multiset(a) == multiset(a') + multiset{t};
          }
        }
        SameForest(a', b');
      }
    }
  }

  lemma {:induction false} SameMembers(a: seq<Option<Tree>>, b: seq<Option<Tree>>, t: Option<Tree>)
    requires Arranged(a, b) && t.Some? && t in b
    ensures t in a
  {
    assert multiset(b)[t] > 0;
    assert multiset(a)[t] == multiset(b)[t];
  }

  lemma {:induction false} ArrangedTrees(v: R.Version, cells: multiset<PayloadRef>, stores: seq<Option<Tree>>, system: seq<Option<Tree>>, stores': seq<Option<Tree>>, system': seq<Option<Tree>>)
    requires TreesOk(v, cells, stores, system) && Arranged(stores, stores') && Arranged(system, system')
    ensures TreesOk(v, cells, stores', system')
  {
    hide WellFormed, Arranged, PagesOfForest, RefsOfForest;
    SameForest(stores, stores');
    SameForest(system, system');
    forall t | t in stores' || t in system' ensures WellFormed(v.pages, RootOf(t), t) {
      if t.None? {
        NoTree(v.pages);
      } else if t in stores' {
        SameMembers(stores, stores', t);
      } else {
        SameMembers(system, system', t);
      }
    }
  }

  // ---------- trees through a commit ----------

  lemma {:induction false} MemberPages(ts: seq<Option<Tree>>, t: Option<Tree>, x: PageId)
    requires t in ts && x in PagesIn(t)
    ensures x in PagesOfForest(ts)
  {
    hide PagesIn, PagesOfForest;
    var j :| 0 <= j < |ts| && ts[j] == t;
    InForest(ts, j, x);
  }

  /** A tree that a commit leaves alone shares no page with those it changes. */
  lemma {:induction false} KeptIsUntouched(m: R.State, cells: multiset<PayloadRef>, stores: seq<Option<Tree>>, system: seq<Option<Tree>>, w: Work, t: Option<Tree>)
    requires TreesOk(m.current, cells, stores, system) && stores == w.ts + w.kept && system == w.plain + w.rest
    requires t in w.kept || t in w.rest
    ensures Untouched(m, w.ts + w.plain, RootOf(t), t)
  {
    hide WellFormed, PagesIn, PagesOfForest, RefsOfForest;
    PagesJoinForest(w.ts, w.kept);
    PagesJoinForest(w.plain, w.rest);
    PagesJoinForest(w.ts, w.plain);
    forall x | x in PagesIn(t) ensures x in m.current.pages && x !in PagesOfForest(w.ts + w.plain) {
      if t in w.kept {
        MemberPages(w.kept, t, x);
      } else {
        MemberPages(w.rest, t, x);
      }
      assert (PagesOfForest(stores) + PagesOfForest(system))[x] <= 1;
    }
    assert t in stores || t in system;
  }

  lemma {:induction false} NewTreesOk(m: R.State, ps: PR.State, stores: seq<Option<Tree>>, system: seq<Option<Tree>>, w: Work)
    requires TreesOk(m.current, ps.now.cells, stores, system) && Works(m, ps, stores, system, w)
    requires forall p :: p in w.plan.images ==> p !in m.current.pages
    ensures TreesOk(R.Publishes(m, w.plan), w.c.cells, NewStores(w), NewSystem(w))
  {
    hide WellFormed, PagesIn, PagesOfForest, RefsOfForest, TreesOk, R.PlannedFrom, PR.Plans, L.Records, TxValid, Untouched;
    var stores', system' := NewStores(w), NewSystem(w);
    forall t | t in stores' || t in system' ensures WellFormed(R.Publishes(m, w.plan).pages, RootOf(t), t) {
      if t in w.kept || t in w.rest {
        KeptIsUntouched(m, ps.now.cells, stores, system, w, t);
      } else {
        assert t in w.made;
        var j :| 0 <= j < |w.made| && w.made[j] == t;
      }
    }
    NewPages(m, ps, stores, system, w);
    NewRefs(m, ps, stores, system, w);
    assert TreesOk(R.Publishes(m, w.plan), w.c.cells, stores', system') by { TreesTogether(R.Publishes(m, w.plan), w.c.cells, stores', system'); }
  }

  lemma {:induction false} TreesTogether(v: R.Version, cells: multiset<PayloadRef>, stores: seq<Option<Tree>>, system: seq<Option<Tree>>)
    requires forall t :: t in stores || t in system ==> WellFormed(v.pages, RootOf(t), t)
    requires forall x :: (PagesOfForest(stores) + PagesOfForest(system))[x] == if x in v.pages then 1 else 0
    requires RefsOfForest(stores) == cells && RefsOfForest(system) == multiset{}
    ensures TreesOk(v, cells, stores, system)
  {
  }

  /** The new trees hold exactly the pages of the published version. */
  lemma {:induction false} NewPages(m: R.State, ps: PR.State, stores: seq<Option<Tree>>, system: seq<Option<Tree>>, w: Work)
    requires TreesOk(m.current, ps.now.cells, stores, system) && Works(m, ps, stores, system, w)
    requires forall p :: p in w.plan.images ==> p !in m.current.pages
    ensures forall x :: (PagesOfForest(NewStores(w)) + PagesOfForest(NewSystem(w)))[x] == if x in R.Publishes(m, w.plan).pages then 1 else 0
  {
    hide WellFormed, PagesIn, PagesOfForest, RefsOfForest, R.PlannedFrom, PR.Plans, L.Records, TxValid, Untouched;
    assert w.made == w.made[..|w.ts|] + w.made[|w.ts|..];
    PagesJoinForest(w.made[..|w.ts|], w.made[|w.ts|..]);
    PagesJoinForest(w.made[..|w.ts|], w.kept);
    PagesJoinForest(w.made[|w.ts|..], w.rest);
    PagesJoinForest(w.ts, w.kept);
    PagesJoinForest(w.plain, w.rest);
    PagesJoinForest(w.ts, w.plain);
    forall x ensures (PagesOfForest(NewStores(w)) + PagesOfForest(NewSystem(w)))[x] == if x in R.Publishes(m, w.plan).pages then 1 else 0 {
      assert (PagesOfForest(stores) + PagesOfForest(system))[x] == if x in m.current.pages then 1 else 0;
      assert (PagesOfForest(w.made) + multiset(w.plan.freed))[x] == (PagesOfForest(w.ts + w.plain) + multiset(w.plan.images.Keys))[x];
      FreedOnce(m, w.plan, x);
      assert multiset(w.plan.images.Keys)[x] == if x in w.plan.images then 1 else 0;
    }
  }

  lemma {:induction false} FreedOnce(m: R.State, plan: R.Plan, x: PageId)
    requires R.PlannedFrom(m, m.pool.ready, plan)
    ensures multiset(plan.freed)[x] == (if x in plan.freed then 1 else 0) && (x in plan.freed ==> x in m.current.pages)
  {
    AtMostOnce(plan.freed, x);
  }

  lemma {:induction false} NewRefs(m: R.State, ps: PR.State, stores: seq<Option<Tree>>, system: seq<Option<Tree>>, w: Work)
    requires TreesOk(m.current, ps.now.cells, stores, system) && Works(m, ps, stores, system, w)
    ensures RefsOfForest(NewStores(w)) == w.c.cells && RefsOfForest(NewSystem(w)) == multiset{}
  {
    hide WellFormed, PagesIn, PagesOfForest, RefsOfForest, R.PlannedFrom, PR.Plans, L.Records, TxValid, Untouched;
    assert w.made == w.made[..|w.ts|] + w.made[|w.ts|..];
    RefsJoinForest(w.made[..|w.ts|], w.made[|w.ts|..]);
    RefsJoinForest(w.made[..|w.ts|], w.kept);
    RefsJoinForest(w.made[|w.ts|..], w.rest);
    RefsJoinForest(w.ts, w.kept);
    RefsJoinForest(w.plain, w.rest);
    RefsJoinForest(w.ts, w.plain);
    var a, b := RefsOfForest(w.ts), RefsOfForest(w.kept);
    assert RefsOfForest(w.plain) == multiset{} && RefsOfForest(w.rest) == multiset{} by {
      NoSum(RefsOfForest(w.plain), RefsOfForest(w.rest));
    }
    assert ps.now.cells - RefsOfForest(w.ts + w.plain) == (a + b) - a == b;
  }

  lemma {:induction false} NoSum(a: multiset<PayloadRef>, b: multiset<PayloadRef>)
    requires a + b == multiset{}
    ensures a == multiset{} && b == multiset{}
  {
    forall r ensures a[r] == 0 && b[r] == 0 {
      assert (a + b)[r] == 0;
    }
  }

  // ---------- a commit ----------

  lemma {:induction false} WorkFacts(m: R.State, ps: PR.State, stores: seq<Option<Tree>>, system: seq<Option<Tree>>, w: Work)
    requires Works(m, ps, stores, system, w)
    ensures R.PlannedFrom(m, m.pool.ready, w.plan) && PR.Plans(ps, w.writes, w.added, w.dropped, w.c) && L.TreeOf(ps, w.plan, w.c)
    ensures L.Records(w.commit, m, w.plan, w.writes, w.c) && TxValid(w.commit.tx) && |w.made| == |w.ts| + |w.plain|
    ensures forall p :: p in w.c.tree && p !in ps.now.tree ==> p > 0
  {
    hide WellFormed, PagesIn, PagesOfForest, RefsOfForest, R.PlannedFrom, PR.Plans, L.Records, TxValid, Untouched;
  }

  /** A planned commit follows the history, and leaves everything fitting together. */
  lemma {:induction false} CommitFits(h: Chronicle, m: R.State, ps: PR.State, stores: seq<Option<Tree>>, system: seq<Option<Tree>>, w: Work)
    requires Core(h, m, ps.now, stores, system) && R.Inv(m) && PR.Inv(ps) && Works(m, ps, stores, system, w)
    ensures Extends(h, w.commit) && Core(h + [w.commit], R.Installed(m, w.plan), w.c, NewStores(w), NewSystem(w))
    ensures forall p :: p in w.commit.bodies ==> p !in h[|h| - 1].reach
  {
    hide Valid, L.Linked, PR.Good, TreesOk, Extends, R.Inv, PR.Inv, Works, R.PlannedFrom, PR.Plans, L.Records, TxValid, L.TreeOf, R.Publishes;
    WorkFacts(m, ps, stores, system, w);
    L.PlannedExtends(h, m, ps, w.plan, w.writes, w.added, w.dropped, w.c, w.commit);
    LastIs(h, m, ps.now);
    ValidSnoc(h, w.commit);
    L.PlannedStaysLinked(h, m, ps, w.plan, w.writes, w.added, w.dropped, w.c, w.commit);
    PR.PlanKeepsGood(ps, w.writes, w.added, w.dropped, w.c);
    ImagesOutside(m, w.plan);
    NewTreesOk(m, ps, stores, system, w);
  }

  lemma {:induction false} LastIs(h: Chronicle, rs: R.State, now: PR.Committed)
    requires L.Linked(h, rs, now)
    ensures h != []
  {
  }

  lemma {:induction false} ImagesOutside(m: R.State, plan: R.Plan)
    requires R.Inv(m) && R.PlannedFrom(m, m.pool.ready, plan)
    ensures forall p :: p in plan.images ==> p !in m.current.pages
  {
    hide R.Inv, R.PlannedFrom;
    forall p | p in plan.images ensures p !in m.current.pages {
      R.ImagesAreFresh(m, plan, p);
    }
  }

  /** Only the current version, the end of the file and the ids in the pool matter to it. */
  lemma {:induction false} PoolMoves(h: Chronicle, rs: R.State, rs': R.State, now: PR.Committed, stores: seq<Option<Tree>>, system: seq<Option<Tree>>)
    requires Core(h, rs, now, stores, system) && rs'.current == rs.current && rs'.next == rs.next
    requires forall p :: p in rs'.pool.ready || p in F.PagesIn(rs'.pool.retired) ==> p in rs.pool.ready || p in F.PagesIn(rs.pool.retired)
    ensures Core(h, rs', now, stores, system)
  {
    hide Valid, PR.Good, TreesOk, Touches, L.InExtent, L.InLiveExtent, F.PagesIn;
    forall p | p in rs'.pool.ready || p in F.PagesIn(rs'.pool.retired) ensures p in now.tree {
      if p in F.PagesIn(rs.pool.retired) {
        R.InPagesIn(rs.pool.retired, p);
      }
    }
    forall i, p | 0 <= i < |rs'.pool.retired| && p in rs'.pool.retired[i].pages ensures p in now.tree {
      R.InPagesIn(rs'.pool.retired, p);
    }
  }

  lemma {:induction false} PromotedFits(h: Chronicle, rs: R.State, rs': R.State, now: PR.Committed, stores: seq<Option<Tree>>, system: seq<Option<Tree>>)
    requires Core(h, rs, now, stores, system) && R.Inv(rs) && R.Promotes(rs, rs')
    ensures Core(h, rs', now, stores, system) && R.Inv(rs')
    ensures rs'.current == rs.current && rs'.readers == rs.readers && rs'.next == rs.next && rs'.health == rs.health
  {
    hide Core, R.Inv, R.IsOldest, R.ChangedOnly, F.PagesIn, F.Ripe;
    R.PromoteKeeps(rs, rs');
    var oldest :| R.IsOldest(rs, oldest) && rs' == rs.(pool := F.Promoted(rs.pool, oldest), view := rs'.view)
      && R.ChangedOnly(rs.view, rs'.view, F.PagesIn(rs.pool.retired[..F.Ripe(rs.pool.retired, oldest)]));
    R.PromotionMoves(rs.pool, oldest);
    forall p | p in rs'.pool.ready || p in F.PagesIn(rs'.pool.retired) ensures p in rs.pool.ready || p in F.PagesIn(rs.pool.retired) {
      assert p in rs'.pool.ready + F.PagesIn(rs'.pool.retired);
    }
    PoolMoves(h, rs, rs', now, stores, system);
  }

  lemma {:induction false} BelowEnd(h: Chronicle, rs: R.State, now: PR.Committed, stores: seq<Option<Tree>>, system: seq<Option<Tree>>)
    requires Core(h, rs, now, stores, system)
    ensures forall p :: p in rs.current.pages ==> p < rs.next
    ensures rs.next == now.next
  {
    hide Valid, TreesOk, Touches, L.InExtent, L.InLiveExtent, PayloadRegistration.Indexed;
  }

  // ---------- every step keeps it ----------

  lemma {:induction false} CommitKeeps(d: Database, m: R.State, w: Work, d': Database)
    requires Ok(d) && Takes(d, Step.Commit(m, w), d')
    ensures Ok(d')
  {
    hide Core, R.Inv, PR.Inv, Works, R.Promotes, PR.Overwritten, R.Installed;
    PromotedFits(d.h, d.rs, m, d.ps.now, d.stores, d.system);
    CommitFits(d.h, m, d.ps, d.stores, d.system, w);
    WorkFacts(m, d.ps, d.stores, d.system, w);
    R.InstallKeeps(m, w.plan);
    var installed := R.Installed(m, w.plan);
    assert installed.readers == m.readers by { hide *; InstalledFacts(m, w.plan); }
    PromotedFits(d.h + [w.commit], installed, d'.rs, w.c, NewStores(w), NewSystem(w));
    PR.StepKeeps(d.ps, PR.Commit(w.writes, w.added, w.dropped), d'.ps);
  }

  lemma {:induction false} InstalledFacts(m: R.State, plan: R.Plan)
    ensures R.Installed(m, plan).readers == m.readers && R.Installed(m, plan).health == m.health && R.Installed(m, plan).next == plan.next
    ensures R.Installed(m, plan).current == R.Publishes(m, plan)
  {
  }

  lemma {:induction false} FailLoggingKeeps(d: Database, m: R.State, w: Work, d': Database)
    requires Ok(d) && Takes(d, FailLogging(m, w), d')
    ensures Ok(d')
  {
    hide Core, R.Inv, PR.Inv, Works, R.Promotes, PR.Overwritten, R.Installed, R.Publishes;
    PromotedFits(d.h, d.rs, m, d.ps.now, d.stores, d.system);
    CommitFits(d.h, m, d.ps, d.stores, d.system, w);
    WorkFacts(m, d.ps, d.stores, d.system, w);
    R.DropReady(m, R.Poisoned);
    PoolMoves(d.h, m, d'.rs, d.ps.now, d.stores, d.system);
    PR.StepKeeps(d.ps, PR.FailPublish(w.writes, w.added, w.dropped, w.c), d'.ps);
    var installed := R.Installed(m, w.plan);
    InstalledFacts(m, w.plan);
    var o := d'.pending.value;
    BelowEnd(d.h + [w.commit], installed, w.c, NewStores(w), NewSystem(w));
    assert F.PagesIn([]) == [];
    PoolMoves(d.h + [w.commit], installed, Alone(o.version, o.now.next, o.version.pages), o.now, o.stores, o.system);
  }

  lemma {:induction false} NoCommitKeeps(d: Database, writes: Writes, d': Database)
    requires Ok(d) && Takes(d, NoCommit(writes), d')
    ensures Ok(d')
  {
    hide Core, R.Inv, PR.Inv, R.Promotes, PR.Overwritten, PR.PlannedWrites;
    R.StepKeeps(d.rs, R.FailPlan, d'.rs);
    PR.StepKeeps(d.ps, PR.FailPlan(writes), d'.ps);
    var m :| R.Promotes(d.rs, m) && d'.rs == m.(pool := F.Pool([] + m.pool.ready, m.pool.retired));
    PromotedFits(d.h, d.rs, m, d.ps.now, d.stores, d.system);
    PoolMoves(d.h, m, d'.rs, d.ps.now, d.stores, d.system);
  }

  lemma {:induction false} PromoteStepKeeps(d: Database, d': Database)
    requires Ok(d) && Takes(d, Promote, d')
    ensures Ok(d')
  {
    hide Core, R.Inv, PR.Inv, R.Promotes;
    PromotedFits(d.h, d.rs, d'.rs, d.ps.now, d.stores, d.system);
  }

  lemma {:induction false} BeginKeeps(d: Database, t: nat, d': Database)
    requires Ok(d) && Takes(d, Begin(t), d')
    ensures Ok(d')
  {
    hide Core, R.Inv, PR.Inv;
    R.StepKeeps(d.rs, R.Begin(t), d'.rs);
    PR.StepKeeps(d.ps, PR.Begin(t), d'.ps);
    PoolMoves(d.h, d.rs, d'.rs, d.ps.now, d.stores, d.system);
    SameTxid(d.h, d.rs, d.ps.now, d.stores, d.system);
  }

  lemma {:induction false} SameTxid(h: Chronicle, rs: R.State, now: PR.Committed, stores: seq<Option<Tree>>, system: seq<Option<Tree>>)
    requires Core(h, rs, now, stores, system)
    ensures rs.current.txid == now.txid && rs.next == now.next && h != []
  {
    hide Valid, TreesOk, PR.Good;
  }

  lemma {:induction false} FinishKeeps(d: Database, t: nat, d': Database)
    requires Ok(d) && Takes(d, Finish(t), d')
    ensures Ok(d')
  {
    hide Core, R.Inv, PR.Inv;
    R.StepKeeps(d.rs, R.Finish(t), d'.rs);
    PR.StepKeeps(d.ps, PR.Finish(t), d'.ps);
    PoolMoves(d.h, d.rs, d'.rs, d.ps.now, d.stores, d.system);
  }

  lemma {:induction false} ArrangeKeeps(d: Database, d': Database)
    requires Ok(d) && Takes(d, Arrange, d')
    ensures Ok(d')
  {
    hide R.Inv, PR.Inv, Valid, L.Linked, PR.Good, TreesOk, Arranged;
    ArrangedTrees(d.rs.current, d.ps.now.cells, d.stores, d.system, d'.stores, d'.system);
  }

  lemma {:induction false} RecoverKeeps(d: Database, adopt: bool, d': Database)
    requires Ok(d) && Takes(d, Recover(adopt), d')
    ensures Ok(d')
  {
    hide Core, R.Inv, PR.Inv;
    PR.StepKeeps(d.ps, PR.Recover(adopt), d'.ps);
    assert F.PagesIn([]) == [];
    if adopt && d.pending.Some? {
      var o := d.pending.value;
      var before := Alone(o.version, o.now.next, o.version.pages);
      BelowEnd(d.h + [o.commit], before, o.now, o.stores, o.system);
      PoolMoves(d.h + [o.commit], before, d'.rs, o.now, o.stores, o.system);
    } else {
      BelowEnd(d.h, d.rs, d.ps.now, d.stores, d.system);
      PoolMoves(d.h, d.rs, d'.rs, d.ps.now, d.stores, d.system);
    }
    R.RecoverKeeps(d'.rs.current, d'.rs.view, d'.rs.next);
  }

  lemma {:induction false} StepKeeps(d: Database, step: Step, d': Database)
    requires Ok(d) && Takes(d, step, d')
    ensures Ok(d') && d.h <= d'.h
  {
    hide Ok, R.Takes, PR.Takes, Works, Arranged, R.Promotes;
    match step
    case Arrange => ArrangeKeeps(d, d');
    case Begin(t) => BeginKeeps(d, t, d');
    case Finish(t) => FinishKeeps(d, t, d');
    case Promote => PromoteStepKeeps(d, d');
    case NoCommit(writes) => NoCommitKeeps(d, writes, d');
    case Commit(m, w) => CommitKeeps(d, m, w, d');
    case FailLogging(m, w) => FailLoggingKeeps(d, m, w, d');
    case Recover(adopt) => RecoverKeeps(d, adopt, d');
  }

  // ---------- the beginning ----------

  /** A new database: the catalog is its only tree. */
  ghost function Created(images: seq<Image>, pages: map<PageId, Page>, catalog: Tree, next: PageId): Database {
    Database(
      [N.Founding(images, catalog.id, next)],
      R.State(R.Version(0, pages), map[], F.Pool([], []), next, pages, R.Healthy),
      PR.State(PR.Committed(map[], map[], multiset{}, 0, next, iset p | p in pages), map[], map[], None),
      [], [Some(catalog)], None)
  }

  /** The pages a new catalog was built into, and the images written of them. */
  ghost predicate Founds(images: seq<Image>, pages: map<PageId, Page>, catalog: Tree, next: PageId) {
    && WellFormed(pages, catalog.id, Some(catalog)) && RefsIn(Some(catalog)) == multiset{}
    && PagesIn(Some(catalog)) == multiset(pages.Keys)
    && (forall p :: p in pages ==> 0 < p < next)
    && (forall p :: p in pages <==> exists i :: 0 <= i < |images| && images[i].page == p)
  }

  /** A created database is where the crash model's runs start, and everything fits together. */
  lemma {:induction false} CreatedIsOk(images: seq<Image>, pages: map<PageId, Page>, catalog: Tree, next: PageId, disk: N.Disk)
    requires Founds(images, pages, catalog, next)
    requires var c := N.Founding(images, catalog.id, next);
             disk.main == N.Target(c) && disk.manifest == N.Holding([Some(C.Publishing(c, 1, 0)), None])
    ensures Ok(Created(images, pages, catalog, next))
    ensures C.Init(N.Started(disk, N.Founding(images, catalog.id, next)))
    ensures N.Started(disk, N.Founding(images, catalog.id, next)).hist == Created(images, pages, catalog, next).h
  {
    hide WellFormed, PagesIn, RefsIn, C.Init, N.Target, Valid, Core, R.Inv, PR.Inv;
    var d := Created(images, pages, catalog, next);
    RootInPages(pages, catalog);
    forall i | 0 <= i < |images| ensures images[i].page < next {
      assert images[i].page in pages;
    }
    N.StartedIsInit(disk, images, catalog.id, next);
    assert Valid(d.h) by { StartsValid(N.Started(disk, d.h[0])); }
    assert R.Inv(d.rs) by { assert F.PagesIn([]) == []; R.RecoverKeeps(d.rs.current, pages, next); }
    NothingRegistered(d.ps);
    CreatedLinked(images, pages, catalog, next);
    CatalogAlone(pages, catalog);
    assert Core(d.h, d.rs, d.ps.now, d.stores, d.system) by { CoreTogether(d); }
  }

  lemma {:induction false} StartsValid(s: C.State)
    requires C.Init(s)
    ensures Valid(s.hist)
  {
    hide Valid, C.Firm;
  }

  lemma {:induction false} CoreTogether(d: Database)
    requires Valid(d.h) && L.Linked(d.h, d.rs, d.ps.now) && PR.Good(d.ps.now) && TreesOk(d.rs.current, d.ps.now.cells, d.stores, d.system)
    requires forall p :: p in d.ps.now.tree ==> p > 0
    ensures Core(d.h, d.rs, d.ps.now, d.stores, d.system)
  {
    hide Valid, L.Linked, PR.Good, TreesOk;
  }

  lemma {:induction false} RootInPages(pages: map<PageId, Page>, catalog: Tree)
    requires WellFormed(pages, catalog.id, Some(catalog)) && PagesIn(Some(catalog)) == multiset(pages.Keys)
    ensures catalog.id in pages
  {
    hide Spelled, Sorted, Flat, ShapedRoot;
    assert catalog.id in PagesOf(catalog);
  }

  lemma {:induction false} NothingRegistered(ps: PR.State)
    requires ps.now.entries == map[] && ps.now.queue == map[] && ps.now.cells == multiset{} && ps.readers == map[] && ps.pending.None?
    requires forall p :: p in ps.now.tree ==> p < ps.now.next
    ensures PR.Inv(ps) && PR.Good(ps.now)
  {
  }

  lemma {:induction false} CreatedLinked(images: seq<Image>, pages: map<PageId, Page>, catalog: Tree, next: PageId)
    requires Founds(images, pages, catalog, next)
    ensures var d := Created(images, pages, catalog, next); L.Linked(d.h, d.rs, d.ps.now)
  {
    hide WellFormed, PagesIn, RefsIn;
    var d := Created(images, pages, catalog, next);
    forall p ensures Touches(d.h[0].tx, p) <==> p in pages {
    }
    forall p ensures p in d.h[0].reach <==> p in pages {
    }
    assert forall p :: !L.InLiveExtent(d.ps.now, p);
  }

  lemma {:induction false} CatalogAlone(pages: map<PageId, Page>, catalog: Tree)
    requires WellFormed(pages, catalog.id, Some(catalog)) && RefsIn(Some(catalog)) == multiset{} && PagesIn(Some(catalog)) == multiset(pages.Keys)
    ensures TreesOk(R.Version(0, pages), multiset{}, [], [Some(catalog)])
  {
    hide WellFormed, PagesIn, RefsIn;
    ForestSnoc([], Some(catalog));
    assert [] + [Some(catalog)] == [Some(catalog)];
    assert PagesOfForest([]) == multiset{} && RefsOfForest([]) == multiset{};
  }

  // ---------- runs ----------

  ghost predicate IsRun(ds: seq<Database>, steps: seq<Step>) {
    && |ds| == |steps| + 1
    && (exists images, pages, catalog, next :: Founds(images, pages, catalog, next) && ds[0] == Created(images, pages, catalog, next))
    && forall i :: 0 <= i < |steps| ==> Takes(ds[i], steps[i], ds[i + 1])
  }

  /**
   * In every state of every run of a created database, the history is one that the crash model
   * accepts; every tree is well formed on the current version's pages, each of which belongs to
   * exactly one tree; ready pages are out of every reader's reach; and each count of the registry
   * is the number of cells that name the extent.
   */
  lemma {:induction false} DatabaseStaysSound(ds: seq<Database>, steps: seq<Step>, i: nat)
    requires IsRun(ds, steps) && i < |ds|
    ensures Ok(ds[i]) && Valid(ds[i].h)
    ensures TreesOk(ds[i].rs.current, ds[i].ps.now.cells, ds[i].stores, ds[i].system)
    ensures forall p :: p in ds[i].rs.pool.ready ==> R.Unreachable(ds[i].rs, p)
    ensures PR.Exact(ds[i].ps.now)
    decreases i
  {
    hide Ok, Takes, Founds, TreesOk, Valid;
    if i == 0 {
      var images, pages, catalog, next :| Founds(images, pages, catalog, next) && ds[0] == Created(images, pages, catalog, next);
      var c := N.Founding(images, catalog.id, next);
      CreatedIsOk(images, pages, catalog, next, N.Disk(N.Target(c), N.Holding([Some(C.Publishing(c, 1, 0)), None])));
    } else {
      DatabaseStaysSound(ds, steps, i - 1);
      StepKeeps(ds[i - 1], steps[i - 1], ds[i]);
    }
    OkFacts(ds[i]);
  }

  lemma {:induction false} OkFacts(d: Database)
    requires Ok(d)
    ensures Valid(d.h) && TreesOk(d.rs.current, d.ps.now.cells, d.stores, d.system) && PR.Exact(d.ps.now)
    ensures forall p :: p in d.rs.pool.ready ==> R.Unreachable(d.rs, p)
  {
    hide Valid, L.Linked, TreesOk, PR.ReaderOk, PR.Intact, PayloadRegistration.Indexed, PR.Separate, PendingOk, PR.Exact, R.Unreachable;
  }

  /** Commits are only ever added. */
  lemma {:induction false} HistoryGrows(ds: seq<Database>, steps: seq<Step>, i: nat, j: nat)
    requires IsRun(ds, steps) && i <= j < |ds|
    ensures ds[i].h <= ds[j].h
    decreases j
  {
    hide Ok, Takes, Founds, TreesOk, Valid, PR.Exact, R.Unreachable;
    if i < j {
      HistoryGrows(ds, steps, i, j - 1);
      DatabaseStaysSound(ds, steps, j - 1);
      StepKeeps(ds[j - 1], steps[j - 1], ds[j]);
    }
  }

  /**
   * The history of every database run is also that of a run of the crash model, from the files
   * that creation leaves, so that what holds of the crash model's runs holds of these commits.
   */
  lemma {:induction false} HistoryIsReached(ds: seq<Database>, steps: seq<Step>, i: nat) returns (r: CrashRuns.Run)
    requires IsRun(ds, steps) && i < |ds|
    ensures CrashRuns.Stepwise(r) && C.Init(r.states[0]) && r.states[0].hist == ds[0].h
    ensures var s := CrashReopen.Final(r); s.mode.Healthy? && s.hist == ds[i].h && (|s.hist| > 1 ==> s.acked == |s.hist|)
  {
    hide Ok, Takes, Founds, TreesOk, Valid, PR.Exact, R.Unreachable, C.Init, N.Target, CrashRuns.Stepwise;
    var images, pages, catalog, next :| Founds(images, pages, catalog, next) && ds[0] == Created(images, pages, catalog, next);
    var c := N.Founding(images, catalog.id, next);
    var disk := N.Disk(N.Target(c), N.Holding([Some(C.Publishing(c, 1, 0)), None]));
    CreatedIsOk(images, pages, catalog, next, disk);
    HistoryGrows(ds, steps, 0, i);
    DatabaseStaysSound(ds, steps, i);
    assert ds[i].h[..1] == ds[0].h;
    r := CrashReach.EveryHistoryIsReached(N.Started(disk, c), ds[i].h);
  }

  // ---------- planning and logging are always possible ----------

  /** After any run, what `PlanCommit` demands of the trees and of both schemes holds, for any choice of trees to change. */
  lemma {:induction false} PlannerIsReady(d: Database, m: R.State, ts: seq<Option<Tree>>, kept: seq<Option<Tree>>, plain: seq<Option<Tree>>, rest: seq<Option<Tree>>, txid: nat, oldest: nat)
    requires Ok(d) && R.Promotes(d.rs, m) && d.stores == ts + kept && d.system == plain + rest
    requires txid > m.current.txid && R.IsOldest(m, oldest)
    ensures Ready(m, d.ps, ts, plain, txid, oldest)
    ensures forall t :: t in ts || t in plain ==> WellFormed(m.view, RootOf(t), t)
  {
    hide R.Inv, PR.Inv, WellFormed, PagesIn, PagesOfForest, RefsOfForest, R.Promotes, R.IsOldest, Valid, PR.Good, Touches, L.InExtent, L.InLiveExtent;
    PromotedFits(d.h, d.rs, m, d.ps.now, d.stores, d.system);
    assert PR.Good(d.ps.now);
    OldestFor(m, d.ps, oldest) by { assert Aligned(m, d.ps); }
    PagesJoinForest(ts, kept);
    PagesJoinForest(plain, rest);
    PagesJoinForest(ts, plain);
    RefsJoinForest(ts, kept);
    RefsJoinForest(plain, rest);
    NoSum(RefsOfForest(plain), RefsOfForest(rest));
    forall x ensures PagesOfForest(ts + plain)[x] <= 1 && (x in PagesOfForest(ts + plain) ==> x in m.current.pages && x > 0) {
      assert (PagesOfForest(d.stores) + PagesOfForest(d.system))[x] == if x in m.current.pages then 1 else 0;
    }
    NextPositive(d.h, m, d.ps.now);
    forall t | t in ts || t in plain ensures WellFormed(m.view, RootOf(t), t) {
      assert t in d.stores || t in d.system;
      TreeInView(m, d.ps.now.cells, d.stores, d.system, t);
    }
  }

  lemma {:induction false} OldestFor(m: R.State, ps: PR.State, oldest: nat)
    requires R.IsOldest(m, oldest) && Aligned(m, ps) && m.current.txid == ps.now.txid
    ensures PR.IsOldest(ps, oldest)
  {
  }

  lemma {:induction false} NextPositive(h: Chronicle, rs: R.State, now: PR.Committed)
    requires Valid(h) && L.Linked(h, rs, now)
    ensures rs.next > 0
  {
    hide Valid, Touches, L.InExtent, L.InLiveExtent;
    CrashProof.RootInRange(h, |h| - 1);
  }

  lemma {:induction false} TreeInView(m: R.State, cells: multiset<PayloadRef>, stores: seq<Option<Tree>>, system: seq<Option<Tree>>, t: Option<Tree>)
    requires R.Inv(m) && TreesOk(m.current, cells, stores, system) && (t in stores || t in system)
    ensures WellFormed(m.view, RootOf(t), t)
  {
    hide WellFormed, PagesIn, PagesOfForest, RefsOfForest, R.Bounded, R.Disjoint, R.Unreachable, R.OnlyOlderReach;
    forall x | x in PagesIn(t) ensures x in m.current.pages {
      if t in stores {
        MemberPages(stores, t, x);
      } else {
        MemberPages(system, t, x);
      }
      assert (PagesOfForest(stores) + PagesOfForest(system))[x] > 0;
    }
    TreeMoves(m.current.pages, m.view, RootOf(t), t);
  }

  /** A body that planning may write, the crash model lets the engine write. */
  lemma {:induction false} BodyMayBeWritten(d: Database, writes: Writes, p: PageId, s: C.State)
    requires Ok(d) && PR.PlannedWrites(d.ps, writes) && L.InWrites(writes, p) && s.hist == d.h && s.mode.Healthy?
    ensures !C.InUse(s, p)
  {
    hide R.Inv, PR.Inv, PR.PlannedWrites, L.InWrites, TreesOk, Valid, L.Linked, PR.Good, C.InUse, PendingOk;
    L.WritesNotReached(d.h, d.rs, d.ps, writes, p);
  }

  /** A planned commit whose bodies are written and flushed may be appended to the log. */
  lemma {:induction false} CommitMayBegin(d: Database, m: R.State, w: Work, s: C.State)
    requires Ok(d) && R.Promotes(d.rs, m) && Works(m, d.ps, d.stores, d.system, w)
    requires s.hist == d.h && s.mode.Healthy?
    requires forall p :: p in w.commit.bodies ==> p in s.main && s.main[p] == w.commit.bodies[p] && p !in s.loose
    ensures C.Takes(s, C.BeginAppend(w.commit), s.(mode := C.Appending(w.commit), pending := Some(w.commit), torn := true))
  {
    hide Core, R.Inv, PR.Inv, Works, R.Promotes, Extends, R.Installed, PendingOk;
    PromotedFits(d.h, d.rs, m, d.ps.now, d.stores, d.system);
    CommitFits(d.h, m, d.ps, d.stores, d.system, w);
    SameTxid(d.h, d.rs, d.ps.now, d.stores, d.system);
  }

  // ---------- building the first catalog ----------

  lemma {:induction false} Founded(images: seq<Image>, pages: map<PageId, Page>, catalog: Tree, next: PageId)
    requires WellFormed(pages, catalog.id, Some(catalog)) && RefsIn(Some(catalog)) == multiset{}
    requires PagesIn(Some(catalog)) == multiset(pages.Keys)
    requires forall p :: p in pages ==> 0 < p < next
    requires forall p :: p in pages <==> exists i :: 0 <= i < |images| && images[i].page == p
    ensures Founds(images, pages, catalog, next)
  {
    hide WellFormed, RefsIn, PagesIn;
  }

  /** Builds the catalog of a new database over an allocator that starts at page 1; sorted rows of moderate size never fail. */
  method BuildCatalog(entries: seq<Mutation>) returns (ok: bool, root: PageId, pages: map<PageId, Page>, next: PageId, ghost catalog: Tree)
    requires AllStorable(entries) && RefsGiven(entries) == []
    ensures !ok ==> !MutationsSorted(entries) || !MutationsFit(entries) || !RoomFor(Override(map[], entries), 0)
    ensures ok ==> root == catalog.id && Denoted(Some(catalog)) == Override(map[], entries)
    ensures ok ==> forall images: seq<Image> ::
                     (forall p :: p in pages <==> exists i :: 0 <= i < |images| && images[i].page == p) ==> Founds(images, pages, catalog, next)
  {
    hide WellFormed, PagesIn, RefsIn, Denoted, RefsGiven, Founds, MutationsSorted, MutationsFit, RoomFor, Override;
    var alloc := new PageAllocator.WithReusable(1, []);
    var built;
    built, catalog := BuildTree(entries, alloc);
    if built.Err? {
      return false, 0, map[], 0, catalog;
    }
    root, pages, next := built.value.root, built.value.images, alloc.nextPageId;
    RootIs(pages, root, Some(catalog));
    forall images: seq<Image> | (forall p :: p in pages <==> exists i :: 0 <= i < |images| && images[i].page == p) ensures Founds(images, pages, catalog, next) {
      Founded(images, pages, catalog, next);
    }
    return true, root, pages, next, catalog;
  }
}
