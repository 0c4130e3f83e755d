/** Where every page id of a database is: in a tree, in the pool, or in a payload extent. */
module DatabaseSpace {
  import opened Pages
  import opened PoolBooks
  import opened CommitPlanning
  import opened DatabaseRuns
  import History
  import PayloadRegistration
  import WalScan
  import F = FreePages
  import L = CommitLink
  import PR = PayloadRuns
  import R = Reclaim

  ghost predicate Placed(rs: R.State, now: PR.Committed, p: PageId) {
    p in rs.current.pages || Pooled(rs.pool, p) || L.InExtent(now, p)
  }

  /** No id below the end of the file is lost. */
  ghost predicate Accounted(rs: R.State, now: PR.Committed) {
    forall p :: 0 < p < rs.next ==> Placed(rs, now, p)
  }

  predicate LosesIds(step: Step) {
    step.FailLogging? || step.Recover?
  }

  // ---------- extents ----------

  lemma {:induction false} SameCapacity(ps: PR.State, writes: Writes, f: PageId)
    requires PR.PlannedWrites(ps, writes) && f in writes && f in ps.now.entries && f < ps.now.next
    ensures writes[f].capacity == ps.now.entries[f].capacity
  {
    hide PR.IsOldest, PayloadRegistration.Retired;
    var oldest :| PR.IsOldest(ps, oldest) && forall f :: f in writes ==> writes[f].reference.first == f && PR.Allowed(ps.now, oldest, writes[f]);
    assert PR.Allowed(ps.now, oldest, writes[f]);
  }

  /** An extent keeps its place and size for good. */
  lemma {:induction false} ExtentsStay(ps: PR.State, writes: Writes, added: multiset<PayloadRef>, dropped: multiset<PayloadRef>, c: PR.Committed, p: PageId)
    requires PR.Plans(ps, writes, added, dropped, c) && L.InExtent(ps.now, p) && forall f :: f in ps.now.entries ==> f < ps.now.next
    ensures L.InExtent(c, p)
  {
    hide PayloadRegistration.Indexed, PR.Placed, PR.PlannedWrites;
    var f :| f in ps.now.entries && f <= p < f + ps.now.entries[f].capacity;
    if f in writes {
      SameCapacity(ps, writes, f);
    }
    assert f in PR.Registered(ps.now.entries, writes) && PR.Registered(ps.now.entries, writes)[f].capacity == ps.now.entries[f].capacity;
    assert c.entries[f].capacity == PR.Registered(ps.now.entries, writes)[f].capacity;
  }

  /** The pages of a new body are in its extent. */
  lemma {:induction false} BodiesPlaced(ps: PR.State, writes: Writes, added: multiset<PayloadRef>, dropped: multiset<PayloadRef>, c: PR.Committed, p: PageId)
    requires PR.Plans(ps, writes, added, dropped, c) && p in BodyPages(ps.now.entries, writes)
    ensures L.InExtent(c, p)
  {
    hide PayloadRegistration.Indexed, PR.Placed, PR.PlannedWrites;
    var f :| f in writes && f !in ps.now.entries && Within(f, writes[f].capacity, p);
    assert f in PR.Registered(ps.now.entries, writes) && PR.Registered(ps.now.entries, writes)[f].capacity == writes[f].capacity;
    assert c.entries[f].capacity == PR.Registered(ps.now.entries, writes)[f].capacity;
  }

  // ---------- one step ----------

  lemma {:induction false} PromotionPlaces(rs: R.State, rs': R.State, now: PR.Committed)
    requires R.Promotes(rs, rs') && Accounted(rs, now)
    ensures Accounted(rs', now)
  {
    hide L.InExtent, Pooled, F.Promoted, R.IsOldest, R.ChangedOnly, F.PagesIn, F.Ripe;
    var oldest := PromotedPool(rs, rs');
    forall p | 0 < p < rs'.next ensures Placed(rs', now, p) {
      assert Placed(rs, now, p);
      SamePool(rs.pool, oldest, p);
    }
  }

  lemma {:induction false} SamePool(pool: F.Pool, oldest: nat, p: PageId)
    ensures Pooled(F.Promoted(pool, oldest), p) <==> Pooled(pool, p)
  {
    hide Pooled, F.Promoted, PoolPages;
    PromotionKeepsPages(pool, oldest);
    InPoolPages(pool, p);
    InPoolPages(F.Promoted(pool, oldest), p);
  }

  lemma {:induction false} PlanFacts(m: R.State, ps: PR.State, d: Database, w: Work)
    requires Works(m, ps, d.stores, d.system, w)
    ensures R.PlannedFrom(m, m.pool.ready, w.plan) && PR.Plans(ps, w.writes, w.added, w.dropped, w.c) && w.c.next == w.plan.next
    ensures forall p :: m.next <= p < w.plan.next ==> p in w.plan.images || p in w.plan.unused || p in BodyPages(ps.now.entries, w.writes)
  {
    hide R.PlannedFrom, PR.Plans, Untouched, L.Records, BodyPages;
  }

  lemma {:induction false} InstallPlaces(m: R.State, ps: PR.State, d: Database, w: Work)
    requires Works(m, ps, d.stores, d.system, w) && Accounted(m, ps.now) && forall f :: f in ps.now.entries ==> f < ps.now.next
    ensures Accounted(R.Installed(m, w.plan), w.c)
  {
    hide Works, PR.Plans, L.InExtent, Pooled, BodyPages, R.PlannedFrom, Waits;
    PlanFacts(m, ps, d, w);
    var after := R.Installed(m, w.plan);
    forall p | 0 < p < after.next ensures Placed(after, w.c, p) {
      PooledWaits(after.pool, p);
      if p in w.plan.freed || p in w.plan.unused {
        InstallWaits(m, w.plan, p);
      } else if p < m.next {
        assert Placed(m, ps.now, p);
        if L.InExtent(ps.now, p) {
          ExtentsStay(ps, w.writes, w.added, w.dropped, w.c, p);
        } else if Pooled(m.pool, p) && p !in w.plan.images {
          PooledWaits(m.pool, p);
          var t :| Waits(m.pool, p, t);
          InstallKeepsWaiting(m, w.plan, p, t);
        }
      } else if p !in w.plan.images {
        BodiesPlaced(ps, w.writes, w.added, w.dropped, w.c, p);
      }
    }
  }

  /** Apart from failures with unknown outcome, no step loses an id. */
  lemma {:induction false} StepPlaces(d: Database, step: Step, d': Database)
    requires Ok(d) && Takes(d, step, d') && !LosesIds(step) && Accounted(d.rs, d.ps.now)
    ensures Accounted(d'.rs, d'.ps.now)
  {
    hide Ok, R.Promotes, Works, PR.PlannedWrites, Accounted, R.Installed, Arranged, PR.Overwritten, NewStores, NewSystem, R.PlannedFrom;
    match step
    case Arrange =>
    case Begin(t) => SamePlaces(d.rs, d'.rs, d.ps.now);
    case Finish(t) => SamePlaces(d.rs, d'.rs, d.ps.now);
    case Promote => PromotionPlaces(d.rs, d'.rs, d.ps.now);
    case NoCommit(writes) =>
      var m :| R.Promotes(d.rs, m) && d'.rs == m.(pool := F.Pool([] + m.pool.ready, m.pool.retired));
      PromotionPlaces(d.rs, m, d.ps.now);
      assert [] + m.pool.ready == m.pool.ready;
    case Commit(m, w) =>
      PromotionPlaces(d.rs, m, d.ps.now);
      ExtentsInside(d);
      InstallPlaces(m, d.ps, d, w);
      PromotionPlaces(R.Installed(m, w.plan), d'.rs, w.c);
  }

  lemma {:induction false} SamePlaces(rs: R.State, rs': R.State, now: PR.Committed)
    requires Accounted(rs, now) && rs'.current == rs.current && rs'.pool == rs.pool && rs'.next == rs.next
    ensures Accounted(rs', now)
  {
    hide L.InExtent, Pooled;
    forall p | 0 < p < rs'.next ensures Placed(rs', now, p) {
      assert Placed(rs, now, p);
    }
  }

  lemma {:induction false} ExtentsInside(d: Database)
    requires Ok(d)
    ensures forall f :: f in d.ps.now.entries ==> f < d.ps.now.next
  {
    hide Core, R.Inv, PendingOk, L.Linked, PayloadRegistration.Indexed;
    assert PR.Good(d.ps.now) by { CoreGood(d); }
  }

  lemma {:induction false} CoreGood(d: Database)
    requires Ok(d)
    ensures PR.Good(d.ps.now)
  {
    hide PR.Good, R.Inv, PR.Inv, PendingOk, L.Linked, TreesOk;
  }

  // ---------- recovery ----------

  /** Every id is in one place at most. */
  lemma {:induction false} OnePlace(d: Database, p: PageId)
    requires Ok(d)
    ensures Pooled(d.rs.pool, p) ==> 0 < p < d.rs.next && p !in d.rs.current.pages
    ensures Pooled(d.rs.pool, p) || p in d.rs.current.pages ==> !L.InExtent(d.ps.now, p)
  {
    hide PR.Inv, PendingOk, TreesOk, History.Valid, PR.Good, PR.Exact;
    assert PR.Separate(d.ps.now) by { CoreGood(d); SeparateGood(d.ps.now); }
  }

  lemma {:induction false} SeparateGood(now: PR.Committed)
    requires PR.Good(now)
    ensures PR.Separate(now)
  {
  }

  /** A recovery that adopts nothing loses exactly the ids of the pool, because it starts from an empty one. */
  lemma {:induction false} RecoveryLosesThePool(d: Database, d': Database)
    requires Ok(d) && Takes(d, Recover(false), d') && Accounted(d.rs, d.ps.now)
    ensures forall p :: 0 < p < d'.rs.next ==> (Placed(d'.rs, d'.ps.now, p) <==> !Pooled(d.rs.pool, p))
    ensures Accounted(d'.rs, d'.ps.now) <==> d.rs.pool.ready == [] && F.PagesIn(d.rs.pool.retired) == []
  {
    hide Ok, L.InExtent, PR.Inv;
    forall p | 0 < p < d'.rs.next ensures Placed(d'.rs, d'.ps.now, p) <==> !Pooled(d.rs.pool, p) {
      assert Placed(d.rs, d.ps.now, p);
      OnePlace(d, p);
    }
    if d.rs.pool.ready != [] {
      var p := d.rs.pool.ready[0];
      OnePlace(d, p);
      assert Pooled(d.rs.pool, p);
    } else if F.PagesIn(d.rs.pool.retired) != [] {
      var p := F.PagesIn(d.rs.pool.retired)[0];
      R.InPagesIn(d.rs.pool.retired, p);
      OnePlace(d, p);
      assert Pooled(d.rs.pool, p);
    } else {
      forall p | 0 < p < d'.rs.next ensures !Pooled(d.rs.pool, p) {
        R.InPagesIn(d.rs.pool.retired, p);
      }
    }
  }

  // ---------- runs ----------

  /**
   * Once every id of a database is accounted for, it stays so: through commits, failed plans,
   * snapshots and promotions each id below the end of the file is in a tree of the current
   * version, in the pool, or in a payload extent.
   */
  lemma {:induction false} NothingLeaks(ds: seq<Database>, steps: seq<Step>, i: nat, j: nat)
    requires IsRun(ds, steps) && i <= j < |ds| && Accounted(ds[i].rs, ds[i].ps.now)
    requires forall k :: i <= k < j ==> !LosesIds(steps[k])
    ensures Accounted(ds[j].rs, ds[j].ps.now)
    decreases j
  {
    hide Ok, Takes, Founds, Accounted, TreesOk, R.Unreachable, PR.Exact, History.Valid;
    if i < j {
      NothingLeaks(ds, steps, i, j - 1);
      DatabaseStaysSound(ds, steps, j - 1);
      StepPlaces(ds[j - 1], steps[j - 1], ds[j]);
    }
  }

  /** A new database whose catalog took every id there is starts that way. */
  lemma {:induction false} CreatedIsAccounted(images: seq<WalScan.Image>, pages: map<PageId, Page>, catalog: Tree, next: PageId)
    requires Founds(images, pages, catalog, next)
    ensures var d := Created(images, pages, catalog, next); Accounted(d.rs, d.ps.now) <==> forall p :: 0 < p < next ==> p in pages
  {
    hide Founds;
    var d := Created(images, pages, catalog, next);
    if Accounted(d.rs, d.ps.now) {
      forall p | 0 < p < next ensures p in pages {
        assert Placed(d.rs, d.ps.now, p);
      }
    }
  }
}
