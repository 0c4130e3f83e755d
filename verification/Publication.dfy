/** Committing over the pool of free pages, as steps of the reclamation scheme. */
module Publication {
  import opened Pages
  import opened FreePages
  import opened PoolBooks
  import R = Reclaim

  /** How publishing a plan ends: logged and visible, failed before the log was touched, or with an unknown outcome. */
  datatype Outcome = Visible | FailedBeforeLog | FailedLogging

  /** The step that a commit with this plan and outcome is. */
  function StepOf(planned: Option<R.Plan>, outcome: Outcome): R.Step {
    if planned.None? then R.FailPlan
    else
      match outcome
      case Visible => R.Commit(planned.value)
      case FailedBeforeLog => R.FailBeforeLog
      case FailedLogging => R.FailLogging
  }

  /** The state after ripe batches were promoted, dropping their staged images. */
  ghost function PromotedTo(s: R.State, oldest: nat, view: map<PageId, Page>): R.State {
    s.(pool := Promoted(s.pool, oldest), view := view)
  }

  ghost predicate Drops(s: R.State, oldest: nat, view: map<PageId, Page>) {
    R.IsOldest(s, oldest) && R.ChangedOnly(s.view, view, PagesIn(s.pool.retired[..Ripe(s.pool.retired, oldest)]))
  }

  lemma {:induction false} DropsPromotes(s: R.State, oldest: nat, view: map<PageId, Page>)
    requires Drops(s, oldest, view)
    ensures R.Promotes(s, PromotedTo(s, oldest, view))
  {
    hide R.IsOldest, R.ChangedOnly, PagesIn, Ripe;
  }

  /**
   * One commit: ripe pages are promoted and all ready ones handed to the planner. They come
   * back if planning fails or nothing was logged; otherwise the unused ones come back, the
   * freed ones retire, and a failure with unknown outcome leaves the engine without them.
   * `view` and `view'` are what the pager shows after the staged images of promoted pages are gone.
   */
  method CommitStaged(pool: FreePagePool, oldest: nat, oldest': nat, planned: Option<R.Plan>, outcome: Outcome,
                      ghost s: R.State, ghost view: map<PageId, Page>, ghost view': map<PageId, Page>) returns (ghost s': R.State)
    requires R.Inv(s) && s.health.Healthy? && pool.Contents() == s.pool && Drops(s, oldest, view)
    requires planned.Some? ==> var m := PromotedTo(s, oldest, view); R.PlannedFrom(m, m.pool.ready, planned.value)
    requires planned.Some? && outcome.Visible? ==> Drops(R.Installed(PromotedTo(s, oldest, view), planned.value), oldest', view')
    modifies pool
    ensures R.Takes(s, StepOf(planned, outcome), s') && R.Inv(s') && pool.Contents() == s'.pool
    // nothing is lost: a commit that does not happen leaves the pool's pages as they are, ...
    ensures planned.None? || outcome.FailedBeforeLog? ==> PoolPages(pool.Contents()) == PoolPages(old(pool.Contents()))
    // ... and one that does takes what it writes and adds what it frees, waiting for older readers at most
    ensures planned.Some? && outcome.Visible? ==> forall p :: Pooled(old(pool.Contents()), p) && p !in planned.value.images ==> Pooled(pool.Contents(), p)
    ensures planned.Some? && outcome.Visible? ==> forall p :: p in planned.value.freed || p in planned.value.unused ==> Waits(pool.Contents(), p, planned.value.txid)
    ensures planned.Some? && outcome.Visible? && oldest' >= planned.value.txid ==> forall p :: p in planned.value.freed ==> p in pool.ready
    ensures planned.Some? && outcome.Visible? ==> forall p :: Pooled(pool.Contents(), p) ==>
      Pooled(old(pool.Contents()), p) || p in planned.value.freed || p in planned.value.unused
  {
    hide R.Inv, R.Promotes, R.PlannedFrom, R.IsOldest, R.ChangedOnly, PagesIn, Ripe, Drops, PoolPages, Pooled, Waits, Promoted, R.Installed;
    ghost var m := PromotedTo(s, oldest, view);
    DropsPromotes(s, oldest, view);
    var discarded := pool.Promote(oldest);
    PromotionKeepsPages(s.pool, oldest);
    assert [] + m.pool.ready == m.pool.ready;
    var reusable := pool.TakeReady();
    if planned.None? {
      pool.Restore(reusable);
      s' := m.(pool := Pool([] + m.pool.ready, m.pool.retired));
    } else {
      var plan := planned.value;
      match outcome
      case Visible =>
        pool.Restore(plan.unused);
        pool.Retire(plan.txid, plan.freed, plan.dirty);
        ghost var installed := R.Installed(m, plan);
        assert pool.Contents() == installed.pool by { InstalledIs(m, plan); }
        DropsPromotes(installed, oldest', view');
        discarded := pool.Promote(oldest');
        s' := PromotedTo(installed, oldest', view');
        VisibleBooks(s, oldest, m, plan, oldest');
      case FailedBeforeLog =>
        pool.Restore(reusable);
        s' := m.(pool := Pool([] + m.pool.ready, m.pool.retired));
      case FailedLogging =>
        s' := m.(pool := Pool([], m.pool.retired), health := R.Poisoned);
    }
    assert R.Takes(s, StepOf(planned, outcome), s');
    R.StepKeeps(s, StepOf(planned, outcome), s');
  }

  lemma {:induction false} InstalledIs(m: R.State, plan: R.Plan)
    ensures R.Installed(m, plan).pool == Retiring(Pool([] + plan.unused, m.pool.retired), plan.txid, plan.freed, plan.dirty)
  {
  }

  /** Where every page is after a visible commit. */
  lemma {:induction false} VisibleBooks(s: R.State, oldest: nat, m: R.State, plan: R.Plan, oldest': nat)
    requires R.Inv(s) && m.pool == Promoted(s.pool, oldest) && m.current == s.current && R.PlannedFrom(m, m.pool.ready, plan)
    ensures var after := Promoted(R.Installed(m, plan).pool, oldest');
            && (forall p :: Pooled(s.pool, p) && p !in plan.images ==> Pooled(after, p))
            && (forall p :: p in plan.freed || p in plan.unused ==> Waits(after, p, plan.txid))
            && (oldest' >= plan.txid ==> forall p :: p in plan.freed ==> p in after.ready)
            && (forall p :: Pooled(after, p) ==> Pooled(s.pool, p) || p in plan.freed || p in plan.unused)
  {
    hide R.Inv, R.PlannedFrom, PoolPages, Pooled, Waits, Promoted, R.Installed;
    var installed := R.Installed(m, plan).pool;
    var after := Promoted(installed, oldest');
    forall p | Pooled(s.pool, p) && p !in plan.images ensures Pooled(after, p) {
      PooledWaits(s.pool, p);
      var t :| Waits(s.pool, p, t);
      PromotionKeepsWaiting(s.pool, oldest, p, t);
      InstallKeepsWaiting(m, plan, p, t);
      PromotionKeepsWaiting(installed, oldest', p, t);
      PooledWaits(after, p);
    }
    forall p | p in plan.freed || p in plan.unused ensures Waits(after, p, plan.txid) && (oldest' >= plan.txid ==> p in after.ready) {
      InstallWaits(m, plan, p);
      PromotionKeepsWaiting(installed, oldest', p, plan.txid);
      if oldest' >= plan.txid {
        assert s.current.txid < plan.txid by { PlanIsNewer(m, plan); }
        AllRipe(s, oldest, m, plan, oldest');
        WaitsReady(after, p);
      }
    }
    forall p | Pooled(after, p) ensures Pooled(s.pool, p) || p in plan.freed || p in plan.unused {
      InPoolPages(after, p);
      PromotionKeepsPages(installed, oldest');
      InstallBooks(m, plan);
      PromotionKeepsPages(s.pool, oldest);
      InPoolPages(s.pool, p);
      assert (PoolPages(installed) + multiset(m.pool.ready))[p] == (PoolPages(m.pool) + multiset(plan.unused) + multiset(plan.freed))[p];
    }
  }

  lemma {:induction false} PlanIsNewer(m: R.State, plan: R.Plan)
    requires R.PlannedFrom(m, m.pool.ready, plan)
    ensures m.current.txid < plan.txid
  {
  }

  /** Batches are never younger than the commit that is current. */
  lemma {:induction false} AllRipe(s: R.State, oldest: nat, m: R.State, plan: R.Plan, oldest': nat)
    requires R.Inv(s) && m.pool == Promoted(s.pool, oldest) && m.current == s.current && s.current.txid < plan.txid <= oldest'
    ensures Promoted(R.Installed(m, plan).pool, oldest').retired == []
  {
    hide R.Bounded, R.Disjoint, R.Unreachable, R.OnlyOlderReach, R.Holds, PagesIn;
    var retired := R.Installed(m, plan).pool.retired;
    forall i | 0 <= i < |retired| ensures retired[i].txid <= oldest' {
      if i < |m.pool.retired| {
        assert retired[i] == m.pool.retired[i] == s.pool.retired[i + Ripe(s.pool.retired, oldest)];
      }
    }
    RipeIs(retired, oldest', |retired|);
  }

  lemma {:induction false} WaitsReady(pool: Pool, p: PageId)
    requires pool.retired == [] && exists txid :: Waits(pool, p, txid)
    ensures p in pool.ready
  {
  }
}
