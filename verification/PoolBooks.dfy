/** The pool of free pages loses none: what commits give up comes back once nobody can read it. */
module PoolBooks {
  import opened Pages
  import opened FreePages
  import R = Reclaim

  /** Every page of the pool, ready or retired, with multiplicity. */
  ghost function PoolPages(pool: Pool): multiset<PageId> {
    multiset(pool.ready) + multiset(PagesIn(pool.retired))
  }

  ghost predicate Pooled(pool: Pool, p: PageId) {
    p in pool.ready || exists i :: 0 <= i < |pool.retired| && p in pool.retired[i].pages
  }

  /** Ready, or waiting for no reader but those older than `txid`. */
  ghost predicate Waits(pool: Pool, p: PageId, txid: nat) {
    p in pool.ready || exists i :: 0 <= i < |pool.retired| && pool.retired[i].txid <= txid && p in pool.retired[i].pages
  }

  /** Batches lie in the order of their commits. */
  ghost predicate ByAge(pool: Pool) {
    forall i, j :: 0 <= i < j < |pool.retired| ==> pool.retired[i].txid < pool.retired[j].txid
  }

  lemma {:induction false} InPoolPages(pool: Pool, p: PageId)
    ensures p in PoolPages(pool) <==> Pooled(pool, p)
  {
    hide PagesIn;
    R.InPagesIn(pool.retired, p);
  }

  // ---------- promotion ----------

  lemma {:induction false} PromotionKeepsPages(pool: Pool, oldest: nat)
    ensures PoolPages(Promoted(pool, oldest)) == PoolPages(pool)
  {
    hide Promoted, PagesIn;
    R.PromotionMoves(pool, oldest);
    var after := Promoted(pool, oldest);
    assert multiset(after.ready + PagesIn(after.retired)) == multiset(pool.ready + PagesIn(pool.retired));
  }

  /** A promotion makes every batch ready that no reader is older than. */
  lemma {:induction false} Ripens(pool: Pool, oldest: nat, p: PageId)
    requires ByAge(pool) && Waits(pool, p, oldest)
    ensures p in Promoted(pool, oldest).ready
  {
    hide PagesIn;
    var n := Ripe(pool.retired, oldest);
    if p !in pool.ready {
      var i :| 0 <= i < |pool.retired| && pool.retired[i].txid <= oldest && p in pool.retired[i].pages;
      assert i < n by {
        assert n < |pool.retired| ==> pool.retired[n].txid > oldest;
      }
      assert pool.retired[..n][i] == pool.retired[i];
      R.InPagesIn(pool.retired[..n], p);
    }
  }

  lemma {:induction false} PromotionKeepsWaiting(pool: Pool, oldest: nat, p: PageId, txid: nat)
    requires Waits(pool, p, txid)
    ensures Waits(Promoted(pool, oldest), p, txid)
  {
    hide PagesIn;
    var n := Ripe(pool.retired, oldest);
    if p !in pool.ready {
      var i :| 0 <= i < |pool.retired| && pool.retired[i].txid <= txid && p in pool.retired[i].pages;
      if i < n {
        assert pool.retired[..n][i] == pool.retired[i];
        R.InPagesIn(pool.retired[..n], p);
      } else {
        assert Promoted(pool, oldest).retired[i - n] == pool.retired[i];
      }
    }
  }

  lemma {:induction false} PromotionKeepsAge(pool: Pool, oldest: nat)
    requires ByAge(pool)
    ensures ByAge(Promoted(pool, oldest))
  {
    hide PagesIn;
  }

  lemma {:induction false} PromotedPool(s: R.State, s': R.State) returns (oldest: nat)
    requires R.Promotes(s, s')
    ensures R.IsOldest(s, oldest) && s'.pool == Promoted(s.pool, oldest)
  {
    hide R.IsOldest, R.ChangedOnly, PagesIn, Promoted, Ripe;
    oldest :| R.IsOldest(s, oldest) && s' == s.(pool := Promoted(s.pool, oldest), view := s'.view)
      && R.ChangedOnly(s.view, s'.view, PagesIn(s.pool.retired[..Ripe(s.pool.retired, oldest)]));
  }

  // ---------- a published plan ----------

  /** The books of a published plan: the handed-out pages left, the unused and the freed ones came. */
  lemma {:induction false} InstallBooks(m: R.State, plan: R.Plan)
    ensures PoolPages(R.Installed(m, plan).pool) + multiset(m.pool.ready) == PoolPages(m.pool) + multiset(plan.unused) + multiset(plan.freed)
  {
    hide PagesIn;
    var after := R.Installed(m, plan).pool;
    if plan.freed == [] {
      assert multiset(plan.freed) == multiset{};
    } else {
      PagesInSnoc(m.pool.retired, Batch(plan.txid, plan.freed, plan.dirty));
    }
    assert after.ready == plan.unused;
  }

  /** Each freed page waits for exactly the readers older than the commit. */
  lemma {:induction false} InstallWaits(m: R.State, plan: R.Plan, p: PageId)
    requires p in plan.freed || p in plan.unused
    ensures Waits(R.Installed(m, plan).pool, p, plan.txid)
  {
    var after := R.Installed(m, plan).pool;
    if p !in plan.unused {
      assert after.retired[|m.pool.retired|].pages == plan.freed && after.retired[|m.pool.retired|].txid == plan.txid;
    }
  }

  /** No page of the pool is forgotten by a plan. */
  lemma {:induction false} InstallKeepsWaiting(m: R.State, plan: R.Plan, p: PageId, txid: nat)
    requires R.PlannedFrom(m, m.pool.ready, plan) && Waits(m.pool, p, txid) && p !in plan.images
    ensures Waits(R.Installed(m, plan).pool, p, txid)
  {
    var after := R.Installed(m, plan).pool;
    if p !in m.pool.ready {
      var i :| 0 <= i < |m.pool.retired| && m.pool.retired[i].txid <= txid && p in m.pool.retired[i].pages;
      assert after.retired[i] == m.pool.retired[i];
    }
  }

  lemma {:induction false} InstallKeepsAge(m: R.State, plan: R.Plan)
    requires R.Inv(m) && R.PlannedFrom(m, m.pool.ready, plan) && ByAge(m.pool)
    ensures ByAge(R.Installed(m, plan).pool)
  {
    hide R.Bounded, R.Disjoint, R.Unreachable, R.OnlyOlderReach, R.Holds;
  }

  lemma {:induction false} PooledWaits(pool: Pool, p: PageId)
    ensures Pooled(pool, p) <==> exists txid :: Waits(pool, p, txid)
  {
    if Pooled(pool, p) {
      if p in pool.ready {
        assert Waits(pool, p, 0);
      } else {
        var i :| 0 <= i < |pool.retired| && p in pool.retired[i].pages;
        assert Waits(pool, p, pool.retired[i].txid);
      }
    }
  }

  // ---------- steps and runs ----------

  /** Steps that give pages up for good: a failure with unknown outcome, and the recovery from one. */
  predicate Forgets(step: R.Step) {
    step.FailLogging? || step.Recover?
  }

  lemma {:induction false} StepKeepsAge(s: R.State, step: R.Step, s': R.State)
    requires R.Inv(s) && R.Takes(s, step, s') && ByAge(s.pool)
    ensures ByAge(s'.pool)
  {
    hide R.Inv, R.Promotes, R.PlannedFrom, R.Installed, Promoted;
    match step
    case Begin(tx) =>
    case Finish(tx) =>
    case Promote =>
      var oldest := PromotedPool(s, s');
      PromotionKeepsAge(s.pool, oldest);
    case FailPlan =>
      var m :| R.Promotes(s, m) && s' == m.(pool := Pool([] + m.pool.ready, m.pool.retired));
      var oldest := PromotedPool(s, m);
      PromotionKeepsAge(s.pool, oldest);
    case Commit(plan) =>
      var m :| R.Promotes(s, m) && R.PlannedFrom(m, m.pool.ready, plan) && R.Promotes(R.Installed(m, plan), s');
      var oldest := PromotedPool(s, m);
      PromotionKeepsAge(s.pool, oldest);
      R.PromoteKeeps(s, m);
      InstallKeepsAge(m, plan);
      var later := PromotedPool(R.Installed(m, plan), s');
      PromotionKeepsAge(R.Installed(m, plan).pool, later);
    case FailBeforeLog =>
      var m :| R.Promotes(s, m) && s' == m.(pool := Pool([] + m.pool.ready, m.pool.retired));
      var oldest := PromotedPool(s, m);
      PromotionKeepsAge(s.pool, oldest);
    case FailLogging =>
      var m :| R.Promotes(s, m) && s' == m.(pool := Pool([], m.pool.retired), health := R.Poisoned);
      var oldest := PromotedPool(s, m);
      PromotionKeepsAge(s.pool, oldest);
    case Recover(recovered, view', next') =>
  }

  /** A page waiting in the pool leaves it only as an image of a commit. */
  lemma {:induction false} StepKeepsWaiting(s: R.State, step: R.Step, s': R.State, p: PageId, txid: nat)
    requires R.Takes(s, step, s') && !Forgets(step) && Waits(s.pool, p, txid)
    ensures Waits(s'.pool, p, txid) || (step.Commit? && p in step.plan.images)
  {
    hide R.Promotes, R.PlannedFrom, R.Installed, Promoted, Waits;
    match step
    case Begin(tx) =>
    case Finish(tx) =>
    case Promote =>
      var oldest := PromotedPool(s, s');
      PromotionKeepsWaiting(s.pool, oldest, p, txid);
    case FailPlan =>
      var m :| R.Promotes(s, m) && s' == m.(pool := Pool([] + m.pool.ready, m.pool.retired));
      var oldest := PromotedPool(s, m);
      PromotionKeepsWaiting(s.pool, oldest, p, txid);
      assert [] + m.pool.ready == m.pool.ready;
    case Commit(plan) =>
      var m :| R.Promotes(s, m) && R.PlannedFrom(m, m.pool.ready, plan) && R.Promotes(R.Installed(m, plan), s');
      var oldest := PromotedPool(s, m);
      PromotionKeepsWaiting(s.pool, oldest, p, txid);
      if p !in plan.images {
        InstallKeepsWaiting(m, plan, p, txid);
        var later := PromotedPool(R.Installed(m, plan), s');
        PromotionKeepsWaiting(R.Installed(m, plan).pool, later, p, txid);
      }
    case FailBeforeLog =>
      var m :| R.Promotes(s, m) && s' == m.(pool := Pool([] + m.pool.ready, m.pool.retired));
      var oldest := PromotedPool(s, m);
      PromotionKeepsWaiting(s.pool, oldest, p, txid);
      assert [] + m.pool.ready == m.pool.ready;
  }

  /** What a commit gives up or does not use is in the pool afterwards, waiting for older readers at most. */
  lemma {:induction false} CommitPools(s: R.State, plan: R.Plan, s': R.State, p: PageId)
    requires R.Takes(s, R.Commit(plan), s') && (p in plan.freed || p in plan.unused)
    ensures Waits(s'.pool, p, plan.txid)
  {
    hide R.Promotes, R.PlannedFrom, R.Installed, Promoted, Waits;
    var m :| R.Promotes(s, m) && R.PlannedFrom(m, m.pool.ready, plan) && R.Promotes(R.Installed(m, plan), s');
    InstallWaits(m, plan, p);
    var later := PromotedPool(R.Installed(m, plan), s');
    PromotionKeepsWaiting(R.Installed(m, plan).pool, later, p, plan.txid);
  }

  /** A page of the pool stays there, through everything but failures of the log, until a commit writes it. */
  lemma {:induction false} PagesStay(states: seq<R.State>, steps: seq<R.Step>, i: nat, j: nat, p: PageId, txid: nat)
    requires R.IsRun(states, steps) && i <= j < |states| && Waits(states[i].pool, p, txid)
    requires forall k :: i <= k < j ==> !Forgets(steps[k])
    ensures Waits(states[j].pool, p, txid) || exists k :: i <= k < j && steps[k].Commit? && p in steps[k].plan.images
    decreases j
  {
    hide R.Inv, R.Takes, Waits;
    if i < j {
      PagesStay(states, steps, i, j - 1, p, txid);
      if Waits(states[j - 1].pool, p, txid) {
        StepKeepsWaiting(states[j - 1], steps[j - 1], states[j], p, txid);
      }
    }
  }

  lemma {:induction false} AlwaysByAge(states: seq<R.State>, steps: seq<R.Step>, i: nat)
    requires R.IsRun(states, steps) && i < |states|
    ensures ByAge(states[i].pool)
    decreases i
  {
    hide R.Inv, R.Takes;
    if i > 0 {
      AlwaysByAge(states, steps, i - 1);
      R.NoEarlyReuse(states, steps, i - 1);
      StepKeepsAge(states[i - 1], steps[i - 1], states[i]);
    }
  }

  /**
   * A page that a commit frees can be written again: however the run goes on, short of failures
   * of the log, the first promotion with no reader older than the commit makes it ready, if no
   * commit has written it by then.
   */
  lemma {:induction false} FreedComesBack(states: seq<R.State>, steps: seq<R.Step>, i: nat, j: nat, p: PageId, oldest: nat)
    requires R.IsRun(states, steps) && i < j < |states| && steps[i].Commit? && p in steps[i].plan.freed
    requires forall k :: i < k < j ==> !Forgets(steps[k]) && !(steps[k].Commit? && p in steps[k].plan.images)
    requires R.IsOldest(states[j], oldest) && oldest >= steps[i].plan.txid
    ensures p in Promoted(states[j].pool, oldest).ready
  {
    hide R.Inv, R.Takes, Waits, Promoted, R.IsOldest;
    var txid := steps[i].plan.txid;
    CommitPools(states[i], steps[i].plan, states[i + 1], p);
    PagesStay(states, steps, i + 1, j, p, txid);
    AlwaysByAge(states, steps, j);
    WaitsLonger(states[j].pool, p, txid, oldest);
    Ripens(states[j].pool, oldest, p);
  }

  lemma {:induction false} WaitsLonger(pool: Pool, p: PageId, txid: nat, later: nat)
    requires Waits(pool, p, txid) && txid <= later
    ensures Waits(pool, p, later)
  {
  }
}
