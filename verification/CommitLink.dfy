/** A planned commit is one that the crash model accepts: pages, extents and history fit together. */
module CommitLink {
  import opened Pages
  import opened WalScan
  import opened History
  import opened Crash
  import PayloadRegistration
  import PR = PayloadRuns
  import R = Reclaim

  ghost predicate InExtent(c: PR.Committed, p: PageId) {
    exists f :: f in c.entries && f <= p < f + c.entries[f].capacity
  }

  /** A page of an extent that some cell names. */
  ghost predicate InLiveExtent(c: PR.Committed, p: PageId) {
    exists f :: f in c.entries && c.entries[f].references > 0 && f <= p < f + c.entries[f].capacity
  }

  /** A page of an extent that a plan writes. */
  ghost predicate InWrites(writes: map<PageId, PR.BodyWrite>, p: PageId) {
    exists f :: f in writes && f <= p < f + writes[f].capacity
  }

  /**
   * The history and the reclamation schemes speak of the same files: the last commit reaches
   * the current tree pages and the referenced extents, logged pages are tree pages, and bodies
   * lie in known extents.
   */
  ghost predicate Linked(h: Chronicle, rs: R.State, now: PR.Committed) {
    && h != [] && rs.next == now.next && h[|h| - 1].tx.txid == rs.current.txid == now.txid && h[|h| - 1].tx.next == now.next
    && (forall p :: p in h[|h| - 1].reach <==> p in rs.current.pages || InLiveExtent(now, p))
    && (forall i, p :: 0 <= i < |h| && Touches(h[i].tx, p) ==> p in now.tree)
    && (forall i, p :: 0 <= i < |h| && p in h[i].bodies ==> InExtent(now, p))
    && (forall p :: p in rs.current.pages || p in rs.pool.ready ==> p in now.tree)
    && (forall i, p :: 0 <= i < |rs.pool.retired| && p in rs.pool.retired[i].pages ==> p in now.tree)
  }

  /** What the history records of a plan. */
  ghost predicate Records(commit: Commit, rs: R.State, plan: R.Plan, writes: map<PageId, PR.BodyWrite>, c: PR.Committed) {
    && commit.tx.txid == plan.txid == c.txid && commit.tx.next == c.next == plan.next
    && (forall p :: Touches(commit.tx, p) <==> p in plan.images)
    && (forall p :: p in commit.bodies <==> InWrites(writes, p))
    && (forall p :: p in commit.reach <==> p in R.Publishes(rs, plan).pages || InLiveExtent(c, p))
  }

  // ---------- extents through a plan ----------

  /** Extents stay, with their capacity, and a plan's bodies lie in extents. */
  lemma {:induction false} ExtentsStay(ps: PR.State, writes: map<PageId, PR.BodyWrite>, added: multiset<PayloadRef>, dropped: multiset<PayloadRef>, c: PR.Committed)
    requires PR.Good(ps.now) && PR.Plans(ps, writes, added, dropped, c)
    ensures forall p :: InExtent(ps.now, p) ==> InExtent(c, p)
    ensures forall p :: InWrites(writes, p) ==> InExtent(c, p)
    ensures forall p :: InLiveExtent(c, p) ==> InWrites(writes, p) || InLiveExtent(ps.now, p)
    ensures PR.Separate(c)
  {
    hide PR.Good, PR.PlannedWrites, PR.Counted, PR.Placed, PayloadRegistration.Indexed, PR.Separate, PayloadRegistration.Net;
    PR.PlanIsSeparate(ps, writes, added, dropped, c);
    forall p: PageId | InExtent(ps.now, p) ensures InExtent(c, p) {
      var f :| f in ps.now.entries && f <= p < f + ps.now.entries[f].capacity;
      SameCapacity(ps, writes, added, dropped, c, f);
    }
    forall p: PageId | InWrites(writes, p) ensures InExtent(c, p) {
      var f :| f in writes && f <= p < f + writes[f].capacity;
      WrittenCapacity(ps, writes, added, dropped, c, f);
    }
    forall p: PageId | InLiveExtent(c, p) ensures InWrites(writes, p) || InLiveExtent(ps.now, p) {
      var f :| f in c.entries && c.entries[f].references > 0 && f <= p < f + c.entries[f].capacity;
      PR.ExtentAfter(ps, writes, added, dropped, c, f);
      if f !in writes {
        assert ps.now.entries[f].references > 0;
      }
    }
  }

  lemma {:induction false} SameCapacity(ps: PR.State, writes: map<PageId, PR.BodyWrite>, added: multiset<PayloadRef>, dropped: multiset<PayloadRef>, c: PR.Committed, f: PageId)
    requires PR.Good(ps.now) && PR.Plans(ps, writes, added, dropped, c) && f in ps.now.entries
    ensures f in c.entries && c.entries[f].capacity == ps.now.entries[f].capacity
  {
    hide PR.Good, PR.PlannedWrites, PR.Counted, PR.Placed, PayloadRegistration.Indexed, PayloadRegistration.Net;
    PR.OldExtentsStay(ps, writes, added, dropped, c, f);
    PR.ExtentAfter(ps, writes, added, dropped, c, f);
    if f in writes {
      PR.WriteFacts(ps, writes, f);
    }
  }

  lemma {:induction false} WrittenCapacity(ps: PR.State, writes: map<PageId, PR.BodyWrite>, added: multiset<PayloadRef>, dropped: multiset<PayloadRef>, c: PR.Committed, f: PageId)
    requires PR.Plans(ps, writes, added, dropped, c) && f in writes
    ensures f in c.entries && c.entries[f].capacity == writes[f].capacity
  {
    hide PR.PlannedWrites, PR.Placed, PayloadRegistration.Indexed, PayloadRegistration.Net, PayloadRegistration.AllRecounted;
    PR.ExtentAfter(ps, writes, added, dropped, c, f);
  }

  lemma {:induction false} PlansWrites(ps: PR.State, writes: map<PageId, PR.BodyWrite>, added: multiset<PayloadRef>, dropped: multiset<PayloadRef>, c: PR.Committed)
    requires PR.Plans(ps, writes, added, dropped, c)
    ensures PR.PlannedWrites(ps, writes)
  {
    hide PR.PlannedWrites, PR.Counted, PR.Placed, PayloadRegistration.Indexed;
  }

  lemma {:induction false} LiveIsExtent(c: PR.Committed, p: PageId)
    ensures InLiveExtent(c, p) ==> InExtent(c, p)
  {
  }

  lemma {:induction false} WithinFile(c: PR.Committed, p: PageId)
    requires PR.Separate(c) && InExtent(c, p)
    ensures p < c.next
  {
  }

  lemma {:induction false} PublishedBelow(rs: R.State, plan: R.Plan, p: PageId)
    requires R.Inv(rs) && R.PlannedFrom(rs, rs.pool.ready, plan) && p in R.Publishes(rs, plan).pages
    ensures p < plan.next
  {
    hide R.Disjoint, R.Unreachable, R.OnlyOlderReach;
    assert p in plan.images || p in rs.current.pages;
  }

  /** Where planning may write a body, the last commit reaches nothing and no commit ever logged a page. */
  lemma {:induction false} WritesNotReached(h: Chronicle, rs: R.State, ps: PR.State, writes: map<PageId, PR.BodyWrite>, p: PageId)
    requires Linked(h, rs, ps.now) && PR.Good(ps.now) && PR.PlannedWrites(ps, writes) && InWrites(writes, p)
    ensures p !in h[|h| - 1].reach && forall i :: 0 <= i < |h| ==> !Touches(h[i].tx, p)
    ensures forall s: State :: s.hist == h ==> !InUse(s, p)
  {
    hide PR.Good, PR.PlannedWrites, Touches;
    PR.GoodIsSeparate(ps.now);
    var f :| f in writes && f <= p < f + writes[f].capacity;
    PR.WriteFacts(ps, writes, f);
    assert p !in ps.now.tree;
    WrittenIsDead(ps, writes, f);
    forall g | g in ps.now.entries && ps.now.entries[g].references > 0 ensures !(g <= p < g + ps.now.entries[g].capacity) {
      assert g != f;
      assert f in ps.now.entries ==> PR.Apart(f, ps.now.entries[f].capacity, g, ps.now.entries[g].capacity);
    }
  }

  lemma {:induction false} WrittenIsDead(ps: PR.State, writes: map<PageId, PR.BodyWrite>, f: PageId)
    requires PR.PlannedWrites(ps, writes) && f in writes
    ensures f in ps.now.entries ==> ps.now.entries[f].references == 0
  {
    var oldest :| PR.IsOldest(ps, oldest) && forall g :: g in writes ==> writes[g].reference.first == g && PR.Allowed(ps.now, oldest, writes[g]);
    assert PR.Allowed(ps.now, oldest, writes[f]);
  }

  // ---------- the commit ----------

  ghost predicate TreeOf(ps: PR.State, plan: R.Plan, c: PR.Committed) {
    forall p :: p in c.tree <==> p in ps.now.tree || p in plan.images || p in plan.unused
  }

  /** A planned commit may follow the history, as the crash model demands. */
  lemma {:induction false} PlannedExtends(h: Chronicle, rs: R.State, ps: PR.State, plan: R.Plan, writes: map<PageId, PR.BodyWrite>,
                                          added: multiset<PayloadRef>, dropped: multiset<PayloadRef>, c: PR.Committed, commit: Commit)
    requires Linked(h, rs, ps.now) && R.Inv(rs) && PR.Good(ps.now)
    requires R.PlannedFrom(rs, rs.pool.ready, plan) && PR.Plans(ps, writes, added, dropped, c) && TreeOf(ps, plan, c)
    requires Records(commit, rs, plan, writes, c) && TxValid(commit.tx)
    ensures Extends(h, commit)
    ensures forall p :: p in commit.bodies ==> p !in h[|h| - 1].reach
  {
    hide R.Inv, PR.Good, PR.Plans, TxValid, Touches, PR.Separate, InExtent, InLiveExtent, InWrites;
    ExtentsStay(ps, writes, added, dropped, c);
    PR.GoodIsSeparate(ps.now);
    var last := h[|h| - 1];
    forall p | p in plan.images ensures p in c.tree && p !in last.reach {
      R.ImagesAreFresh(rs, plan, p);
      ImageOutside(rs, ps.now, plan, p);
    }
    assert PR.PlannedWrites(ps, writes) by { PlansWrites(ps, writes, added, dropped, c); }
    forall p | p in commit.bodies ensures p !in plan.images && p !in last.reach && forall i :: 0 <= i < |h| ==> !Touches(h[i].tx, p) {
      WritesNotReached(h, rs, ps, writes, p);
      ExtentHoldsNoTree(c, p);
    }
    forall p | p in commit.reach || p in commit.bodies ensures p < commit.tx.next {
      if p in commit.bodies || p !in R.Publishes(rs, plan).pages {
        WithinFile(c, p) by { assert InExtent(c, p) by { LiveIsExtent(c, p); } }
      } else {
        PublishedBelow(rs, plan, p);
      }
    }
    forall i, p | 0 <= i < |h| && p in h[i].bodies ensures p !in plan.images {
      ExtentHoldsNoTree(c, p);
    }
    forall p | p in commit.reach ensures Touches(commit.tx, p) || p in commit.bodies || p in last.reach {
      if p !in R.Publishes(rs, plan).pages {
        assert InLiveExtent(c, p);
      }
    }
  }

  lemma {:induction false} ExtentHoldsNoTree(c: PR.Committed, p: PageId)
    requires PR.Separate(c) && InExtent(c, p)
    ensures p !in c.tree
  {
  }

  lemma {:induction false} ImageOutside(rs: R.State, now: PR.Committed, plan: R.Plan, p: PageId)
    requires PR.Separate(now) && rs.next == now.next && R.PlannedFrom(rs, rs.pool.ready, plan) && p in plan.images
    requires forall q :: q in rs.pool.ready ==> q in now.tree
    ensures !InLiveExtent(now, p)
  {
    assert R.Allocatable(rs.pool.ready, rs.next, p);
  }

  /** And once it is installed, the history and the reclamation schemes still fit together. */
  lemma {:induction false} PlannedStaysLinked(h: Chronicle, rs: R.State, ps: PR.State, plan: R.Plan, writes: map<PageId, PR.BodyWrite>,
                                              added: multiset<PayloadRef>, dropped: multiset<PayloadRef>, c: PR.Committed, commit: Commit)
    requires Linked(h, rs, ps.now) && PR.Good(ps.now)
    requires R.PlannedFrom(rs, rs.pool.ready, plan) && PR.Plans(ps, writes, added, dropped, c) && TreeOf(ps, plan, c)
    requires Records(commit, rs, plan, writes, c)
    ensures Linked(h + [commit], R.Installed(rs, plan), c)
  {
    hide PR.Good, PR.Plans, Touches, PR.Separate, InExtent, InLiveExtent, InWrites;
    ExtentsStay(ps, writes, added, dropped, c);
    var g, rs' := h + [commit], R.Installed(rs, plan);
    forall i, p | 0 <= i < |rs'.pool.retired| && p in rs'.pool.retired[i].pages ensures p in c.tree {
      if i < |rs.pool.retired| {
        assert rs'.pool.retired[i] == rs.pool.retired[i];
      } else {
        assert p in plan.freed;
      }
    }
    forall p | p in rs'.current.pages ensures p in c.tree {
      assert p in rs.current.pages || p in plan.images;
    }
  }
}
