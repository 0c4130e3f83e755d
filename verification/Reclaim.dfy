/** Page reuse under snapshots, failed plans and failed publications, as a step system. */
module Reclaim {
  import opened Pages
  import opened FreePages

  /** A committed version: the pages its root reaches and what they hold. */
  datatype Version = Version(txid: nat, pages: map<PageId, Page>)

  datatype Health = Healthy | Poisoned

  /**
   * The engine as far as page reuse is concerned. `view` is what the pager returns for each
   * page, `next` the first page id never used, `readers` the open transactions' versions.
   */
  datatype State = State(
    current: Version, readers: map<nat, Version>, pool: Pool, next: PageId, view: map<PageId, Page>, health: Health)

  /** The oldest version an open transaction or the engine itself reads. */
  ghost predicate IsOldest(s: State, oldest: nat) {
    && oldest <= s.current.txid
    && (forall t :: t in s.readers ==> oldest <= s.readers[t].txid)
    && (oldest == s.current.txid || exists t :: t in s.readers && s.readers[t].txid == oldest)
  }

  /** Dropping staged images of promoted pages may change what those pages hold, and nothing else. */
  ghost predicate ChangedOnly(before: map<PageId, Page>, after: map<PageId, Page>, pages: seq<PageId>) {
    forall p :: p !in pages ==> (p in after <==> p in before) && (p in after ==> after[p] == before[p])
  }

  ghost predicate Promotes(s: State, s': State) {
    exists oldest ::
      && IsOldest(s, oldest)
      && s' == s.(pool := Promoted(s.pool, oldest), view := s'.view)
      && ChangedOnly(s.view, s'.view, PagesIn(s.pool.retired[..Ripe(s.pool.retired, oldest)]))
  }

  /** What planning produced: new page images, freed pages, unused ids and the new end of the file. */
  datatype Plan = Plan(txid: nat, images: map<PageId, Page>, freed: seq<PageId>, unused: seq<PageId>, dirty: seq<DirtyImage>, next: PageId)

  ghost predicate NoRepeats(ids: seq<PageId>) {
    forall i, j :: 0 <= i < j < |ids| ==> ids[i] != ids[j]
  }

  /** Ids an allocator over `reusable` and the end of the file may hand out. */
  ghost predicate Allocatable(reusable: seq<PageId>, next: PageId, p: PageId) {
    p in reusable || next <= p
  }

  /**
   * A plan made on the current version with an allocator over `reusable`: images take
   * allocated ids, freed pages belong to the current version, and unused ids, which can be
   * fresh ones that were taken and given back, hold no image. No reusable id is forgotten.
   */
  ghost predicate PlannedFrom(s: State, reusable: seq<PageId>, plan: Plan) {
    && s.current.txid < plan.txid
    && s.next <= plan.next
    && (forall p :: p in plan.images ==> Allocatable(reusable, s.next, p) && p < plan.next)
    && (forall p :: p in plan.freed ==> p in s.current.pages)
    && NoRepeats(plan.freed)
    && (forall p :: p in plan.unused ==> Allocatable(reusable, s.next, p) && p < plan.next && p !in plan.images)
    && NoRepeats(plan.unused)
    && (forall p :: p in reusable ==> p in plan.images || p in plan.unused)
  }

  /** The version a plan publishes: shared pages and the new images. */
  ghost function Publishes(s: State, plan: Plan): Version {
    Version(plan.txid, (s.current.pages - SetOf(plan.freed)) + plan.images)
  }

  function SetOf(ids: seq<PageId>): set<PageId> {
    set p | p in ids
  }

  datatype Step =
    | Begin(tx: nat)
    | Finish(tx: nat)
    | Promote
    | FailPlan
    | Commit(plan: Plan)
    | FailBeforeLog
    | FailLogging
    | Recover(recovered: Version, view': map<PageId, Page>, next': PageId)

  ghost predicate Takes(s: State, step: Step, s': State) {
    match step
    case Begin(tx) => s.health.Healthy? && tx !in s.readers && s' == s.(readers := s.readers[tx := s.current])
    case Finish(tx) => s' == s.(readers := s.readers - {tx})
    case Promote => s.health.Healthy? && Promotes(s, s')
    // the ready pages are handed to the planner, and handed back when it fails
    case FailPlan =>
      s.health.Healthy? && exists m :: Promotes(s, m) && s' == m.(pool := Pool([] + m.pool.ready, m.pool.retired))
    // the roots are published, then the unused pages return and the freed ones retire
    case Commit(plan) =>
      s.health.Healthy? && exists m ::
        && Promotes(s, m) && PlannedFrom(m, m.pool.ready, plan)
        && Promotes(Installed(m, plan), s')
    // an error before the first log write hands the ready pages back
    case FailBeforeLog =>
      s.health.Healthy? && exists m :: Promotes(s, m) && s' == m.(pool := Pool([] + m.pool.ready, m.pool.retired))
    // later errors leave the outcome unknown: the pages stay out of the pool
    case FailLogging =>
      s.health.Healthy? && exists m :: Promotes(s, m) && s' == m.(pool := Pool([], m.pool.retired), health := Poisoned)
    case Recover(recovered, view', next') =>
      && (forall p :: p in recovered.pages ==> p < next' && p in view' && view'[p] == recovered.pages[p])
      && s' == State(recovered, map[], Pool([], []), next', view', Healthy)
  }

  ghost function Installed(m: State, plan: Plan): State {
    m.(current := Publishes(m, plan), view := m.view + plan.images, next := plan.next,
       pool := Retiring(Pool([] + plan.unused, m.pool.retired), plan.txid, plan.freed, plan.dirty))
  }

  // ---------- the invariant ----------

  ghost predicate Holds(view: map<PageId, Page>, v: Version) {
    forall p :: p in v.pages ==> p in view && view[p] == v.pages[p]
  }

  /** No version that can still be read reaches `p`. */
  ghost predicate Unreachable(s: State, p: PageId) {
    p !in s.current.pages && forall t :: t in s.readers ==> p !in s.readers[t].pages
  }

  /** Only open versions older than `txid` reach `p`. */
  ghost predicate OnlyOlderReach(s: State, p: PageId, txid: nat) {
    p !in s.current.pages && forall t :: t in s.readers && p in s.readers[t].pages ==> s.readers[t].txid < txid
  }

  ghost predicate Bounded(s: State) {
    && (forall p :: p in s.current.pages ==> p < s.next)
    && (forall t, p :: t in s.readers && p in s.readers[t].pages ==> p < s.next)
    && (forall p :: p in s.pool.ready ==> p < s.next)
    && (forall i, p :: 0 <= i < |s.pool.retired| && p in s.pool.retired[i].pages ==> p < s.next)
  }

  /** No page is listed twice among the ready and retired pages. */
  ghost predicate Disjoint(pool: Pool) {
    NoRepeats(pool.ready + PagesIn(pool.retired))
  }

  ghost predicate Inv(s: State) {
    && Bounded(s)
    && Disjoint(s.pool)
    && (forall t :: t in s.readers ==> s.readers[t].txid <= s.current.txid)
    && (forall p :: p in s.pool.ready ==> Unreachable(s, p))
    && (forall i, p :: 0 <= i < |s.pool.retired| && p in s.pool.retired[i].pages ==> OnlyOlderReach(s, p, s.pool.retired[i].txid))
    && (forall i :: 0 <= i < |s.pool.retired| ==> s.pool.retired[i].txid <= s.current.txid)
    && Holds(s.view, s.current)
    && (forall t :: t in s.readers ==> Holds(s.view, s.readers[t]))
  }

  // ---------- sequences of pages ----------

  lemma {:induction false} InPagesIn(batches: seq<Batch>, p: PageId)
    ensures p in PagesIn(batches) <==> exists i :: 0 <= i < |batches| && p in batches[i].pages
    decreases |batches|
  {
    if batches != [] {
      InPagesIn(batches[1..], p);
      assert forall i :: 0 < i < |batches| ==> batches[i] == batches[1..][i - 1];
    }
  }

  lemma {:induction false} PagesInAppend(a: seq<Batch>, b: seq<Batch>)
    ensures PagesIn(a + b) == PagesIn(a) + PagesIn(b)
    decreases |a|
  {
    if a == [] {
      assert a + b == b;
    } else {
      assert (a + b)[1..] == a[1..] + b;
      PagesInAppend(a[1..], b);
    }
  }

  lemma {:induction false} PromotionMoves(pool: Pool, oldest: nat)
    ensures Promoted(pool, oldest).ready + PagesIn(Promoted(pool, oldest).retired) == pool.ready + PagesIn(pool.retired)
  {
    hide PagesIn, Ripe;
    var n := Ripe(pool.retired, oldest);
    assert pool.retired == pool.retired[..n] + pool.retired[n..];
    PagesInAppend(pool.retired[..n], pool.retired[n..]);
    Associates(pool.ready, PagesIn(pool.retired[..n]), PagesIn(pool.retired[n..]));
  }

  lemma {:induction false} Associates(a: seq<PageId>, b: seq<PageId>, c: seq<PageId>)
    ensures (a + b) + c == a + (b + c)
  {
  }

  // ---------- steps keep the invariant ----------

  /** A batch becomes reusable only when nothing readable reaches its pages. */
  lemma {:induction false} RipeIsUnreachable(s: State, oldest: nat, p: PageId)
    requires Inv(s) && IsOldest(s, oldest)
    requires p in PagesIn(s.pool.retired[..Ripe(s.pool.retired, oldest)])
    ensures Unreachable(s, p) && p < s.next
  {
    var ripe := s.pool.retired[..Ripe(s.pool.retired, oldest)];
    InPagesIn(ripe, p);
    var i :| 0 <= i < |ripe| && p in ripe[i].pages;
    assert ripe[i] == s.pool.retired[i];
    assert OnlyOlderReach(s, p, s.pool.retired[i].txid);
  }

  lemma {:induction false} PromoteKeeps(s: State, s': State)
    requires Inv(s) && Promotes(s, s')
    ensures Inv(s') && s'.current == s.current && s'.readers == s.readers && s'.next == s.next && s'.health == s.health
  {
    hide Inv, IsOldest, ChangedOnly, PagesIn, Ripe;
    var oldest :| IsOldest(s, oldest) && s' == s.(pool := Promoted(s.pool, oldest), view := s'.view)
      && ChangedOnly(s.view, s'.view, PagesIn(s.pool.retired[..Ripe(s.pool.retired, oldest)]));
    PromotedKeeps(s, s', oldest);
  }

  lemma {:induction false} PromotedKeeps(s: State, s': State, oldest: nat)
    requires Inv(s) && IsOldest(s, oldest) && s' == s.(pool := Promoted(s.pool, oldest), view := s'.view)
    requires ChangedOnly(s.view, s'.view, PagesIn(s.pool.retired[..Ripe(s.pool.retired, oldest)]))
    ensures Inv(s')
  {
    hide PagesIn, Ripe, IsOldest, NoRepeats;
    var n := Ripe(s.pool.retired, oldest);
    var ripe := PagesIn(s.pool.retired[..n]);
    PromotionMoves(s.pool, oldest);
    forall p | p in ripe ensures Unreachable(s, p) && p < s.next {
      RipeIsUnreachable(s, oldest, p);
    }
    forall p | p in s'.pool.ready ensures Unreachable(s', p) && p < s.next {
      assert p in s.pool.ready || p in ripe;
      assert Unreachable(s, p);
    }
    assert forall t :: t in s.readers ==> Holds(s.view, s.readers[t]);
    hide Disjoint;
    forall i, p | 0 <= i < |s'.pool.retired| && p in s'.pool.retired[i].pages ensures OnlyOlderReach(s', p, s'.pool.retired[i].txid) && p < s.next {
      assert s'.pool.retired[i] == s.pool.retired[n + i];
      assert OnlyOlderReach(s, p, s.pool.retired[n + i].txid);
    }
  }

  lemma {:induction false} BeginKeeps(s: State, tx: nat, s': State)
    requires Inv(s) && tx !in s.readers && s' == s.(readers := s.readers[tx := s.current])
    ensures Inv(s')
  {
  }

  lemma {:induction false} FinishKeeps(s: State, tx: nat, s': State)
    requires Inv(s) && s' == s.(readers := s.readers - {tx})
    ensures Inv(s')
  {
  }

  lemma {:induction false} DropReady(s: State, health: Health)
    requires Inv(s)
    ensures Inv(s.(pool := Pool([], s.pool.retired), health := health))
  {
    var all, rest := s.pool.ready + PagesIn(s.pool.retired), [] + PagesIn(s.pool.retired);
    assert forall i :: 0 <= i < |rest| ==> rest[i] == all[|s.pool.ready| + i];
  }

  /** Planned images never land on a page that anything readable reaches. */
  lemma {:induction false} ImagesAreFresh(m: State, plan: Plan, p: PageId)
    requires Inv(m) && PlannedFrom(m, m.pool.ready, plan) && p in plan.images
    ensures Unreachable(m, p)
    ensures forall i :: 0 <= i < |m.pool.retired| ==> p !in m.pool.retired[i].pages
  {
    assert Allocatable(m.pool.ready, m.next, p);
    forall i | 0 <= i < |m.pool.retired| ensures p !in m.pool.retired[i].pages {
      if p in m.pool.ready && p in m.pool.retired[i].pages {
        NotBoth(m.pool, p, i);
      }
    }
  }

  lemma {:induction false} NotBoth(pool: Pool, p: PageId, i: nat)
    requires Disjoint(pool) && i < |pool.retired| && p in pool.ready
    ensures p !in pool.retired[i].pages
  {
    var rest := PagesIn(pool.retired);
    var a :| 0 <= a < |pool.ready| && pool.ready[a] == p;
    forall b | 0 <= b < |rest| ensures rest[b] != p {
      var all := pool.ready + rest;
      assert all[a] == p && all[|pool.ready| + b] == rest[b];
    }
    InPagesIn(pool.retired, p);
  }

  lemma {:induction false} InstalledPool(m: State, plan: Plan)
    requires Inv(m) && PlannedFrom(m, m.pool.ready, plan)
    ensures Disjoint(Installed(m, plan).pool)
  {
    var pool := Installed(m, plan).pool;
    var retired := PagesIn(m.pool.retired);
    PagesInSnoc(m.pool.retired, Batch(plan.txid, plan.freed, plan.dirty));
    var all := plan.unused + retired + plan.freed;
    assert pool.ready + PagesIn(pool.retired) == all;
    forall p: PageId
      ensures p in plan.unused ==> p !in retired
      ensures p in plan.freed ==> p !in retired && p !in plan.unused
    {
      InPagesIn(m.pool.retired, p);
      if p in plan.unused && p in retired {
        var i :| 0 <= i < |m.pool.retired| && p in m.pool.retired[i].pages;
        NotBoth(m.pool, p, i);
      }
    }
    assert NoRepeats(retired) by {
      var before := m.pool.ready + retired;
      assert forall i :: 0 <= i < |retired| ==> retired[i] == before[|m.pool.ready| + i];
    }
    JoinNoRepeats(plan.unused, retired);
    JoinNoRepeats(plan.unused + retired, plan.freed);
  }

  lemma {:induction false} JoinNoRepeats(a: seq<PageId>, b: seq<PageId>)
    requires NoRepeats(a) && NoRepeats(b) && forall p :: p in a ==> p !in b
    ensures NoRepeats(a + b)
  {
    forall i, j | 0 <= i < j < |a + b| ensures (a + b)[i] != (a + b)[j] {
      if i < |a| <= j {
        assert (a + b)[i] in a && (a + b)[j] in b;
      }
    }
  }

  lemma {:induction false} InstalledViews(m: State, plan: Plan)
    requires Inv(m) && forall p :: p in plan.images ==> Unreachable(m, p)
    ensures Holds(m.view + plan.images, Publishes(m, plan))
    ensures forall t :: t in m.readers ==> Holds(m.view + plan.images, m.readers[t])
  {
    hide Disjoint, Bounded;
  }

  /** Publishing a plan: readers keep their versions, and the freed pages wait for them. */
  lemma {:induction false} InstallKeeps(m: State, plan: Plan)
    requires Inv(m) && PlannedFrom(m, m.pool.ready, plan)
    ensures Inv(Installed(m, plan))
  {
    var s' := Installed(m, plan);
    InstalledPool(m, plan);
    forall p | p in plan.images ensures Unreachable(m, p) && forall i :: 0 <= i < |m.pool.retired| ==> p !in m.pool.retired[i].pages {
      ImagesAreFresh(m, plan, p);
    }
    InstalledViews(m, plan);
    hide Disjoint, NoRepeats, PagesIn, Holds;
    assert Bounded(s') by {
      assert forall p :: p in plan.freed ==> p < m.next;
    }
    forall p | p in s'.pool.ready ensures Unreachable(s', p) {
      assert p in plan.unused && Unreachable(m, p);
    }
    forall i, p | 0 <= i < |s'.pool.retired| && p in s'.pool.retired[i].pages ensures OnlyOlderReach(s', p, s'.pool.retired[i].txid) {
      if i < |m.pool.retired| {
        assert s'.pool.retired[i] == m.pool.retired[i];
        assert OnlyOlderReach(m, p, m.pool.retired[i].txid);
      } else {
        assert p in plan.freed;
      }
    }
  }

  lemma {:induction false} StepKeeps(s: State, step: Step, s': State)
    requires Inv(s) && Takes(s, step, s')
    ensures Inv(s')
  {
    hide Inv, Promotes, PlannedFrom, Installed;
    match step
    case Begin(tx) => BeginKeeps(s, tx, s');
    case Finish(tx) => FinishKeeps(s, tx, s');
    case Promote => PromoteKeeps(s, s');
    case FailPlan =>
      var m :| Promotes(s, m) && s' == m.(pool := Pool([] + m.pool.ready, m.pool.retired));
      PromoteKeeps(s, m);
      assert [] + m.pool.ready == m.pool.ready;
    case Commit(plan) =>
      var m :| Promotes(s, m) && PlannedFrom(m, m.pool.ready, plan) && Promotes(Installed(m, plan), s');
      PromoteKeeps(s, m);
      InstallKeeps(m, plan);
      PromoteKeeps(Installed(m, plan), s');
    case FailBeforeLog =>
      var m :| Promotes(s, m) && s' == m.(pool := Pool([] + m.pool.ready, m.pool.retired));
      PromoteKeeps(s, m);
      assert [] + m.pool.ready == m.pool.ready;
    case FailLogging =>
      var m :| Promotes(s, m) && s' == m.(pool := Pool([], m.pool.retired), health := Poisoned);
      PromoteKeeps(s, m);
      DropReady(m, Poisoned);
    case Recover(recovered, view', next') => RecoverKeeps(recovered, view', next');
  }

  lemma {:induction false} RecoverKeeps(recovered: Version, view': map<PageId, Page>, next': PageId)
    requires forall p :: p in recovered.pages ==> p < next' && p in view' && view'[p] == recovered.pages[p]
    ensures Inv(State(recovered, map[], Pool([], []), next', view', Healthy))
  {
    assert PagesIn([]) == [];
  }

  // ---------- runs ----------

  ghost predicate IsRun(states: seq<State>, steps: seq<Step>) {
    && |states| == |steps| + 1
    && Inv(states[0]) && states[0].pool == Pool([], []) && states[0].readers == map[]
    && forall i :: 0 <= i < |steps| ==> Takes(states[i], steps[i], states[i + 1])
  }

  /**
   * No early reuse: in every state of every run, pages in the ready pool are unreachable
   * from the current root and from every open snapshot, and a batch retired by commit T is
   * reachable only from snapshots older than T.
   */
  lemma {:induction false} NoEarlyReuse(states: seq<State>, steps: seq<Step>, i: nat)
    requires IsRun(states, steps) && i < |states|
    ensures Inv(states[i])
    ensures forall p :: p in states[i].pool.ready ==> Unreachable(states[i], p)
    ensures forall b, p :: 0 <= b < |states[i].pool.retired| && p in states[i].pool.retired[b].pages ==>
              OnlyOlderReach(states[i], p, states[i].pool.retired[b].txid)
    decreases i
  {
    hide Takes;
    if i > 0 {
      NoEarlyReuse(states, steps, i - 1);
      hide Inv;
      StepKeeps(states[i - 1], steps[i - 1], states[i]);
      InvReady(states[i]);
    }
  }

  lemma {:induction false} InvReady(s: State)
    requires Inv(s)
    ensures forall p :: p in s.pool.ready ==> Unreachable(s, p)
    ensures forall b, p :: 0 <= b < |s.pool.retired| && p in s.pool.retired[b].pages ==> OnlyOlderReach(s, p, s.pool.retired[b].txid)
  {
  }

  lemma {:induction false} ReaderStays(s: State, step: Step, s': State, tx: nat)
    requires Inv(s) && Takes(s, step, s') && tx in s.readers && tx in s'.readers
    ensures s'.readers[tx] == s.readers[tx]
  {
    hide Inv, PlannedFrom, IsOldest, ChangedOnly;
  }

  /** A reader sees one unchanging map from the moment it opens until it closes. */
  lemma {:induction false} ReaderSeesOneMap(states: seq<State>, steps: seq<Step>, tx: nat, i: nat, j: nat)
    requires IsRun(states, steps) && i <= j < |states|
    requires forall k :: i <= k <= j ==> tx in states[k].readers
    ensures states[j].readers[tx] == states[i].readers[tx]
    ensures Holds(states[j].view, states[i].readers[tx])
    decreases j - i
  {
    hide Inv, Takes;
    if i < j {
      ReaderSeesOneMap(states, steps, tx, i, j - 1);
      NoEarlyReuse(states, steps, j - 1);
      ReaderStays(states[j - 1], steps[j - 1], states[j], tx);
    }
    NoEarlyReuse(states, steps, j);
    ReaderHolds(states[j], tx);
  }

  lemma {:induction false} ReaderHolds(s: State, tx: nat)
    requires Inv(s) && tx in s.readers
    ensures Holds(s.view, s.readers[tx])
  {
  }
}
