/** The shared ancestor cache stays current through commits, snapshots and recoveries. */
module PointReads {
  import opened Keys
  import opened Pages
  import opened FreePages
  import R = Reclaim
  import opened Allocator
  import T = TreeApply
  import opened TreeLookup

  /** Pages that the current root or an open snapshot reaches. */
  ghost function Live(s: R.State): iset<PageId> {
    iset p | p in s.current.pages || exists t :: t in s.readers && p in s.readers[t].pages
  }

  /** A published commit and a recovery start the cache over; nothing else touches it. */
  function Kept(step: R.Step, ancestors: seq<Ancestor>): seq<Ancestor> {
    if step.Commit? || step.Recover? then [] else ancestors
  }

  lemma {:induction false} PromotionAgrees(s: R.State, s': R.State, ancestors: seq<Ancestor>)
    requires R.Inv(s) && R.Promotes(s, s') && Agrees(ancestors, s.view, Live(s))
    ensures Agrees(ancestors, s'.view, Live(s'))
  {
    hide R.Inv, PagesIn, Ripe, R.IsOldest;
    var oldest :| R.IsOldest(s, oldest) && s' == s.(pool := Promoted(s.pool, oldest), view := s'.view)
      && R.ChangedOnly(s.view, s'.view, PagesIn(s.pool.retired[..Ripe(s.pool.retired, oldest)]));
    forall p | p in PagesIn(s.pool.retired[..Ripe(s.pool.retired, oldest)]) ensures p !in Live(s) {
      R.RipeIsUnreachable(s, oldest, p);
    }
    assert Live(s') == Live(s);
  }

  /** Every engine step leaves the cache in agreement with what live roots read. */
  lemma {:induction false} StepAgrees(s: R.State, step: R.Step, s': R.State, ancestors: seq<Ancestor>)
    requires R.Inv(s) && R.Takes(s, step, s') && Agrees(ancestors, s.view, Live(s))
    ensures Agrees(Kept(step, ancestors), s'.view, Live(s'))
  {
    hide R.Inv, R.Promotes, R.PlannedFrom, R.Installed;
    match step
    case Begin(tx) =>
      assert forall p :: p in Live(s') ==> p in Live(s);
    case Finish(tx) =>
      assert forall p :: p in Live(s') ==> p in Live(s);
    case Promote =>
      PromotionAgrees(s, s', ancestors);
    case FailPlan =>
      var m :| R.Promotes(s, m) && s' == m.(pool := Pool([] + m.pool.ready, m.pool.retired));
      PromotionAgrees(s, m, ancestors);
      assert Live(s') == Live(m);
    case FailBeforeLog =>
      var m :| R.Promotes(s, m) && s' == m.(pool := Pool([] + m.pool.ready, m.pool.retired));
      PromotionAgrees(s, m, ancestors);
      assert Live(s') == Live(m);
    case FailLogging =>
      var m :| R.Promotes(s, m) && s' == m.(pool := Pool([], m.pool.retired), health := R.Poisoned);
      PromotionAgrees(s, m, ancestors);
      assert Live(s') == Live(m);
    case Commit(plan) =>
    case Recover(recovered, view', next') =>
  }

  /** The versions that can be read: the current one and those of open transactions. */
  ghost predicate Readable(s: R.State, v: R.Version) {
    v == s.current || exists t :: t in s.readers && s.readers[t] == v
  }

  /** Looking `key` up from `root` stays within the version's own pages. */
  ghost predicate Within(v: R.Version, root: PageId, key: Key) {
    forall p :: p in LookupVisits(v.pages, root, key) ==> p in v.pages
  }

  /** A lookup in a readable version, or an engine step. */
  datatype Event = LookUp(version: R.Version, root: PageId, key: Key) | Engine(step: R.Step)

  datatype Moment = Moment(engine: R.State, ancestors: seq<Ancestor>)

  /** A lookup leaves the cache as `CachedLookup` does, reading through the pager. */
  ghost predicate Follows(m: Moment, e: Event, m': Moment) {
    match e
    case LookUp(v, root, key) =>
      && Readable(m.engine, v) && Within(v, root, key)
      && m' == Moment(m.engine, CachedLookup(m.engine.view, m.ancestors, root, key).1)
    case Engine(step) => R.Takes(m.engine, step, m'.engine) && m'.ancestors == Kept(step, m.ancestors)
  }

  ghost predicate IsRun(ms: seq<Moment>, es: seq<Event>) {
    && |ms| == |es| + 1
    && R.Inv(ms[0].engine) && ms[0].ancestors == []
    && forall i :: 0 <= i < |es| ==> Follows(ms[i], es[i], ms[i + 1])
  }

  lemma {:induction false} VersionHeld(s: R.State, v: R.Version)
    requires R.Inv(s) && Readable(s, v)
    ensures forall p :: p in v.pages ==> p in s.view && s.view[p] == v.pages[p] && p in Live(s)
  {
    hide R.Bounded, R.Disjoint, R.Unreachable, R.OnlyOlderReach;
  }

  /** Pages outside the ones a lookup visits do not matter to it. */
  lemma {:induction false} WalkFrame(small: map<PageId, Page>, pages: map<PageId, Page>, id: PageId, expected: Option<nat>, key: Key)
    requires forall p :: p in small ==> p in pages && pages[p] == small[p]
    requires forall p :: p in Visits(small, id, expected, key) ==> p in small
    ensures PlainWalk(pages, id, expected, key) == PlainWalk(small, id, expected, key)
    ensures Visits(pages, id, expected, key) == Visits(small, id, expected, key)
    decreases expected.None?, if expected.Some? then expected.value else 0
  {
    hide LeafProbe, ChildIndex;
    assert id in Visits(small, id, expected, key);
    var node := NodeAt(small, id, expected);
    assert NodeAt(pages, id, expected) == node;
    if node.Ok? && node.value.InternalPage? {
      WalkFrame(small, pages, node.value.cells[ChildIndex(node.value.cells, key)].child, Some(node.value.level - 1), key);
    }
  }

  /** With a cache in agreement, a lookup returns what the version's own pages say. */
  lemma {:induction false} ReadsVersion(s: R.State, ancestors: seq<Ancestor>, v: R.Version, root: PageId, key: Key)
    requires R.Inv(s) && Readable(s, v) && Within(v, root, key) && Agrees(ancestors, s.view, Live(s))
    ensures var (r, after) := CachedLookup(s.view, ancestors, root, key);
            r == Lookup(s.view, root, key) == Lookup(v.pages, root, key) && Agrees(after, s.view, Live(s))
  {
    hide R.Inv, Agrees, Live, Readable, PlainWalk, CachedWalk, Visits;
    VersionHeld(s, v);
    if root != 0 {
      WalkFrame(v.pages, s.view, root, None, key);
    }
    CachedLookupAgrees(s.view, ancestors, root, key, Live(s));
  }

  /** Over any interleaving of lookups with commits, snapshots, failures and recoveries the cache agrees with live pages. */
  lemma {:induction false} CacheAlwaysAgrees(ms: seq<Moment>, es: seq<Event>, i: nat)
    requires IsRun(ms, es) && i < |ms|
    ensures R.Inv(ms[i].engine) && Agrees(ms[i].ancestors, ms[i].engine.view, Live(ms[i].engine))
    decreases i
  {
    hide R.Inv, R.Takes, Agrees, Live, Readable, Within, CachedLookup, Lookup;
    if i == 0 {
      assert Agrees([], ms[0].engine.view, Live(ms[0].engine)) by { NothingCached(ms[0].engine); }
    } else {
      CacheAlwaysAgrees(ms, es, i - 1);
      var m, m' := ms[i - 1], ms[i];
      assert Follows(m, es[i - 1], m');
      match es[i - 1]
      case LookUp(v, root, key) =>
        ReadsVersion(m.engine, m.ancestors, v, root, key);
      case Engine(step) =>
        R.StepKeeps(m.engine, step, m'.engine);
        StepAgrees(m.engine, step, m'.engine, m.ancestors);
    }
  }

  /**
   * At every moment, a lookup with the shared cache, from any root of any version that can be
   * read, returns what it returns without the cache, and what that version's own pages say.
   */
  lemma {:induction false} CachedEqualsPlain(ms: seq<Moment>, es: seq<Event>, i: nat, v: R.Version, root: PageId, key: Key)
    requires IsRun(ms, es) && i < |ms| && Readable(ms[i].engine, v) && Within(v, root, key)
    ensures CachedLookup(ms[i].engine.view, ms[i].ancestors, root, key).0 == Lookup(ms[i].engine.view, root, key) == Lookup(v.pages, root, key)
  {
    hide R.Inv, IsRun, Agrees, Live, Readable, Within, CachedLookup, Lookup;
    CacheAlwaysAgrees(ms, es, i);
    ReadsVersion(ms[i].engine, ms[i].ancestors, v, root, key);
  }

  /** From a well-formed tree of the version, that is the cell the tree binds to the key. */
  lemma {:induction false} CachedFinds(ms: seq<Moment>, es: seq<Event>, i: nat, v: R.Version, root: PageId, tree: Option<Tree>, key: Key)
    requires IsRun(ms, es) && i < |ms| && Readable(ms[i].engine, v)
    requires T.WellFormed(v.pages, root, tree) && forall p :: p in T.PagesIn(tree) ==> p in v.pages
    ensures CachedLookup(ms[i].engine.view, ms[i].ancestors, root, key).0 == Ok(Find(T.EntriesOf(tree), key))
  {
    hide IsRun, Readable, CachedLookup, Lookup, LookupVisits, T.WellFormed, Find;
    LookupFinds(v.pages, root, tree, key);
    CachedEqualsPlain(ms, es, i, v, root, key);
  }

  lemma {:induction false} NothingCached(s: R.State)
    ensures Agrees([], s.view, Live(s))
  {
  }
}
