/**
 * What copy-on-write may give up: the pages on the paths that mutations take, and here and there
 * a neighbour that an almost empty page is merged with. All other pages are shared.
 */
module PathCopying {
  import opened Keys
  import opened Pages
  import opened MergeSpec
  import opened Parts
  import opened Merging
  import opened Normalizing
  import opened Rewriting
  import opened RootFinishing
  import NodeReading
  import opened WriterState

  // ---------- what a batch of mutations reaches ----------

  /** A key that lookups take to one of the children from `a` up to `b`. */
  predicate InSpan(kids: seq<Tree>, a: nat, b: nat, key: Key)
    requires a < b <= |kids|
  {
    (a == 0 || !Less(key, FirstKey(kids[a]))) && (b == |kids| || Less(key, FirstKey(kids[b])))
  }

  /** The mutations from `lo` up to `hi` are those that go to the children from `a` up to `b`. */
  ghost predicate Slice(kids: seq<Tree>, muts: seq<Mutation>, a: nat, b: nat, lo: nat, hi: nat) {
    && a < b <= |kids| && lo <= hi <= |muts|
    && forall j :: 0 <= j < |muts| ==> (lo <= j < hi <==> InSpan(kids, a, b, muts[j].key))
  }

  /** All that `kids` hold once overridden fits one run `u`, which is less than a minimally filled page. */
  ghost predicate Thin(kids: seq<Tree>, muts: seq<Mutation>, u: Part, height: nat) {
    && !u.Kept? && PartShaped(u, height) && PartFlat(u) != [] && Sorted(PartFlat(u))
    && MapOf(PartFlat(u)) == Override(MapOf(FlatAll(kids)), muts)
    && RunCost(RunOf(u)) < MIN_NODE_FILL
  }

  /** The mutations of one child. */
  ghost predicate Share(kids: seq<Tree>, muts: seq<Mutation>, i: nat, lo: nat, hi: nat) {
    i < |kids| && lo <= hi <= |muts| && Slice(kids, muts, i, i + 1, lo, hi)
  }

  ghost predicate ThinRange(kids: seq<Tree>, muts: seq<Mutation>, a: nat, b: nat, lo: nat, hi: nat, u: Part, height: nat) {
    Slice(kids, muts, a, b, lo, hi) && lo < hi && Thin(kids[a..b], muts[lo..hi], u, height)
  }

  /** Directly before or behind child `k` are mutated children of which next to nothing is left. */
  ghost predicate Beside(kids: seq<Tree>, height: nat, muts: seq<Mutation>, k: nat) {
    exists a: nat, b: nat, lo: nat, hi: nat, u :: ThinRange(kids, muts, a, b, lo, hi, u, height) && (b == k || a == k + 1)
  }

  function ChildHeight(t: Tree): nat {
    if Height(t) > 0 then Height(t) - 1 else 0
  }

  /**
   * The pages that overriding the subtree `t` may free: those on the way to a mutated key, the
   * chains of mutated cells, and an unmutated child merged with what little is left beside it.
   */
  ghost predicate Spends(t: Tree, muts: seq<Mutation>, x: PageId)
    decreases t
  {
    || x == t.id
    || (t.Leaf? && exists i :: 0 <= i < |t.entries| && x in t.entries[i].chain && Mutated(muts, t.entries[i].cell.key))
    || (t.Node? && exists i: nat, lo: nat, hi: nat ::
          && Share(t.kids, muts, i, lo, hi)
          && if lo < hi then Spends(t.kids[i], muts[lo..hi], x) else x == t.kids[i].id && Beside(t.kids, ChildHeight(t), muts, i))
  }

  // ---------- pages freed between two states ----------

  ghost function Gone(s: State, s': State): multiset<PageId> {
    LedgerOf(s').freed - LedgerOf(s).freed
  }

  lemma {:induction false} FreedGrows(s: State, s': State)
    requires s.freed <= s'.freed
    ensures LedgerOf(s').freed == LedgerOf(s).freed + multiset(s'.freed[|s.freed|..])
    ensures Gone(s, s') == multiset(s'.freed[|s.freed|..])
  {
    assert s'.freed == s.freed + s'.freed[|s.freed|..];
  }

  lemma {:induction false} GoneTwice(s: State, s1: State, s2: State, x: PageId)
    requires x in Gone(s, s2)
    ensures x in Gone(s, s1) || x in Gone(s1, s2)
  {
    hide LedgerOf;
    assert LedgerOf(s2).freed[x] > LedgerOf(s).freed[x];
  }

  lemma {:induction false} GoneNothing(s: State, s': State)
    requires s'.freed == s.freed
    ensures Gone(s, s') == multiset{}
  {
  }

  lemma {:induction false} GoneOne(s: State, id: PageId)
    ensures forall x :: x in Gone(s, Freeing(s, id)) ==> x == id
  {
    FreeingBooks(s, id);
  }

  // ---------- leaves ----------

  lemma {:induction false} ReplacedIsMutated(es: seq<Entry>, ps: seq<Planned>, x: PageId)
    requires x in ChainPages(Replaced(es, ps))
    ensures exists i :: 0 <= i < |es| && x in es[i].chain && exists j :: 0 <= j < |ps| && ps[j].key == es[i].cell.key
    decreases |es| + |ps|
  {
    hide Less;
    if ps != [] && es != [] {
      if Less(es[0].cell.key, ps[0].key) {
        ReplacedIsMutated(es[1..], ps, x);
        var i :| 0 <= i < |es[1..]| && x in es[1..][i].chain && exists j :: 0 <= j < |ps| && ps[j].key == es[1..][i].cell.key;
        assert es[i + 1] == es[1..][i];
      } else if es[0].cell.key == ps[0].key {
        assert ([es[0]] + Replaced(es[1..], ps[1..]))[1..] == Replaced(es[1..], ps[1..]);
        if x in es[0].chain {
          assert ps[0].key == es[0].cell.key;
        } else {
          assert x !in multiset(es[0].chain);
          ReplacedIsMutated(es[1..], ps[1..], x);
          LaterMutated(es, ps, x);
        }
      } else {
        ReplacedIsMutated(es, ps[1..], x);
        var i :| 0 <= i < |es| && x in es[i].chain && exists j :: 0 <= j < |ps[1..]| && ps[1..][j].key == es[i].cell.key;
        var j :| 0 <= j < |ps[1..]| && ps[1..][j].key == es[i].cell.key;
        assert ps[j + 1] == ps[1..][j];
      }
    }
  }

  lemma {:induction false} LaterMutated(es: seq<Entry>, ps: seq<Planned>, x: PageId)
    requires es != [] && ps != []
    requires exists i :: 0 <= i < |es[1..]| && x in es[1..][i].chain && exists j :: 0 <= j < |ps[1..]| && ps[1..][j].key == es[1..][i].cell.key
    ensures exists i :: 0 <= i < |es| && x in es[i].chain && exists j :: 0 <= j < |ps| && ps[j].key == es[i].cell.key
  {
    var i :| 0 <= i < |es[1..]| && x in es[1..][i].chain && exists j :: 0 <= j < |ps[1..]| && ps[1..][j].key == es[1..][i].cell.key;
    var j :| 0 <= j < |ps[1..]| && ps[1..][j].key == es[1..][i].cell.key;
    assert es[i + 1] == es[1..][i] && ps[j + 1] == ps[1..][j];
  }

  /** A leaf gives up its page, and the chains of mutated cells. */
  lemma {:induction false} LeafSpends(s: State, t: Tree, ps: seq<Planned>, muts: seq<Mutation>, s': State)
    requires t.Leaf? && Plans(ps, muts) && Grown(s, Freeing(s, t.id)) && Grown(Freeing(s, t.id), s')
    requires LedgerOf(s').freed == LedgerOf(Freeing(s, t.id)).freed + ChainPages(Replaced(t.entries, ps))
    ensures forall x :: x in Gone(s, s') ==> Spends(t, muts, x)
  {
    hide LedgerOf, Grown, Replaced, ChainPages, Freeing;
    var s1 := Freeing(s, t.id);
    GoneOne(s, t.id);
    forall x | x in Gone(s, s') ensures Spends(t, muts, x) {
      GoneTwice(s, s1, s', x);
      if x !in Gone(s, s1) {
        assert x in ChainPages(Replaced(t.entries, ps));
        ReplacedIsMutated(t.entries, ps, x);
        var i :| 0 <= i < |t.entries| && x in t.entries[i].chain && exists j :: 0 <= j < |ps| && ps[j].key == t.entries[i].cell.key;
        var j :| 0 <= j < |ps| && ps[j].key == t.entries[i].cell.key;
        assert muts[j].key == t.entries[i].cell.key;
      }
    }
  }

  // ---------- children ----------

  /** What each child became: kept as it is if no mutation goes there, overridden otherwise. */
  ghost predicate KidsRouted(kids: seq<Tree>, muts: seq<Mutation>, ps: seq<Planned>, at: seq<nat>, parts: seq<Part>, n: nat) {
    && n <= |kids| && |parts| == n && |at| == n + 1 && at[0] == 0
    && forall j :: 0 <= j < n ==> RoutedAt(kids, muts, ps, at, parts, j)
  }

  ghost predicate RoutedAt(kids: seq<Tree>, muts: seq<Mutation>, ps: seq<Planned>, at: seq<nat>, parts: seq<Part>, j: nat)
    requires j < |kids| && j < |parts| && j + 1 < |at|
  {
    at[j] <= at[j + 1] <= |ps| && Share(kids, muts, j, at[j], at[j + 1]) && RoutedKid(kids[j], ps[at[j]..at[j + 1]], parts[j])
  }

  ghost predicate RoutedKid(kid: Tree, qs: seq<Planned>, part: Part) {
    PartFlat(part) == Merge(Flat(kid), qs) && (part.Kept? <==> qs == []) && (part.Kept? ==> part.tree == kid)
  }

  /** Pages freed below the first `n` children. */
  ghost predicate KidsSpend(kids: seq<Tree>, muts: seq<Mutation>, n: nat, x: PageId) {
    exists i: nat, lo: nat, hi: nat :: i < n && Share(kids, muts, i, lo, hi) && lo < hi && Spends(kids[i], muts[lo..hi], x)
  }

  lemma {:induction false} KidsSpendMore(kids: seq<Tree>, muts: seq<Mutation>, n: nat, x: PageId)
    requires KidsSpend(kids, muts, n, x)
    ensures KidsSpend(kids, muts, n + 1, x)
  {
    hide Share, Spends;
  }

  /** The bounds that routing gives are a slice. */
  lemma {:induction false} RouteSlice(kids: seq<Tree>, muts: seq<Mutation>, i: nat, start: nat, end: nat)
    requires i < |kids| && start <= end <= |muts|
    requires i == 0 ==> start == 0
    requires i > 0 ==> (forall m :: 0 <= m < start ==> Less(muts[m].key, FirstKey(kids[i]))) && forall m :: start <= m < |muts| ==> !Less(muts[m].key, FirstKey(kids[i]))
    requires i + 1 == |kids| ==> end == |muts|
    requires i + 1 < |kids| ==> (forall m :: 0 <= m < end ==> Less(muts[m].key, FirstKey(kids[i + 1]))) && forall m :: end <= m < |muts| ==> !Less(muts[m].key, FirstKey(kids[i + 1]))
    ensures Share(kids, muts, i, start, end)
  {
    hide Less, FirstKey;
  }

  lemma {:induction false} NoKidsRouted(kids: seq<Tree>, muts: seq<Mutation>)
    ensures KidsRouted(kids, muts, [], [0], [], 0)
  {
  }

  /** One more child. */
  lemma {:induction false} KidRouted(kids: seq<Tree>, muts: seq<Mutation>, ps: seq<Planned>, at: seq<nat>, parts: seq<Part>, n: nat, qs: seq<Planned>, part: Part, end: nat)
    requires KidsRouted(kids, muts, ps, at, parts, n) && n < |kids| && at[n] == |ps| && end == |ps| + |qs|
    requires Share(kids, muts, n, at[n], end) && RoutedKid(kids[n], qs, part)
    ensures KidsRouted(kids, muts, ps + qs, at + [end], parts + [part], n + 1)
  {
    hide Share, RoutedKid;
    var all, at' := ps + qs, at + [end];
    forall j | 0 <= j < n + 1 ensures RoutedAt(kids, muts, all, at', parts + [part], j) {
      if j < n {
        assert RoutedAt(kids, muts, ps, at, parts, j);
        assert all[at[j]..at[j + 1]] == ps[at[j]..at[j + 1]];
      } else {
        assert all[|ps|..end] == qs;
      }
    }
  }

  // ---------- ranges of children ----------

  /** Slices of neighbouring children join. */
  lemma {:induction false} SliceJoin(kids: seq<Tree>, muts: seq<Mutation>, height: nat, a: nat, b: nat, c: nat, lo: nat, mid: nat, hi: nat)
    requires Slice(kids, muts, a, b, lo, mid) && Slice(kids, muts, b, c, mid, hi)
    requires ShapedAll(kids, height) && Sorted(FlatAll(kids))
    ensures Slice(kids, muts, a, c, lo, hi)
  {
    hide Less, FirstKey, Shaped, FlatAll, Sorted;
    KeyOrder();
    FirstKeysIncrease(kids, height, a, b);
    if c < |kids| {
      FirstKeysIncrease(kids, height, b, c);
    }
    forall j | 0 <= j < |muts| ensures lo <= j < hi <==> InSpan(kids, a, c, muts[j].key) {
      assert InSpan(kids, a, b, muts[j].key) || InSpan(kids, b, c, muts[j].key) <==> InSpan(kids, a, c, muts[j].key);
    }
  }

  lemma {:induction false} FirstKeysIncrease(kids: seq<Tree>, height: nat, i: nat, j: nat)
    requires i < j < |kids| && ShapedAll(kids, height) && Sorted(FlatAll(kids))
    ensures Less(FirstKey(kids[i]), FirstKey(kids[j]))
  {
    hide Less, FirstKey, Shaped, FlatAll, Sorted;
    NodeReading.SeparatorsIncrease(kids, height);
    assert ParentCells(kids)[i].separator == FirstKey(kids[i]) && ParentCells(kids)[j].separator == FirstKey(kids[j]);
  }

  lemma {:induction false} KidsAt(kids: seq<Tree>, muts: seq<Mutation>, ps: seq<Planned>, at: seq<nat>, parts: seq<Part>, n: nat, j: nat)
    requires KidsRouted(kids, muts, ps, at, parts, n) && j < n
    ensures at[j] <= at[j + 1] <= |ps| && Share(kids, muts, j, at[j], at[j + 1])
    ensures PartFlat(parts[j]) == Merge(Flat(kids[j]), ps[at[j]..at[j + 1]])
    ensures (parts[j].Kept? <==> at[j] == at[j + 1]) && (parts[j].Kept? ==> parts[j].tree == kids[j])
  {
    hide Share, Merge, Flat, PartFlat;
    assert RoutedAt(kids, muts, ps, at, parts, j);
  }

  /** Mutations and planned mutations of a range of children, and what the range holds afterwards. */
  lemma {:induction false} RangeRouted(kids: seq<Tree>, muts: seq<Mutation>, ps: seq<Planned>, at: seq<nat>, parts: seq<Part>, height: nat, a: nat, b: nat)
    requires KidsRouted(kids, muts, ps, at, parts, |kids|) && a < b <= |kids| && Plans(ps, muts)
    requires ShapedAll(kids, height) && Sorted(FlatAll(kids))
    ensures |at| == |kids| + 1 && |parts| == |kids| && at[a] <= at[b] <= |ps| && Slice(kids, muts, a, b, at[a], at[b])
    ensures PartsFlat(parts[a..b]) == Merge(FlatAll(kids[a..b]), ps[at[a]..at[b]])
    decreases b
  {
    hide KidsRouted, Less, Merge, Flat, FlatAll, PartFlat, PartsFlat, Plans, Sorted, ShapedAll, Slice;
    KidsLengths(kids, muts, ps, at, parts, |kids|);
    KidsAt(kids, muts, ps, at, parts, |kids|, b - 1);
    if a == b - 1 {
      assert parts[a..b] == [parts[a]] && kids[a..b] == [kids[a]];
      OnePart(parts[a]);
      OneTree(kids[a]);
    } else {
      RangeRouted(kids, muts, ps, at, parts, height, a, b - 1);
      SliceJoin(kids, muts, height, a, b - 1, b, at[a], at[b - 1], at[b]);
      RangeGrows(kids, muts, ps, at, height, a, b);
      PartsRange(parts, a, b);
    }
  }

  lemma {:induction false} KidsLengths(kids: seq<Tree>, muts: seq<Mutation>, ps: seq<Planned>, at: seq<nat>, parts: seq<Part>, n: nat)
    requires KidsRouted(kids, muts, ps, at, parts, n)
    ensures n <= |kids| && |parts| == n && |at| == n + 1 && at[0] == 0
  {
    hide RoutedAt;
  }

  lemma {:induction false} PartsRange(parts: seq<Part>, a: nat, b: nat)
    requires a < b <= |parts|
    ensures PartsFlat(parts[a..b]) == PartsFlat(parts[a..b - 1]) + PartFlat(parts[b - 1])
  {
    hide PartsFlat, PartFlat;
    assert parts[a..b] == parts[a..b - 1] + [parts[b - 1]];
    PartsFlatAppend(parts[a..b - 1], [parts[b - 1]]);
    OnePart(parts[b - 1]);
  }

  /** One more child joins a range: the mutations before it stay before its first key. */
  lemma {:induction false} RangeGrows(kids: seq<Tree>, muts: seq<Mutation>, ps: seq<Planned>, at: seq<nat>, height: nat, a: nat, b: nat)
    requires a + 1 < b <= |kids| && |at| == |kids| + 1 && at[a] <= at[b - 1] <= at[b] <= |ps| && Plans(ps, muts)
    requires Slice(kids, muts, a, b - 1, at[a], at[b - 1]) && Slice(kids, muts, b - 1, b, at[b - 1], at[b])
    requires ShapedAll(kids, height) && Sorted(FlatAll(kids))
    ensures Merge(FlatAll(kids[a..b]), ps[at[a]..at[b]]) == Merge(FlatAll(kids[a..b - 1]), ps[at[a]..at[b - 1]]) + Merge(Flat(kids[b - 1]), ps[at[b - 1]..at[b]])
  {
    hide Less, Merge, Flat, FlatAll, Sorted, Shaped, Replaced, FirstKey;
    var range, i := kids[a..], b - 1 - a;
    RangeShaped(kids, height, a);
    var before, from := ps[at[a]..at[b - 1]], ps[at[b - 1]..at[b]];
    forall j | 0 <= j < |before| ensures Less(before[j].key, FirstKey(range[i])) {
      assert before[j] == ps[at[a] + j] && InSpan(kids, a, b - 1, muts[at[a] + j].key);
    }
    forall j | 0 <= j < |from| ensures !Less(from[j].key, FirstKey(range[i])) {
      assert from[j] == ps[at[b - 1] + j] && InSpan(kids, b - 1, b, muts[at[b - 1] + j].key);
    }
    KidSplit(range, height, i, before, from);
    assert range[..i + 1] == kids[a..b] && range[..i] == kids[a..b - 1] && before + from == ps[at[a]..at[b]];
  }

  lemma {:induction false} RangeShaped(kids: seq<Tree>, height: nat, a: nat)
    requires ShapedAll(kids, height) && Sorted(FlatAll(kids)) && a <= |kids|
    ensures ShapedAll(kids[a..], height) && Sorted(FlatAll(kids[a..]))
  {
    hide Shaped, FlatAll, Sorted;
    assert kids == kids[..a] + kids[a..];
    FlatAllAppend(kids[..a], kids[a..]);
    NodeReading.SortedAppend(FlatAll(kids[..a]), FlatAll(kids[a..]));
  }

  // ---------- neighbours that are merged ----------

  /** A run that is not empty, but less than a minimally filled page. */
  ghost predicate Little(u: Part, height: nat) {
    !u.Kept? && PartShaped(u, height) && PartFlat(u) != [] && RunCost(RunOf(u)) < MIN_NODE_FILL
  }

  ghost predicate ChangedWithin(parts: seq<Part>, a: nat, b: nat) {
    exists j :: a <= j < b && j < |parts| && !parts[j].Kept?
  }

  /** `x` is the page of a kept child directly beside changed ones that add up to the little run `u`. */
  ghost predicate DissolvedAt(parts: seq<Part>, height: nat, x: PageId, k: nat, a: nat, b: nat, u: Part) {
    && k < |parts| && parts[k].Kept? && parts[k].tree.id == x
    && a < b <= |parts| && (b == k || a == k + 1)
    && ChangedWithin(parts, a, b) && Little(u, height) && PartFlat(u) == PartsFlat(parts[a..b])
  }

  ghost predicate Dissolved(parts: seq<Part>, height: nat, x: PageId) {
    exists k: nat, a: nat, b: nat, u :: DissolvedAt(parts, height, x, k, a, b, u)
  }

  ghost predicate Alone(parts: seq<Part>, a: nat, b: nat, k: nat, p: Part) {
    a <= k < b <= |parts| && parts[k] == p && PartsFlat(parts[a..k]) == [] && PartsFlat(parts[k + 1..b]) == []
  }

  /** `p` stands for the children from `a` up to `b`: one that was kept, between empty ones, or some that changed. */
  ghost predicate StandsFor(parts: seq<Part>, a: nat, b: nat, p: Part) {
    && a < b <= |parts| && PartFlat(p) == PartsFlat(parts[a..b]) && PartFlat(p) != []
    && if p.Kept? then exists k: nat :: Alone(parts, a, b, k, p) else ChangedWithin(parts, a, b)
  }

  ghost predicate StandsAt(parts0: seq<Part>, parts: seq<Part>, cuts: seq<nat>, i: nat)
    requires i < |parts| && i + 1 < |cuts|
  {
    StandsFor(parts0, cuts[i], cuts[i + 1], parts[i])
  }

  /** Each of `parts` stands for its own range of the children `parts0`, one range after the other. */
  ghost predicate Ranges(parts0: seq<Part>, parts: seq<Part>, cuts: seq<nat>) {
    |cuts| == |parts| + 1 && forall i :: 0 <= i < |parts| ==> StandsAt(parts0, parts, cuts, i)
  }

  lemma {:induction false} RangeAt(parts0: seq<Part>, parts: seq<Part>, cuts: seq<nat>, i: nat)
    requires Ranges(parts0, parts, cuts) && i < |parts|
    ensures |cuts| == |parts| + 1 && StandsFor(parts0, cuts[i], cuts[i + 1], parts[i])
  {
    hide StandsFor;
    assert StandsAt(parts0, parts, cuts, i);
  }

  lemma {:induction false} FlatSplit(parts: seq<Part>, a: nat, b: nat, c: nat)
    requires a <= b <= c <= |parts|
    ensures PartsFlat(parts[a..c]) == PartsFlat(parts[a..b]) + PartsFlat(parts[b..c])
  {
    hide PartsFlat;
    assert parts[a..c] == parts[a..b] + parts[b..c];
    PartsFlatAppend(parts[a..b], parts[b..c]);
  }

  lemma {:induction false} LittleIs(p: Part, height: nat)
    requires Underfull(ChildOf(p)) && PartShaped(p, height) && PartFlat(p) != []
    ensures Little(p, height)
  {
  }

  /** Dissolving the kept one of two neighbours, the other being underfull. */
  lemma {:induction false} LeftDissolves(parts0: seq<Part>, a: nat, b: nat, c: nat, p: Part, u: Part, height: nat)
    requires StandsFor(parts0, a, b, p) && StandsFor(parts0, b, c, u) && p.Kept? && Little(u, height)
    ensures Dissolved(parts0, height, p.tree.id)
  {
    hide Little, ChangedWithin, PartFlat, PartsFlat;
    var k: nat :| Alone(parts0, a, b, k, p);
    FlatSplit(parts0, k + 1, b, c);
    assert PartFlat(u) == PartsFlat(parts0[k + 1..c]);
    LittleChanged(u, height);
    WiderChange(parts0, k + 1, b, c, c);
    assert DissolvedAt(parts0, height, p.tree.id, k, k + 1, c, u);
  }

  lemma {:induction false} RightDissolves(parts0: seq<Part>, a: nat, b: nat, c: nat, u: Part, p: Part, height: nat)
    requires StandsFor(parts0, a, b, u) && StandsFor(parts0, b, c, p) && p.Kept? && Little(u, height)
    ensures Dissolved(parts0, height, p.tree.id)
  {
    hide Little, ChangedWithin, PartFlat, PartsFlat;
    var k: nat :| Alone(parts0, b, c, k, p);
    FlatSplit(parts0, a, b, k);
    assert PartFlat(u) == PartsFlat(parts0[a..k]);
    LittleChanged(u, height);
    WiderChange(parts0, a, a, b, k);
    assert DissolvedAt(parts0, height, p.tree.id, k, a, k, u);
  }

  lemma {:induction false} LittleChanged(u: Part, height: nat)
    requires Little(u, height)
    ensures !u.Kept?
  {
  }

  lemma {:induction false} WiderChange(parts: seq<Part>, a: nat, b: nat, c: nat, d: nat)
    requires ChangedWithin(parts, b, c) && a <= b && c <= d
    ensures ChangedWithin(parts, a, d)
  {
  }

  /** Two neighbours joined stand for both their ranges. */
  lemma {:induction false} JoinedStands(parts0: seq<Part>, a: nat, b: nat, c: nat, p: Part, q: Part, j: Part)
    requires StandsFor(parts0, a, b, p) && StandsFor(parts0, b, c, q) && !j.Kept? && !(p.Kept? && q.Kept?)
    requires PartFlat(j) == PartFlat(p) + PartFlat(q)
    ensures StandsFor(parts0, a, c, j)
  {
    hide ChangedWithin, PartFlat, PartsFlat, Alone;
    FlatSplit(parts0, a, b, c);
    if p.Kept? {
      WiderChange(parts0, a, b, c, c);
    } else {
      WiderChange(parts0, a, a, b, c);
    }
  }

  lemma {:induction false} JoinedRanges(parts0: seq<Part>, parts: seq<Part>, cuts: seq<nat>, low: nat, j: Part)
    requires Ranges(parts0, parts, cuts) && low + 1 < |parts| && !j.Kept? && !(parts[low].Kept? && parts[low + 1].Kept?)
    requires PartFlat(j) == PartFlat(parts[low]) + PartFlat(parts[low + 1])
    ensures |cuts| == |parts| + 1 && Ranges(parts0, Replacing(parts, low, j), cuts[..low + 1] + cuts[low + 2..])
  {
    hide StandsFor, PartFlat;
    RangeAt(parts0, parts, cuts, low);
    RangeAt(parts0, parts, cuts, low + 1);
    JoinedStands(parts0, cuts[low], cuts[low + 1], cuts[low + 2], parts[low], parts[low + 1], j);
    var after, cuts' := Replacing(parts, low, j), cuts[..low + 1] + cuts[low + 2..];
    forall i | 0 <= i < |after| ensures StandsAt(parts0, after, cuts', i) {
      if i != low {
        RangeAt(parts0, parts, cuts, if i < low then i else i + 1);
      }
    }
  }

  /** A child that is not empty stands for itself and the empty ones before it. */
  lemma {:induction false} TakenStands(parts0: seq<Part>, parts: seq<Part>, cuts: seq<nat>, i: nat)
    requires Ranges(parts0, parts, cuts) && i < |parts0| && cuts[|parts|] <= i
    requires PartsFlat(parts0[cuts[|parts|]..i]) == [] && PartFlat(parts0[i]) != []
    ensures Ranges(parts0, parts + [parts0[i]], cuts + [i + 1])
  {
    hide StandsFor, PartFlat, PartsFlat;
    var lo := cuts[|parts|];
    OneStands(parts0, lo, i);
    var after, cuts' := parts + [parts0[i]], cuts + [i + 1];
    forall n | 0 <= n < |after| ensures StandsAt(parts0, after, cuts', n) {
      if n < |parts| {
        RangeAt(parts0, parts, cuts, n);
      }
    }
  }

  lemma {:induction false} OneStands(parts: seq<Part>, lo: nat, i: nat)
    requires lo <= i < |parts| && PartsFlat(parts[lo..i]) == [] && PartFlat(parts[i]) != []
    ensures StandsFor(parts, lo, i + 1, parts[i])
  {
    hide PartFlat, PartsFlat;
    FlatSplit(parts, lo, i, i + 1);
    assert parts[i..i + 1] == [parts[i]];
    OnePart(parts[i]);
    if parts[i].Kept? {
      assert parts[i + 1..i + 1] == [];
      NoPartsFlat();
      assert Alone(parts, lo, i + 1, i, parts[i]);
    }
  }

  lemma {:induction false} NoPartsFlat()
    ensures PartsFlat([]) == []
  {
  }

  /** Of two neighbours that are merged one is underfull, so at most the other is a kept page, which dissolves. */
  lemma {:induction false} PairDissolves(parts0: seq<Part>, parts: seq<Part>, cuts: seq<nat>, low: nat, height: nat)
    requires Ranges(parts0, parts, cuts) && low + 1 < |parts| && PartsShaped(parts, height)
    requires Underfull(ChildOf(parts[low])) || Underfull(ChildOf(parts[low + 1]))
    ensures !(parts[low].Kept? && parts[low + 1].Kept?)
    ensures parts[low].Kept? ==> Dissolved(parts0, height, parts[low].tree.id)
    ensures parts[low + 1].Kept? ==> Dissolved(parts0, height, parts[low + 1].tree.id)
  {
    hide StandsFor, PartShaped, Dissolved, PartFlat;
    var p, q := parts[low], parts[low + 1];
    RangeAt(parts0, parts, cuts, low);
    RangeAt(parts0, parts, cuts, low + 1);
    NotEmpty(parts0, cuts[low], cuts[low + 1], p);
    NotEmpty(parts0, cuts[low + 1], cuts[low + 2], q);
    if p.Kept? {
      LittleIs(q, height);
      LeftDissolves(parts0, cuts[low], cuts[low + 1], cuts[low + 2], p, q, height);
    } else if q.Kept? {
      LittleIs(p, height);
      RightDissolves(parts0, cuts[low], cuts[low + 1], cuts[low + 2], p, q, height);
    }
  }

  lemma {:induction false} NotEmpty(parts: seq<Part>, a: nat, b: nat, p: Part)
    requires StandsFor(parts, a, b, p)
    ensures PartFlat(p) != []
  {
    hide PartFlat, PartsFlat, ChangedWithin, Alone;
  }

  // ---------- a whole node ----------

  /** A dissolved neighbour is one that mutations leave little beside. */
  lemma {:induction false} DissolvedSpends(t: Tree, muts: seq<Mutation>, ps: seq<Planned>, at: seq<nat>, parts: seq<Part>, x: PageId)
    requires t.Node? && Shaped(t) && Sorted(Flat(t)) && MutationsSorted(muts) && Plans(ps, muts) && PlannedSorted(ps)
    requires KidsRouted(t.kids, muts, ps, at, parts, |t.kids|) && Dissolved(parts, ChildHeight(t), x)
    ensures Spends(t, muts, x)
  {
    hide KidsRouted, Less, Merge, FlatAll, PartFlat, PartsFlat, Plans, PlannedSorted, MutationsSorted, Sorted, Shaped, Slice, Little, ChangedWithin, Thin, Share;
    KidsLengths(t.kids, muts, ps, at, parts, |t.kids|);
    NodeHeights(t);
    var k: nat, a: nat, b: nat, u: Part :| DissolvedAt(parts, ChildHeight(t), x, k, a, b, u);
    KidsAt(t.kids, muts, ps, at, parts, |t.kids|, k);
    RangeRouted(t.kids, muts, ps, at, parts, ChildHeight(t), a, b);
    SomeMutation(t.kids, muts, ps, at, parts, ChildHeight(t), a, b);
    ThinIs(t.kids, muts, ps, at, ChildHeight(t), a, b, u);
    assert ThinRange(t.kids, muts, a, b, at[a], at[b], u, ChildHeight(t));
    assert Beside(t.kids, ChildHeight(t), muts, k);
  }

  lemma {:induction false} NodeHeights(t: Tree)
    requires t.Node? && Shaped(t)
    ensures ShapedAll(t.kids, ChildHeight(t)) && Flat(t) == FlatAll(t.kids)
  {
  }

  /** A range with a changed child has mutations. */
  lemma {:induction false} SomeMutation(kids: seq<Tree>, muts: seq<Mutation>, ps: seq<Planned>, at: seq<nat>, parts: seq<Part>, height: nat, a: nat, b: nat)
    requires KidsRouted(kids, muts, ps, at, parts, |kids|) && a < b <= |kids| && ChangedWithin(parts, a, b) && |at| == |kids| + 1
    ensures at[a] < at[b]
  {
    hide KidsRouted, Merge, Flat, PartFlat, Share;
    KidsLengths(kids, muts, ps, at, parts, |kids|);
    var j :| a <= j < b && j < |parts| && !parts[j].Kept?;
    KidsAt(kids, muts, ps, at, parts, |kids|, j);
    AtIncrease(kids, muts, ps, at, parts, a, j);
    AtIncrease(kids, muts, ps, at, parts, j + 1, b);
  }

  lemma {:induction false} AtIncrease(kids: seq<Tree>, muts: seq<Mutation>, ps: seq<Planned>, at: seq<nat>, parts: seq<Part>, i: nat, j: nat)
    requires KidsRouted(kids, muts, ps, at, parts, |kids|) && i <= j <= |kids| && |at| == |kids| + 1
    ensures at[i] <= at[j]
    decreases j
  {
    hide KidsRouted, Merge, Flat, PartFlat, Share;
    if i < j {
      AtIncrease(kids, muts, ps, at, parts, i, j - 1);
      KidsAt(kids, muts, ps, at, parts, |kids|, j - 1);
    }
  }

  lemma {:induction false} ThinIs(kids: seq<Tree>, muts: seq<Mutation>, ps: seq<Planned>, at: seq<nat>, height: nat, a: nat, b: nat, u: Part)
    requires a < b <= |kids| && |at| == |kids| + 1 && at[a] <= at[b] <= |ps| && Plans(ps, muts) && PlannedSorted(ps) && MutationsSorted(muts)
    requires ShapedAll(kids, height) && Sorted(FlatAll(kids))
    requires Little(u, height) && PartFlat(u) == Merge(FlatAll(kids[a..b]), ps[at[a]..at[b]])
    ensures Thin(kids[a..b], muts[at[a]..at[b]], u, height)
  {
    hide Less, Merge, FlatAll, PartFlat, Shaped, WellKeyed, Written;
    var es, qs, ms := FlatAll(kids[a..b]), ps[at[a]..at[b]], muts[at[a]..at[b]];
    assert Sorted(es) by { RangeSorted(kids, a, b); }
    hide Sorted;
    assert Plans(qs, ms) && PlannedSorted(qs) && MutationsSorted(ms);
    MergeIsOverride(es, qs, ms);
    MergeSorted(es, qs);
  }

  lemma {:induction false} RangeSorted(kids: seq<Tree>, a: nat, b: nat)
    requires Sorted(FlatAll(kids)) && a <= b <= |kids|
    ensures Sorted(FlatAll(kids[a..b]))
  {
    hide FlatAll, Sorted;
    assert kids == kids[..a] + (kids[a..b] + kids[b..]);
    FlatAllAppend(kids[..a], kids[a..b] + kids[b..]);
    FlatAllAppend(kids[a..b], kids[b..]);
    NodeReading.SortedAppend(FlatAll(kids[..a]), FlatAll(kids[a..b]) + FlatAll(kids[b..]));
    NodeReading.SortedAppend(FlatAll(kids[a..b]), FlatAll(kids[b..]));
  }

  /** All that rewriting an internal page frees. */
  lemma {:induction false} NodeSpends(s: State, t: Tree, muts: seq<Mutation>, ps: seq<Planned>, at: seq<nat>, parts: seq<Part>, s1: State, s2: State)
    requires t.Node? && Shaped(t) && Sorted(Flat(t)) && MutationsSorted(muts) && Plans(ps, muts) && PlannedSorted(ps)
    requires KidsRouted(t.kids, muts, ps, at, parts, |t.kids|)
    requires Grown(s, Freeing(s, t.id)) && Grown(Freeing(s, t.id), s1) && Grown(s1, s2)
    requires forall x :: x in Gone(Freeing(s, t.id), s1) ==> KidsSpend(t.kids, muts, |t.kids|, x)
    requires forall x :: x in Gone(s1, s2) ==> Dissolved(parts, ChildHeight(t), x)
    ensures forall x :: x in Gone(s, s2) ==> Spends(t, muts, x)
  {
    hide KidsRouted, KidsSpend, Dissolved, Grown, Gone, Freeing, Shaped, Sorted, Flat, Plans, PlannedSorted, MutationsSorted, Spends;
    var s0 := Freeing(s, t.id);
    GoneOne(s, t.id);
    GrownTransitive(s, s0, s1);
    forall x | x in Gone(s, s2) ensures Spends(t, muts, x) {
      GoneTwice(s, s1, s2, x);
      if x in Gone(s1, s2) {
        DissolvedSpends(t, muts, ps, at, parts, x);
      } else {
        GoneTwice(s, s0, s1, x);
        if x in Gone(s, s0) {
          RootSpends(t, muts);
        } else {
          BelowSpends(t, muts, x);
        }
      }
    }
  }

  lemma {:induction false} RootSpends(t: Tree, muts: seq<Mutation>)
    ensures Spends(t, muts, t.id)
  {
  }

  lemma {:induction false} BelowSpends(t: Tree, muts: seq<Mutation>, x: PageId)
    requires t.Node? && KidsSpend(t.kids, muts, |t.kids|, x)
    ensures Spends(t, muts, x)
  {
    hide Share, Beside;
  }

  // ---------- collapsing the root ----------

  /** An internal page of the committed tree with a single child, below which all of the new contents are. */
  ghost predicate OnlyBranch(disk: map<PageId, Page>, es: seq<Entry>, x: PageId) {
    exists u :: Spelled(disk, u) && Shaped(u) && u.id == x && u.Node? && |u.kids| == 1 && Flat(u) == es
  }

  /** The writer's committed pages are those of one tree. */
  ghost predicate OneCommitted(disk: map<PageId, Page>, base: multiset<PageId>) {
    base == multiset{} || exists tree :: Spelled(disk, tree) && PagesOf(tree) == base
  }

  /** A committed page that becomes the root has the subtree below it that it always had. */
  lemma {:induction false} RootIsOnlyBranch(s0: State, s: State, es: seq<Entry>, t: Tree)
    requires OneCommitted(s.disk, s.base) && Rooted(s0, s, es, t) && t.Node? && |t.kids| == 1 && Shaped(t) && t.id in s.base
    ensures OnlyBranch(s.disk, es, t.id)
  {
    hide PagesOf, Spelled, Shaped, LedgerOf, Balanced, Since;
    var tree :| Spelled(s.disk, tree) && PagesOf(tree) == s.base;
    CommittedPage(s0, s, es, t);
    var u := SubtreeAt(s.disk, tree, t.id);
    forall x | x in PagesOf(u) ensures x in s.base {
      assert PagesOf(u)[x] <= s.base[x];
    }
    assert AgreeOn(s.disk, ViewOf(s), PagesOf(u));
    TreeFrame(s.disk, ViewOf(s), u);
    OneTreeSpelled(ViewOf(s), t, u);
  }

  lemma {:induction false} CommittedPage(s0: State, s: State, es: seq<Entry>, t: Tree)
    requires Rooted(s0, s, es, t) && t.Node? && t.id in s.base
    ensures t.id in s.disk && s.disk[t.id].InternalPage?
  {
    hide PagesOf, LedgerOf, Balanced, Since, Flat;
    AboveFacts(s0, s, es, t);
  }

  // ---------- what is shared ----------

  /** `u` is a subtree that no mutation goes to, directly below a page that some mutation does go to. */
  ghost predicate Aside(t: Tree, muts: seq<Mutation>, u: Tree)
    decreases t
  {
    t.Node? && exists i: nat, lo: nat, hi: nat ::
      Share(t.kids, muts, i, lo, hi) && if lo < hi then Aside(t.kids[i], muts[lo..hi], u) else u == t.kids[i]
  }

  /** Such a subtree beside mutated ones of which next to nothing is left. */
  ghost predicate AsideLittle(t: Tree, muts: seq<Mutation>, u: Tree)
    decreases t
  {
    t.Node? && exists i: nat, lo: nat, hi: nat ::
      && Share(t.kids, muts, i, lo, hi)
      && if lo < hi then AsideLittle(t.kids[i], muts[lo..hi], u) else u == t.kids[i] && Beside(t.kids, ChildHeight(t), muts, i)
  }

  lemma {:induction false} OneShare(kids: seq<Tree>, muts: seq<Mutation>, i: nat, lo: nat, hi: nat, lo': nat, hi': nat)
    requires Share(kids, muts, i, lo, hi) && Share(kids, muts, i, lo', hi')
    ensures lo < hi <==> lo' < hi'
    ensures lo < hi ==> lo == lo' && hi == hi'
  {
    hide Less, FirstKey;
    if lo < hi {
      assert InSpan(kids, i, i + 1, muts[lo].key) && InSpan(kids, i, i + 1, muts[hi - 1].key);
    }
    if lo' < hi' {
      assert InSpan(kids, i, i + 1, muts[lo'].key) && InSpan(kids, i, i + 1, muts[hi' - 1].key);
    }
  }

  lemma {:induction false} KidsApart(ts: seq<Tree>, i: nat, j: nat, x: PageId)
    requires NoDuplicates(PagesOfAll(ts)) && i < |ts| && j < |ts| && x in PagesOf(ts[i]) && x in PagesOf(ts[j])
    ensures i == j
    decreases |ts|
  {
    hide PagesOf;
    assert (PagesOf(ts[0]) + PagesOfAll(ts[1..]))[x] <= 1;
    if i > 0 {
      KidPagesContained(ts[1..], i - 1);
    }
    if j > 0 {
      KidPagesContained(ts[1..], j - 1);
    }
    if i > 0 && j > 0 {
      forall y ensures PagesOfAll(ts[1..])[y] <= 1 {
        assert (PagesOf(ts[0]) + PagesOfAll(ts[1..]))[y] <= 1;
      }
      KidsApart(ts[1..], i - 1, j - 1, x);
    }
  }

  lemma {:induction false} BelowRoot(t: Tree, i: nat, x: PageId)
    requires NoDuplicates(PagesOf(t)) && t.Node? && i < |t.kids| && x in PagesOf(t.kids[i])
    ensures x != t.id && NoDuplicates(PagesOfAll(t.kids)) && NoDuplicates(PagesOf(t.kids[i]))
  {
    assert PagesOf(t) == multiset{t.id} + PagesOfAll(t.kids);
    hide PagesOf, PagesOfAll;
    KidPagesContained(t.kids, i);
    forall y ensures PagesOfAll(t.kids)[y] <= 1 && PagesOf(t.kids[i])[y] <= 1 {
      assert (multiset{t.id} + PagesOfAll(t.kids))[y] <= 1;
    }
    assert (multiset{t.id} + PagesOfAll(t.kids))[x] <= 1;
  }

  lemma {:induction false} SpendsInside(t: Tree, muts: seq<Mutation>, x: PageId)
    requires Spends(t, muts, x)
    ensures x in PagesOf(t)
    decreases t
  {
    hide Slice, Beside;
    if x != t.id {
      if t.Leaf? {
        var i :| 0 <= i < |t.entries| && x in t.entries[i].chain && Mutated(muts, t.entries[i].cell.key);
        EntryChainContained(t.entries, i);
        assert x in multiset(t.entries[i].chain);
      } else {
        var i: nat, lo: nat, hi: nat :| Share(t.kids, muts, i, lo, hi)
          && if lo < hi then Spends(t.kids[i], muts[lo..hi], x) else x == t.kids[i].id && Beside(t.kids, ChildHeight(t), muts, i);
        if lo < hi {
          SpendsInside(t.kids[i], muts[lo..hi], x);
        }
        KidPagesContained(t.kids, i);
      }
    }
  }

  lemma {:induction false} AsideInside(t: Tree, muts: seq<Mutation>, u: Tree)
    requires Aside(t, muts, u)
    ensures PagesOf(u) <= PagesOf(t)
    decreases t
  {
    hide Slice;
    var i: nat, lo: nat, hi: nat :| Share(t.kids, muts, i, lo, hi) && if lo < hi then Aside(t.kids[i], muts[lo..hi], u) else u == t.kids[i];
    KidPagesContained(t.kids, i);
    assert PagesOf(t) == multiset{t.id} + PagesOfAll(t.kids);
    if lo < hi {
      AsideInside(t.kids[i], muts[lo..hi], u);
    }
  }

  /**
   * Copy-on-write: of a subtree that no mutation goes to, at most the topmost page is ever given
   * up, and that one only if next to nothing is left of mutated neighbours. All other pages of it
   * are shared.
   */
  lemma {:induction false} AsideIsShared(t: Tree, muts: seq<Mutation>, u: Tree, x: PageId)
    requires NoDuplicates(PagesOf(t)) && Aside(t, muts, u) && x in PagesOf(u)
    ensures Spends(t, muts, x) ==> x == u.id && AsideLittle(t, muts, u)
    decreases t
  {
    hide Slice, Beside, PagesOf, NoDuplicates;
    if Spends(t, muts, x) {
      var i: nat, lo: nat, hi: nat :| Share(t.kids, muts, i, lo, hi) && if lo < hi then Aside(t.kids[i], muts[lo..hi], u) else u == t.kids[i];
      if lo < hi {
        AsideInside(t.kids[i], muts[lo..hi], u);
        assert PagesOf(u)[x] <= PagesOf(t.kids[i])[x];
      }
      BelowRoot(t, i, x);
      var j: nat, lo': nat, hi': nat :| Share(t.kids, muts, j, lo', hi')
        && if lo' < hi' then Spends(t.kids[j], muts[lo'..hi'], x) else x == t.kids[j].id && Beside(t.kids, ChildHeight(t), muts, j);
      if lo' < hi' {
        SpendsInside(t.kids[j], muts[lo'..hi'], x);
      } else {
        OwnPage(t.kids[j]);
      }
      KidsApart(t.kids, i, j, x);
      OneShare(t.kids, muts, i, lo, hi, lo', hi');
      if lo < hi {
        AsideIsShared(t.kids[i], muts[lo..hi], u, x);
      }
    }
  }

  lemma {:induction false} OwnPage(t: Tree)
    ensures t.id in PagesOf(t)
  {
  }
}
