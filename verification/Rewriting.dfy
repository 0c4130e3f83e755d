/** Rewriting one subtree: what a rewritten child is, and how children compose. */
module Rewriting {
  import opened Keys
  import opened Pages
  import opened MergeSpec
  import opened Parts
  import opened Split
  import opened WriterState
  import opened Merging
  import opened NodeReading
  import opened Normalizing

  /** `part` is subtree `t` overridden by the planned mutations, with exact books. */
  ghost predicate Rewritten(s: State, t: Tree, ps: seq<Planned>, s': State, part: Part) {
    && Apart(s') && Grown(s, s')
    && !part.Kept?
    && PartFlat(part) == Merge(Flat(t), ps)
    && PartShaped(part, Height(t))
    && PartLive(s', part)
    && Balanced(PagesOf(t), LedgerOf(s), PartPages(part), LedgerOf(s'))
    && s'.added == s.added + RefsOf(Puts(ps))
    && s'.dropped == s.dropped + RefsOf(Replaced(Flat(t), ps))
  }

  lemma {:induction false} CommittedLeaf(s: State, t: Tree)
    requires t.Leaf? && Committed(s, t)
    ensures CommittedEntries(s, t.entries) && t.id in s.base
  {
    assert PagesOf(t) == multiset{t.id} + ChainPages(t.entries);
    forall x: PageId ensures ChainPages(t.entries)[x] <= s.base[x] {
      assert PagesOf(t)[x] <= s.base[x];
    }
    assert s.base[t.id] >= PagesOf(t)[t.id];
  }

  /** A leaf: its page is freed, then its entries are merged. */
  lemma {:induction false} LeafRewritten(s: State, t: Tree, ps: seq<Planned>, s': State)
    requires Apart(s) && t.Leaf? && t.id in s.base && Merged(Freeing(s, t.id), s', t.entries, ps)
    ensures Rewritten(s, t, ps, s', LeafPart(Merge(t.entries, ps)))
  {
    hide Merge, Replaced, Puts, PartLive, LedgerOf, Balanced, Grown, Apart, ChainPages, RefsOf;
    var s1 := Freeing(s, t.id);
    FreeingBooks(s, t.id);
    GrownTransitive(s, s1, s');
    BalancedFree(t.id, ChainPages(t.entries), LedgerOf(s));
    BalancedTransitive(PagesOf(t), LedgerOf(s), ChainPages(t.entries), LedgerOf(s1), ChainPages(Merge(t.entries, ps)), LedgerOf(s'));
  }

  /** The first `i` children are done. */
  ghost predicate KidsDone(s: State, kids: seq<Tree>, i: nat, ps: seq<Planned>, s': State, parts: seq<Part>, height: nat) {
    && i <= |kids| && |parts| == i
    && Apart(s') && Grown(s, s')
    && PartsFlat(parts) == Merge(FlatAll(kids[..i]), ps)
    && PartsShaped(parts, height)
    && PartsLive(s', parts)
    && Balanced(PagesOfAll(kids[..i]), LedgerOf(s), PartsPages(parts), LedgerOf(s'))
    && s'.added == s.added + RefsOf(Puts(ps))
    && s'.dropped == s.dropped + RefsOf(Replaced(FlatAll(kids[..i]), ps))
  }

  lemma {:induction false} KidsStart(s: State, kids: seq<Tree>, height: nat)
    requires Apart(s)
    ensures KidsDone(s, kids, 0, [], s, [], height)
  {
    GrownReflexive(s);
    assert kids[..0] == [];
  }

  /** What processing child `i` with mutations planned as `qs` did. */
  ghost predicate KidDone(s: State, kid: Tree, qs: seq<Planned>, s': State, part: Part, height: nat) {
    && Apart(s') && Grown(s, s')
    && PartFlat(part) == Merge(Flat(kid), qs)
    && PartShaped(part, height)
    && PartLive(s', part)
    && Balanced(PagesOf(kid), LedgerOf(s), PartPages(part), LedgerOf(s'))
    && s'.added == s.added + RefsOf(Puts(qs))
    && s'.dropped == s.dropped + RefsOf(Replaced(Flat(kid), qs))
  }

  lemma {:induction false} KidRewritten(s: State, kid: Tree, qs: seq<Planned>, s': State, part: Part)
    requires Rewritten(s, kid, qs, s', part)
    ensures KidDone(s, kid, qs, s', part, Height(kid))
  {
    hide Merge, Replaced, Puts, PartLive, LedgerOf, Balanced, Grown, Apart, RefsOf, PartFlat, PartPages, PartShaped, Flat, PagesOf;
  }

  /** A child with no mutations is kept as it is. */
  lemma {:induction false} KidKept(s: State, kid: Tree)
    requires Apart(s) && Committed(s, kid) && Shaped(kid)
    ensures KidDone(s, kid, [], s, Kept(kid), Height(kid))
  {
    hide PartLive, LedgerOf, Apart, RefsOf, Flat, PagesOf, Shaped, Committed;
    GrownReflexive(s);
    CommittedIsLive(s, kid);
    MergeNothing(Flat(kid));
    NoEntries();
  }

  /** Mutations split where the next child starts. */
  lemma {:induction false} KidSplit(kids: seq<Tree>, height: nat, i: nat, ps: seq<Planned>, qs: seq<Planned>)
    requires i < |kids| && ShapedAll(kids, height) && Sorted(FlatAll(kids))
    requires i == 0 ==> ps == []
    requires PlannedBefore(ps, FirstKey(kids[i]))
    requires i > 0 ==> PlannedFrom(qs, FirstKey(kids[i]))
    ensures Merge(FlatAll(kids[..i + 1]), ps + qs) == Merge(FlatAll(kids[..i]), ps) + Merge(Flat(kids[i]), qs)
    ensures Replaced(FlatAll(kids[..i + 1]), ps + qs) == Replaced(FlatAll(kids[..i]), ps) + Replaced(Flat(kids[i]), qs)
  {
    hide Merge, Replaced, Less, FlatAll, Flat, FirstKey, Shaped, Sorted;
    var a, b := FlatAll(kids[..i]), Flat(kids[i]);
    assert kids[..i + 1] == kids[..i] + [kids[i]];
    FlatAllSnoc(kids[..i], kids[i]);
    if i == 0 {
      assert kids[..0] == [];
      NoTrees();
      MergeNothing([]);
      assert a + b == b && ps + qs == qs;
    } else {
      SortedKid(kids, i);
      FirstKeyIsFirst(kids[i]);
      KidBounds(a, b, FirstKey(kids[i]));
      MergeSplits(a, b, ps, qs, FirstKey(kids[i]));
    }
  }

  lemma {:induction false} NoTrees()
    ensures FlatAll([]) == []
  {
  }

  lemma {:induction false} KidBounds(a: seq<Entry>, b: seq<Entry>, k: Key)
    requires |b| > 0 && b[0].cell.key == k && Sorted(b)
    requires forall i, j :: 0 <= i < |a| && 0 <= j < |b| ==> Less(a[i].cell.key, b[j].cell.key)
    ensures EntriesBefore(a, k) && EntriesFrom(b, k)
  {
    hide Less;
    KeyOrder();
  }

  lemma {:induction false} PutsAppend(ps: seq<Planned>, qs: seq<Planned>)
    ensures Puts(ps + qs) == Puts(ps) + Puts(qs)
    decreases |ps|
  {
    if ps == [] {
      assert ps + qs == qs;
    } else {
      assert (ps + qs)[1..] == ps[1..] + qs;
      PutsAppend(ps[1..], qs);
    }
  }

  lemma {:induction false} KidsRefs(s: State, s1: State, s2: State, puts: seq<Entry>, puts': seq<Entry>, gone: seq<Entry>, gone': seq<Entry>)
    requires s1.added == s.added + RefsOf(puts) && s2.added == s1.added + RefsOf(puts')
    requires s1.dropped == s.dropped + RefsOf(gone) && s2.dropped == s1.dropped + RefsOf(gone')
    ensures s2.added == s.added + RefsOf(puts + puts') && s2.dropped == s.dropped + RefsOf(gone + gone')
  {
    hide RefsOf;
    RefsOfAppend(puts, puts');
    RefsOfAppend(gone, gone');
  }

  lemma {:induction false} KidsNext(s: State, kids: seq<Tree>, i: nat, ps: seq<Planned>, s1: State, parts: seq<Part>,
                                    qs: seq<Planned>, s2: State, part: Part, height: nat)
    requires i < |kids| && ShapedAll(kids, height) && Sorted(FlatAll(kids))
    requires Apart(s1) && KidsDone(s, kids, i, ps, s1, parts, height) && KidDone(s1, kids[i], qs, s2, part, height)
    requires i == 0 ==> ps == []
    requires PlannedBefore(ps, FirstKey(kids[i]))
    requires i > 0 ==> PlannedFrom(qs, FirstKey(kids[i]))
    ensures KidsDone(s, kids, i + 1, ps + qs, s2, parts + [part], height)
  {
    hide Merge, Replaced, Puts, PartLive, LedgerOf, Balanced, Grown, Apart, RefsOf, PartFlat, PartPages, PartShaped, Flat, FlatAll,
         PagesOf, PagesOfAll, PartsFlat, PartsPages, Shaped, Sorted, FirstKey, PlannedBefore, PlannedFrom;
    assert kids[..i + 1] == kids[..i] + [kids[i]];
    KidSplit(kids, height, i, ps, qs);
    PartsFlatAppend(parts, [part]);
    PartsPagesAppend(parts, [part]);
    OnePart(part);
    GrownTransitive(s, s1, s2);
    PartsStayLive(s1, s2, parts);
    PutsAppend(ps, qs);
    KidsRefs(s, s1, s2, Puts(ps), Puts(qs), Replaced(FlatAll(kids[..i]), ps), Replaced(Flat(kids[i]), qs));
    PagesOfAllSnoc(kids[..i], kids[i]);
    PackedAllBooks(PagesOfAll(kids[..i]), PagesOf(kids[i]), LedgerOf(s), PartsPages(parts), LedgerOf(s1), PartPages(part), LedgerOf(s2));
  }

  lemma {:induction false} CommittedNode(s: State, t: Tree)
    requires t.Node? && Committed(s, t)
    ensures t.id in s.base
  {
    assert t.id in PagesOf(t);
    assert s.base[t.id] >= PagesOf(t)[t.id];
  }

  /** An internal page: freed, its children processed, the result packed. */
  lemma {:induction false} NodeRewritten(s: State, t: Tree, ps: seq<Planned>, s1: State, parts: seq<Part>, s2: State, ts: seq<Tree>)
    requires Apart(s) && t.Node? && Shaped(t) && t.id in s.base
    requires KidsDone(Freeing(s, t.id), t.kids, |t.kids|, ps, s1, parts, t.level - 1)
    requires PackedAll(s1, parts, s2, ts, t.level - 1)
    requires s2.added == s1.added && s2.dropped == s1.dropped
    ensures Rewritten(s, t, ps, s2, InnerPart(t.level, ts))
  {
    hide Merge, Replaced, Puts, PartLive, LedgerOf, Balanced, Grown, Apart, RefsOf, FlatAll,
         PagesOfAll, PartsFlat, PartsPages, ShapedAll, PartsShaped, PartsLive;
    var s0 := Freeing(s, t.id);
    assert t.kids[..|t.kids|] == t.kids;
    FreeingBooks(s, t.id);
    GrownTransitive(s, s0, s1);
    GrownTransitive(s, s1, s2);
    BalancedFree(t.id, PagesOfAll(t.kids), LedgerOf(s));
    BalancedTransitive(PagesOf(t), LedgerOf(s), PagesOfAll(t.kids), LedgerOf(s0), PartsPages(parts), LedgerOf(s1));
    BalancedTransitive(PagesOf(t), LedgerOf(s), PartsPages(parts), LedgerOf(s1), PagesOfAll(ts), LedgerOf(s2));
  }

  // ---------- mutations routed to one child ----------

  lemma {:induction false} PlansAppend(ps: seq<Planned>, qs: seq<Planned>, muts: seq<Mutation>, a: nat, b: nat)
    requires a <= b <= |muts| && Plans(ps, muts[..a]) && Plans(qs, muts[a..b])
    ensures Plans(ps + qs, muts[..b])
  {
    assert muts[..b] == muts[..a] + muts[a..b];
  }

  lemma {:induction false} PlannedFollowMutations(ps: seq<Planned>, muts: seq<Mutation>)
    requires Plans(ps, muts) && MutationsSorted(muts) && (forall i :: 0 <= i < |ps| ==> WellKeyed(ps[i]))
    ensures PlannedSorted(ps)
  {
    forall i, j | 0 <= i < j < |ps| ensures Less(ps[i].key, ps[j].key) {
      assert ps[i].key == muts[i].key && ps[j].key == muts[j].key;
    }
  }

  lemma {:induction false} PlannedBeforeKid(ps: seq<Planned>, muts: seq<Mutation>, end: nat, k: Key)
    requires end <= |muts| && Plans(ps, muts[..end]) && forall m :: 0 <= m < end ==> Less(muts[m].key, k)
    ensures PlannedBefore(ps, k)
  {
    forall i | 0 <= i < |ps| ensures Less(ps[i].key, k) {
      assert ps[i].key == muts[..end][i].key;
    }
  }

  lemma {:induction false} PlannedFromKid(qs: seq<Planned>, muts: seq<Mutation>, start: nat, end: nat, k: Key)
    requires start <= end <= |muts| && Plans(qs, muts[start..end]) && forall m :: start <= m < |muts| ==> !Less(muts[m].key, k)
    ensures PlannedFrom(qs, k)
  {
    forall i | 0 <= i < |qs| ensures !Less(qs[i].key, k) {
      assert qs[i].key == muts[start..end][i].key;
    }
  }

  lemma {:induction false} MutationSlice(muts: seq<Mutation>, a: nat, b: nat)
    requires a <= b <= |muts| && MutationsSorted(muts) && AllStorable(muts)
    ensures MutationsSorted(muts[a..b]) && AllStorable(muts[a..b])
  {
  }
}
