/** Applying a mutation batch to a committed tree: the whole operation. */
module TreeApply {
  import opened Keys
  import opened Pages
  import opened MergeSpec
  import opened Fitting
  import opened Allocator
  import opened Parts
  import opened WriterState
  import opened Merging
  import opened Rewriting
  import opened RootFinishing
  import opened TreeWriting
  import opened PathCopying

  datatype BuiltTree = BuiltTree(root: PageId, images: map<PageId, Page>)

  /** A well-formed committed tree; root id 0 stands for no tree. */
  ghost predicate WellFormed(disk: map<PageId, Page>, root: PageId, tree: Option<Tree>) {
    if tree.None? then root == 0
    else
      && tree.value.id == root
      && ShapedRoot(tree.value)
      && Sorted(Flat(tree.value))
      && Spelled(disk, tree.value)
      && NoDuplicates(PagesOf(tree.value))
  }

  ghost function EntriesOf(tree: Option<Tree>): seq<Entry> {
    if tree.None? then [] else Flat(tree.value)
  }

  ghost function PagesIn(tree: Option<Tree>): multiset<PageId> {
    if tree.None? then multiset{} else PagesOf(tree.value)
  }

  /** The map a tree denotes. */
  ghost function Denoted(tree: Option<Tree>): map<Key, Value> {
    MapOf(EntriesOf(tree))
  }

  function HeightOf(tree: Option<Tree>): nat {
    if tree.None? then 0 else Height(tree.value)
  }

  /** External references held by a tree. */
  ghost function RefsIn(tree: Option<Tree>): multiset<PayloadRef> {
    multiset(RefsOf(EntriesOf(tree)))
  }

  /**
   * Exact page accounting for one commit: the old pages split into freed and shared
   * ones, the new tree is the shared pages plus the emitted images, and no image
   * overwrites a page of the old tree.
   */
  ghost predicate Conserves(before: multiset<PageId>, freed: multiset<PageId>, images: set<PageId>, after: multiset<PageId>) {
    && freed <= before
    && after == (before - freed) + multiset(images)
    && (forall x :: x in images ==> x !in before)
    && NoDuplicates(freed) && NoDuplicates(after)
    && (forall x :: x in freed ==> x !in after)
  }

  lemma {:induction false} LedgerConserves(base: multiset<PageId>, l0: Books, p: multiset<PageId>, l: Books, freed: multiset<PageId>, images: set<PageId>)
    requires Balanced(base, l0, p, l) && NoDuplicates(base)
    requires l0.emitted == multiset{} && l.emitted == multiset(images) && l.freed == l0.freed + freed
    requires forall x :: x in freed ==> x in base
    requires forall x :: x in images ==> x !in base
    ensures Conserves(base, freed, images, p)
  {
    forall x: PageId ensures p[x] + freed[x] == base[x] + multiset(images)[x] {
      assert (p + l.freed + l0.emitted)[x] == (base + l0.freed + l.emitted)[x];
    }
    forall x: PageId ensures freed[x] <= base[x] && p[x] == ((base - freed) + multiset(images))[x] && p[x] <= 1 {
      assert x in freed ==> x in base && x !in images;
    }
  }

  ghost function Refs(es: seq<Entry>): multiset<PayloadRef> {
    multiset(RefsOf(es))
  }

  lemma {:induction false} RefsJoin(a: seq<Entry>, b: seq<Entry>)
    ensures Refs(a + b) == Refs(a) + Refs(b)
  {
    RefsOfAppend(a, b);
  }

  lemma {:induction false} Carry(a: multiset<PayloadRef>, b: multiset<PayloadRef>, m: multiset<PayloadRef>, r: multiset<PayloadRef>, e: multiset<PayloadRef>, q: multiset<PayloadRef>)
    requires m + r == e + q
    ensures (a + m) + (b + r) == (b + e) + (a + q)
    ensures (a + m) + r == e + (a + q)
  {
    assert (a + m) + (b + r) == (a + b) + (m + r) == (a + b) + (e + q);
    assert (a + m) + r == a + (m + r) == a + (e + q);
  }

  /** External references are conserved by a merge: what it drops is what it replaces. */
  lemma {:induction false} RefsBalance(es: seq<Entry>, ps: seq<Planned>)
    ensures Refs(Merge(es, ps)) + Refs(Replaced(es, ps)) == Refs(es) + Refs(Puts(ps))
    decreases |es| + |ps|
  {
    hide RefsOf, Less, Refs;
    if ps != [] {
      var rest, put, none := ps[1..], PutOf(ps[0]), multiset{};
      RefsJoin(put, Puts(rest));
      if es == [] {
        RefsBalance(es, rest);
        RefsJoin(put, Merge(es, rest));
        Carry(Refs(put), none, Refs(Merge(es, rest)), Refs(Replaced(es, rest)), Refs(es), Refs(Puts(rest)));
        assert Replaced(es, ps) == Replaced(es, rest) && Merge(es, ps) == put + Merge(es, rest) && Puts(ps) == put + Puts(rest);
      } else {
        var tail, one := es[1..], [es[0]];
        assert es == one + tail;
        RefsJoin(one, tail);
        if Less(es[0].cell.key, ps[0].key) {
          RefsBalance(tail, ps);
          RefsJoin(one, Merge(tail, ps));
          assert (Refs(one) + Refs(Merge(tail, ps))) + Refs(Replaced(tail, ps)) == Refs(one) + (Refs(tail) + Refs(Puts(ps)));
        } else if es[0].cell.key == ps[0].key {
          RefsBalance(tail, rest);
          RefsJoin(put, Merge(tail, rest));
          RefsJoin(one, Replaced(tail, rest));
          Carry(Refs(put), Refs(one), Refs(Merge(tail, rest)), Refs(Replaced(tail, rest)), Refs(tail), Refs(Puts(rest)));
        } else {
          RefsBalance(es, rest);
          RefsJoin(put, Merge(es, rest));
          Carry(Refs(put), none, Refs(Merge(es, rest)), Refs(Replaced(es, rest)), Refs(es), Refs(Puts(rest)));
        }
      }
    } else {
      NoRefs();
    }
  }

  lemma {:induction false} NoRefs()
    ensures Refs([]) == multiset{}
  {
  }

  method CheckSorted(muts: seq<Mutation>) returns (sorted: bool)
    ensures sorted <==> MutationsSorted(muts)
  {
    var i := 1;
    while i < |muts|
      invariant 1 <= i
      invariant forall a, b :: 0 <= a < b < i && b < |muts| ==> Less(muts[a].key, muts[b].key)
    {
      if !Less(muts[i - 1].key, muts[i].key) {
        return false;
      }
      forall a | 0 <= a < i ensures Less(muts[a].key, muts[i].key) {
        if a < i - 1 {
          LessTransitive(muts[a].key, muts[i - 1].key, muts[i].key);
        }
      }
      i := i + 1;
    }
    return true;
  }

  /**
   * Copy-on-write application of sorted mutations. The new root denotes the old map
   * overridden by the mutations; the result is well formed; page accounting is exact.
   */
  method ApplyValueMutations(disk: map<PageId, Page>, root: PageId, muts: seq<Mutation>, alloc: PageAllocator, ghost tree: Option<Tree>)
    returns (r: Result<BuiltTree>, ghost tree': Option<Tree>)
    requires alloc.Valid() && WellFormed(disk, root, tree) && AllStorable(muts)
    requires forall x :: x in PagesIn(tree) ==> x > 0 && !alloc.Available(x)
    modifies alloc
    ensures r.Err? ==>
      || (r.error == UnsortedMutations && !MutationsSorted(muts))
      || (r.error == PageOverflow && !MutationsFit(muts))
      || (r.error == HeightLimit && !RoomFor(Override(Denoted(tree), muts), HeightOf(tree)))
    ensures r.Ok? ==> alloc.Valid() && alloc.nextPageId >= old(alloc.nextPageId) && MutationsSorted(muts) && MutationsFit(muts)
    ensures r.Ok? ==> WellFormed(disk + r.value.images, r.value.root, tree')
    ensures r.Ok? ==> Denoted(tree') == Override(Denoted(tree), muts)
    ensures r.Ok? ==> old(alloc.freed) <= alloc.freed
    ensures r.Ok? ==> Conserves(PagesIn(tree), multiset(alloc.freed[|old(alloc.freed)|..]), r.value.images.Keys, PagesIn(tree'))
    ensures r.Ok? ==> forall x :: x in PagesIn(tree') ==> x > 0 && !alloc.Available(x)
    ensures r.Ok? ==> forall x :: x in r.value.images <==> old(alloc.Available(x)) && !alloc.Available(x)
    ensures r.Ok? ==> forall x :: alloc.Available(x) ==> old(alloc.Available(x))
    // all other pages are shared: only these are ever freed
    ensures r.Ok? ==> forall x :: x in alloc.freed[|old(alloc.freed)|..] ==>
      (tree.Some? && Spends(tree.value, muts, x)) || OnlyBranch(disk, EntriesOf(tree'), x)
    ensures r.Ok? && muts == [] ==> r.value == BuiltTree(root, map[]) && tree' == tree
    ensures r.Ok? && muts != [] ==> tree'.Some?
    ensures r.Ok? ==> old(alloc.addedPayloadRefs) <= alloc.addedPayloadRefs && old(alloc.droppedPayloadRefs) <= alloc.droppedPayloadRefs
    ensures r.Ok? ==> alloc.addedPayloadRefs[|old(alloc.addedPayloadRefs)|..] == RefsGiven(muts)
    ensures r.Ok? ==>
      RefsIn(tree') + multiset(alloc.droppedPayloadRefs[|old(alloc.droppedPayloadRefs)|..])
      == RefsIn(tree) + multiset(alloc.addedPayloadRefs[|old(alloc.addedPayloadRefs)|..])
  {
    hide Spelled, Shaped, Sorted, Less, PagesOf, Flat, Merge, Replaced, Rewritten, Rooted, Known, MapOf, Override, Balanced, Conserves,
         Plans, PlannedSorted, LedgerOf, Apart, RefsOf, NoDuplicates, MutationsSorted, PartLive, Since, Fresh, PartShaped, PartFlat, PartPages, WellFormed, ShapedRoot, MutationsFit, AllFit, Roomy, RoomFor, Spends, OnlyBranch, OnlyGivesUp, Puts;
    tree' := tree;
    var sorted := CheckSorted(muts);
    if !sorted {
      return Err(UnsortedMutations), tree;
    }
    if muts == [] {
      NoMutationsFit();
      WellFormedFacts(disk, root, tree);
      var none: map<PageId, Page> := map[];
      assert none.Keys == {};
      NothingToDo(disk, alloc.freed, alloc.addedPayloadRefs, alloc.droppedPayloadRefs, tree);
      return Ok(BuiltTree(root, map[])), tree;
    }
    var writer := new TreeWriter(disk, alloc, PagesIn(tree));
    ghost var s0 := writer.St();
    WellFormedFacts(disk, root, tree);
    StartsFresh(s0, tree);
    RootIdPositive(disk, root, tree);
    var finished;
    ghost var t, ps;
    finished, t, ps := WriteTree(writer, root, muts, tree);
    if finished.Err? {
      return Err(finished.error), tree;
    }
    tree' := Some(t);
    r := Ok(BuiltTree(finished.value, writer.overflowImages + writer.freshPages));
    RootedApplies(s0, writer.St(), tree, ps, muts, t, r.value.images);
    SpentIsFreed(s0, writer.St(), tree, muts, t);
  }

  /**
   * What that means for a subtree that no mutation goes to: each of its pages is a page of the new
   * tree and not written again, but for its root beside almost nothing, or above all that is left.
   */
  lemma {:induction false} UntouchedIsShared(disk: map<PageId, Page>, tree: Tree, muts: seq<Mutation>, u: Tree,
                                             freed: multiset<PageId>, images: set<PageId>, tree': Option<Tree>, x: PageId)
    requires NoDuplicates(PagesOf(tree)) && Conserves(PagesOf(tree), freed, images, PagesIn(tree'))
    requires forall y :: y in freed ==> Spends(tree, muts, y) || OnlyBranch(disk, EntriesOf(tree'), y)
    requires Aside(tree, muts, u) && x in PagesOf(u)
    ensures x !in images
    ensures x in PagesIn(tree') || (x == u.id && AsideLittle(tree, muts, u)) || OnlyBranch(disk, EntriesOf(tree'), x)
  {
    hide PagesOf, Aside, AsideLittle, Spends, OnlyBranch, EntriesOf, NoDuplicates, PagesIn;
    AsideInside(tree, muts, u);
    assert x in PagesOf(tree) by { assert PagesOf(u)[x] <= PagesOf(tree)[x]; }
    if Spends(tree, muts, x) {
      AsideIsShared(tree, muts, u, x);
    }
  }

  /** What the writer gave up since: what the mutations reach, or roots with a single child. */
  ghost predicate OnlyGivesUp(s0: State, s: State, tree: Option<Tree>, muts: seq<Mutation>, es: seq<Entry>) {
    forall x :: x in Gone(s0, s) ==> (tree.Some? && Spends(tree.value, muts, x)) || OnlyBranch(s0.disk, es, x)
  }

  /** Rewrites a tree, or starts one, and finishes its root. */
  method WriteTree(writer: TreeWriter, root: PageId, muts: seq<Mutation>, ghost tree: Option<Tree>)
    returns (r: Result<PageId>, ghost t: Tree, ghost ps: seq<Planned>)
    requires writer.Valid() && Fresh(writer.St()) && writer.base == PagesIn(tree) && (root == 0 <==> tree.None?)
    requires WellFormed(writer.disk, root, tree) && MutationsSorted(muts) && AllStorable(muts)
    modifies writer, writer.alloc
    ensures r.Ok? ==> writer.Valid() && Plans(ps, muts) && PlannedSorted(ps) && MutationsFit(muts)
    ensures r.Ok? ==> r.value == t.id && ShapedRoot(t) && Rooted(old(writer.St()), writer.St(), Merge(EntriesOf(tree), ps), t)
    ensures r.Ok? ==> writer.alloc.addedPayloadRefs == old(writer.alloc.addedPayloadRefs) + RefsOf(Puts(ps))
    ensures r.Ok? ==> writer.alloc.droppedPayloadRefs == old(writer.alloc.droppedPayloadRefs) + RefsOf(Replaced(EntriesOf(tree), ps))
    ensures r.Ok? ==> OnlyGivesUp(old(writer.St()), writer.St(), tree, muts, Merge(EntriesOf(tree), ps))
    ensures r.Err? ==>
      || (r.error == PageOverflow && !MutationsFit(muts))
      || (r.error == HeightLimit && !RoomFor(Override(Denoted(tree), muts), HeightOf(tree)))
  {
    hide Spelled, Shaped, Sorted, Less, PagesOf, Flat, Merge, Replaced, Rewritten, Rooted, Known, MapOf, Override, Balanced, Puts,
         Plans, PlannedSorted, LedgerOf, Apart, RefsOf, NoDuplicates, MutationsSorted, PartLive, Since, Fresh, PartShaped, PartFlat, PartPages,
         WellFormed, ShapedRoot, MutationsFit, AllFit, Roomy, RoomFor, Gone, Spends, OnlyBranch, OneCommitted, OnlyGivesUp;
    ghost var s0 := writer.St();
    t := Leaf(0, []);
    WellFormedFacts(writer.disk, root, tree);
    var run;
    ghost var part;
    run, part, ps := RewriteRoot(writer, root, muts, tree);
    if run.Err? {
      return Err(run.error), t, ps;
    }
    ghost var s1 := writer.St();
    OneCommittedTree(writer.disk, root, tree);
    r, t := writer.FinishRoot(run.value, s0, part);
    EntriesFit(writer.disk, root, tree);
    MergeFitsIf(EntriesOf(tree), ps, muts);
    if r.Err? {
      NoRoom(tree, ps, muts);
      return r, t, ps;
    }
    FinishedFits(s0, writer.St(), Merge(EntriesOf(tree), ps), t);
    GivesUp(s0, s1, writer.St(), tree, muts, PartFlat(part));
  }

  lemma {:induction false} OneCommittedTree(disk: map<PageId, Page>, root: PageId, tree: Option<Tree>)
    requires WellFormed(disk, root, tree)
    ensures OneCommitted(disk, PagesIn(tree))
  {
    hide Spelled, PagesOf, Flat, Shaped, Sorted;
  }

  /** What rewriting and collapsing give up together. */
  lemma {:induction false} GivesUp(s0: State, s1: State, s2: State, tree: Option<Tree>, muts: seq<Mutation>, es: seq<Entry>)
    requires forall x :: x in Gone(s0, s1) ==> tree.Some? && Spends(tree.value, muts, x)
    requires forall x :: x in Gone(s1, s2) ==> OnlyBranch(s0.disk, es, x)
    ensures OnlyGivesUp(s0, s2, tree, muts, es)
  {
    hide Gone, Spends, OnlyBranch;
    forall x | x in Gone(s0, s2) ensures (tree.Some? && Spends(tree.value, muts, x)) || OnlyBranch(s0.disk, es, x) {
      GoneTwice(s0, s1, s2, x);
    }
  }

  lemma {:induction false} SpentIsFreed(s0: State, s: State, tree: Option<Tree>, muts: seq<Mutation>, t: Tree)
    requires s0.freed <= s.freed && OnlyGivesUp(s0, s, tree, muts, EntriesOf(Some(t)))
    ensures forall x :: x in s.freed[|s0.freed|..] ==> (tree.Some? && Spends(tree.value, muts, x)) || OnlyBranch(s0.disk, EntriesOf(Some(t)), x)
  {
    hide Gone, Spends, OnlyBranch, LedgerOf;
    FreedGrows(s0, s);
    forall x | x in s.freed[|s0.freed|..] ensures (tree.Some? && Spends(tree.value, muts, x)) || OnlyBranch(s0.disk, EntriesOf(Some(t)), x) {
      assert x in multiset(s.freed[|s0.freed|..]);
    }
  }

  lemma {:induction false} EntriesFit(disk: map<PageId, Page>, root: PageId, tree: Option<Tree>)
    requires WellFormed(disk, root, tree)
    ensures AllFit(EntriesOf(tree))
  {
    hide Spelled, PagesOf, Sorted, AllFit, Shaped;
    if tree.None? {
      NothingFits();
    } else {
      ShapedFits(tree.value);
    }
  }

  /**
   * Builds a tree from rows given as puts. Unlike applying a batch to no tree, this makes a
   * tree even of no rows.
   */
  method BuildTree(entries: seq<Mutation>, alloc: PageAllocator) returns (r: Result<BuiltTree>, ghost t: Tree)
    requires alloc.Valid() && AllStorable(entries)
    modifies alloc
    ensures r.Err? ==>
      || (r.error == UnsortedMutations && !MutationsSorted(entries))
      || (r.error == PageOverflow && !MutationsFit(entries))
      || (r.error == HeightLimit && !RoomFor(Override(map[], entries), 0))
    ensures r.Ok? ==> alloc.Valid() && alloc.nextPageId >= old(alloc.nextPageId) && MutationsSorted(entries) && MutationsFit(entries)
    ensures r.Ok? ==> WellFormed(r.value.images, r.value.root, Some(t)) && Denoted(Some(t)) == Override(map[], entries)
    ensures r.Ok? ==> alloc.freed == old(alloc.freed) && PagesIn(Some(t)) == multiset(r.value.images.Keys)
    ensures r.Ok? ==> forall x :: x in r.value.images ==> x > 0
    ensures r.Ok? ==> forall x :: x in r.value.images <==> old(alloc.Available(x)) && !alloc.Available(x)
    ensures r.Ok? ==> forall x :: alloc.Available(x) ==> old(alloc.Available(x))
    ensures r.Ok? ==> alloc.addedPayloadRefs == old(alloc.addedPayloadRefs) + RefsGiven(entries) && alloc.droppedPayloadRefs == old(alloc.droppedPayloadRefs)
    ensures r.Ok? ==> RefsIn(Some(t)) == multiset(RefsGiven(entries))
  {
    hide Spelled, Shaped, Sorted, Less, PagesOf, Flat, Merge, Replaced, Rewritten, Rooted, Known, MapOf, Override, Balanced, Conserves,
         Plans, PlannedSorted, LedgerOf, Apart, RefsOf, NoDuplicates, MutationsSorted, PartLive, Since, Fresh, PartShaped, PartFlat, PartPages, WellFormed, ShapedRoot, MutationsFit, AllFit, Roomy, RoomFor;
    t := Leaf(0, []);
    var sorted := CheckSorted(entries);
    if !sorted {
      return Err(UnsortedMutations), t;
    }
    NoTreeYet();
    var writer := new TreeWriter(map[], alloc, multiset{});
    ghost var s0 := writer.St();
    StartsFresh(s0, None);
    var root;
    ghost var ps;
    root, t, ps := WriteTree(writer, 0, entries, None);
    if root.Err? {
      return Err(root.error), t;
    }
    r := Ok(BuiltTree(root.value, writer.overflowImages + writer.freshPages));
    RootedApplies(s0, writer.St(), None, ps, entries, t, r.value.images);
    OnlyImages(s0.freed, alloc.freed, r.value.images, PagesIn(Some(t)));
    NothingReplaced(ps);
    OnlyAdded(s0.added, alloc.addedPayloadRefs, s0.dropped, alloc.droppedPayloadRefs, RefsGiven(entries), RefsIn(Some(t)));
  }

  lemma {:induction false} NoTreeYet()
    ensures WellFormed(map[], 0, None) && Denoted(None) == map[] && AllFit([]) && Sorted(EntriesOf(None))
  {
  }

  /** Without an old tree nothing can be freed. */
  lemma {:induction false} OnlyImages(f0: seq<PageId>, f: seq<PageId>, images: map<PageId, Page>, pages: multiset<PageId>)
    requires f0 <= f && Conserves(multiset{}, multiset(f[|f0|..]), images.Keys, pages)
    ensures f == f0 && pages == multiset(images.Keys) && map[] + images == images
  {
    var suffix := f[|f0|..];
    assert multiset(suffix) == multiset{} && |multiset(suffix)| == |suffix|;
    assert f == f0 + suffix;
  }

  lemma {:induction false} OnlyAdded(a0: seq<PayloadRef>, a: seq<PayloadRef>, d0: seq<PayloadRef>, d: seq<PayloadRef>, given: seq<PayloadRef>, refs: multiset<PayloadRef>)
    requires a0 <= a && d == d0 && a[|a0|..] == given
    requires refs + multiset(d[|d0|..]) == multiset{} + multiset(a[|a0|..])
    ensures a == a0 + given && refs == multiset(given)
  {
    assert a == a0 + a[|a0|..];
    var suffix := d[|d0|..];
    assert suffix == [] && refs + multiset(suffix) == refs;
  }

  lemma {:induction false} NothingReplaced(ps: seq<Planned>)
    ensures Replaced(EntriesOf(None), ps) == [] && RefsOf([]) == []
  {
  }

  lemma {:induction false} FinishedFits(s0: State, s: State, es: seq<Entry>, t: Tree)
    requires Rooted(s0, s, es, t) && ShapedRoot(t)
    ensures AllFit(es)
  {
    hide Spelled, PagesOf, Sorted, AllFit, Shaped, Known, Apart, Balanced, Since;
    ShapedFits(t);
  }

  /** Where the merged contents have room, so has the map. */
  lemma {:induction false} NoRoom(tree: Option<Tree>, ps: seq<Planned>, muts: seq<Mutation>)
    requires Sorted(EntriesOf(tree)) && MutationsSorted(muts) && Plans(ps, muts) && PlannedSorted(ps)
    ensures var es := Merge(EntriesOf(tree), ps);
            RoomFor(Override(Denoted(tree), muts), HeightOf(tree)) ==> Roomy(es, |es|, HeightOf(tree))
  {
    hide Sorted, MutationsSorted, Plans, PlannedSorted, Merge, MapOf, Override, Roomy, RoomFor, Flat;
    var es := Merge(EntriesOf(tree), ps);
    MergeSorted(EntriesOf(tree), ps);
    MergeIsOverride(EntriesOf(tree), ps, muts);
    if RoomFor(MapOf(es), HeightOf(tree)) {
      RoomIsRoomy(es, HeightOf(tree));
    }
  }

  lemma {:induction false} NoMutationsFit()
    ensures MutationsFit([])
  {
  }

  /** A finished root over the merged entries is what applying the mutations promises. */
  lemma {:induction false} RootedApplies(s0: State, s: State, tree: Option<Tree>, ps: seq<Planned>, muts: seq<Mutation>, t: Tree, images: map<PageId, Page>)
    requires Fresh(s0) && LedgerOf(s0).emitted == multiset{} && s0.base == PagesIn(tree) && Sorted(EntriesOf(tree))
    requires MutationsSorted(muts) && Plans(ps, muts) && PlannedSorted(ps)
    requires Rooted(s0, s, Merge(EntriesOf(tree), ps), t) && ShapedRoot(t) && images == s.overflowImages + s.freshPages
    requires s.added == s0.added + RefsOf(Puts(ps)) && s.dropped == s0.dropped + RefsOf(Replaced(EntriesOf(tree), ps))
    ensures WellFormed(s.disk + images, t.id, Some(t)) && Denoted(Some(t)) == Override(Denoted(tree), muts) && EntriesOf(Some(t)) == Merge(EntriesOf(tree), ps)
    ensures s0.freed <= s.freed && Conserves(PagesIn(tree), multiset(s.freed[|s0.freed|..]), images.Keys, PagesIn(Some(t)))
    ensures forall x :: x in PagesIn(Some(t)) ==> Known(s, x)
    ensures forall x :: x in images ==> Known(s, x) && (x in s.freshPages || x in s.overflowImages)
    ensures s0.added <= s.added && s0.dropped <= s.dropped && s.added[|s0.added|..] == RefsGiven(muts)
    ensures RefsIn(Some(t)) + multiset(s.dropped[|s0.dropped|..]) == RefsIn(tree) + multiset(s.added[|s0.added|..])
  {
    hide Spelled, Shaped, Sorted, PagesOf, Flat, Merge, Replaced, Rooted, Known, MapOf, Override, Conserves,
         Plans, PlannedSorted, LedgerOf, RefsOf, NoDuplicates, MutationsSorted, Fresh;
    ViewIs(s, images);
    MergeSorted(EntriesOf(tree), ps);
    MergeIsOverride(EntriesOf(tree), ps, muts);
    RootedConserves(s0, s, Merge(EntriesOf(tree), ps), t, images);
    RefsBalance(EntriesOf(tree), ps);
    PutRefs(ps, muts);
    SuffixIs(s0.added, s.added, RefsOf(Puts(ps)));
    SuffixIs(s0.dropped, s.dropped, RefsOf(Replaced(EntriesOf(tree), ps)));
  }

  /** The merged contents of the whole tree, before they are packed under a root. */
  ghost predicate Remade(s0: State, tree: Option<Tree>, ps: seq<Planned>, s: State, part: Part) {
    && Since(s0, s) && PartLive(s, part) && !part.Kept? && PartShaped(part, RunLevel(RunOf(part)))
    && PartFlat(part) == Merge(EntriesOf(tree), ps)
    && Balanced(s0.base, LedgerOf(s0), PartPages(part), LedgerOf(s))
    && s.added == s0.added + RefsOf(Puts(ps)) && s.dropped == s0.dropped + RefsOf(Replaced(EntriesOf(tree), ps))
  }

  method RewriteRoot(writer: TreeWriter, root: PageId, muts: seq<Mutation>, ghost tree: Option<Tree>)
    returns (r: Result<Run>, ghost part: Part, ghost ps: seq<Planned>)
    requires writer.Valid() && Fresh(writer.St()) && writer.base == PagesIn(tree) && (root == 0 <==> tree.None?)
    requires WellFormed(writer.disk, root, tree) && MutationsSorted(muts) && AllStorable(muts)
    modifies writer, writer.alloc
    ensures r.Ok? ==> writer.Valid() && Plans(ps, muts) && PlannedSorted(ps) && !part.Kept? && r.value == RunOf(part)
    ensures r.Ok? ==> Remade(old(writer.St()), tree, ps, writer.St(), part) && RunLevel(r.value) == HeightOf(tree)
    ensures r.Ok? ==> forall x :: x in Gone(old(writer.St()), writer.St()) ==> tree.Some? && Spends(tree.value, muts, x)
    ensures r.Err? ==> r.error == PageOverflow && !MutationsFit(muts)
  {
    hide Spelled, Shaped, Sorted, Less, PagesOf, Flat, Merge, Replaced, Rewritten, Known, Balanced, AllStorable, Fresh, Since,
         Plans, PlannedSorted, LedgerOf, Apart, RefsOf, Merged, NoDuplicates, MutationsSorted, PartLive, CommittedEntries, ReadAs, MutationsFit, Gone, Spends;
    ghost var s0 := writer.St();
    if root == 0 {
      var cells;
      NoEntriesCommitted(s0, muts);
      cells, ps := writer.MergeLeaf([], muts, []);
      r, part := Ok(LeafRun(cells)), LeafPart(Merge([], ps));
      MergedPart(s0, writer.St(), ps);
      NothingGone(s0, writer.St(), ps);
    } else {
      RootCommitted(s0, tree.value);
      r, part, ps := writer.Rewrite(root, None, muts, tree.value);
      if r.Ok? {
        RewrittenPart(s0, tree.value, ps, writer.St(), part);
      }
    }
  }

  lemma {:induction false} NothingGone(s: State, s': State, ps: seq<Planned>)
    requires Merged(s, s', [], ps)
    ensures Gone(s, s') == multiset{}
  {
    hide Merge, Puts, PartLive, Grown, Apart;
    assert Replaced([], ps) == [] && ChainPages([]) == multiset{};
  }

  /** The external references that mutations name, in order. */
  function RefsGiven(muts: seq<Mutation>): seq<PayloadRef> {
    if muts == [] then []
    else (if muts[0].value.Some? && muts[0].value.value.ByReference? then [muts[0].value.value.reference] else []) + RefsGiven(muts[1..])
  }

  lemma {:induction false} PutRefs(ps: seq<Planned>, muts: seq<Mutation>)
    requires Plans(ps, muts)
    ensures RefsOf(Puts(ps)) == RefsGiven(muts)
    decreases |ps|
  {
    hide Storable, LeafCellCost, MutationCost;
    if ps != [] {
      PutRefs(ps[1..], muts[1..]);
      RefsOfAppend(PutOf(ps[0]), Puts(ps[1..]));
      PutRef(ps[0], muts[0]);
    }
  }

  lemma {:induction false} PutRef(p: Planned, m: Mutation)
    requires p.entry.Some? <==> m.value.Some?
    requires p.entry.Some? ==> Written(p.entry.value.cell, m)
    ensures RefsOf(PutOf(p)) == if m.value.Some? && m.value.value.ByReference? then [m.value.value.reference] else []
  {
    assert RefsOf([]) == [];
    if p.entry.Some? {
      assert PutOf(p)[1..] == [];
    }
  }

  lemma {:induction false} SuffixIs(a: seq<PayloadRef>, b: seq<PayloadRef>, c: seq<PayloadRef>)
    requires b == a + c
    ensures a <= b && b[|a|..] == c
  {
  }

  lemma {:induction false} StartsFresh(s0: State, tree: Option<Tree>)
    requires s0.base == PagesIn(tree) && s0.freshPages == map[] && s0.overflowImages == map[]
    requires tree.Some? ==> NoDuplicates(PagesOf(tree.value))
    ensures Fresh(s0) && Since(s0, s0) && LedgerOf(s0).emitted == multiset{}
    ensures Balanced(s0.base, LedgerOf(s0), s0.base, LedgerOf(s0))
  {
    hide PagesOf;
  }

  lemma {:induction false} WellFormedFacts(disk: map<PageId, Page>, root: PageId, tree: Option<Tree>)
    requires WellFormed(disk, root, tree)
    ensures Sorted(EntriesOf(tree)) && (tree.Some? ==> NoDuplicates(PagesOf(tree.value)))
  {
    hide Spelled, PagesOf, Flat, Shaped, Less;
  }

  lemma {:induction false} RootIdPositive(disk: map<PageId, Page>, root: PageId, tree: Option<Tree>)
    requires WellFormed(disk, root, tree)
    ensures root == 0 <==> tree.None?
  {
    hide Spelled, PagesOf, Flat, Sorted;
  }

  lemma {:induction false} NoEntriesCommitted(s0: State, muts: seq<Mutation>)
    ensures CommittedEntries(s0, []) && ReadAs([], [], muts) && Sorted([])
  {
  }

  lemma {:induction false} MergedPart(s0: State, s: State, ps: seq<Planned>)
    requires Merged(s0, s, [], ps) && s0.base == multiset{} && Fresh(s0)
    ensures PartLive(s, LeafPart(Merge([], ps))) && Since(s0, s)
    ensures Balanced(s0.base, LedgerOf(s0), PartPages(LeafPart(Merge([], ps))), LedgerOf(s))
    ensures s.added == s0.added + RefsOf(Puts(ps)) && s.dropped == s0.dropped + RefsOf(Replaced([], ps))
  {
    hide Merge, PartLive, LedgerOf, Balanced;
    assert ChainPages([]) == multiset{};
  }

  lemma {:induction false} RootCommitted(s0: State, t: Tree)
    requires Spelled(s0.disk, t) && s0.base == PagesOf(t) && ShapedRoot(t)
    ensures Committed(s0, t) && (Shaped(t) || t.Leaf?)
  {
    hide Spelled, Shaped, PagesOf;
  }

  lemma {:induction false} RewrittenPart(s0: State, t: Tree, ps: seq<Planned>, s: State, part: Part)
    requires Rewritten(s0, t, ps, s, part) && s0.base == PagesOf(t) && Fresh(s0)
    ensures PartLive(s, part) && Since(s0, s) && PartShaped(part, Height(t)) && !part.Kept?
    ensures RunLevel(RunOf(part)) == Height(t)
    ensures PartFlat(part) == Merge(Flat(t), ps)
    ensures Balanced(s0.base, LedgerOf(s0), PartPages(part), LedgerOf(s))
    ensures s.added == s0.added + RefsOf(Puts(ps)) && s.dropped == s0.dropped + RefsOf(Replaced(Flat(t), ps))
  {
    hide Merge, PartLive, LedgerOf, Balanced, PagesOf, Flat, ShapedAll, PartFlat, PartPages;
    assert RunLevel(RunOf(part)) == Height(t);
  }

  lemma {:induction false} ViewIs(s: State, images: map<PageId, Page>)
    requires images == s.overflowImages + s.freshPages
    ensures s.disk + images == ViewOf(s)
    ensures forall x :: x in images ==> Known(s, x) && (x in s.freshPages || x in s.overflowImages)
  {
  }

  lemma {:induction false} DisjointUnion(a: set<PageId>, b: set<PageId>)
    requires a !! b
    ensures multiset(a + b) == multiset(a) + multiset(b)
  {
  }

  lemma {:induction false} EmittedIs(s: State, images: map<PageId, Page>)
    requires Apart(s) && images == s.overflowImages + s.freshPages
    ensures LedgerOf(s).emitted == multiset(images.Keys)
    ensures forall x :: x in images ==> x !in s.base
  {
    var f, o := s.freshPages.Keys, s.overflowImages.Keys;
    assert images.Keys == f + o;
    DisjointUnion(f, o);
  }

  lemma {:induction false} FreedIs(s0: State, s: State)
    requires Since(s0, s)
    ensures LedgerOf(s).freed == LedgerOf(s0).freed + multiset(s.freed[|s0.freed|..])
    ensures forall x :: x in multiset(s.freed[|s0.freed|..]) ==> x in s0.base
  {
    var tail := s.freed[|s0.freed|..];
    assert s.freed == s0.freed + tail;
    forall x | x in multiset(tail) ensures x in s0.base {
      assert x in tail;
      var i :| 0 <= i < |tail| && tail[i] == x;
      assert s.freed[|s0.freed| + i] == x;
    }
  }

  lemma {:induction false} RootedConserves(s0: State, s: State, es: seq<Entry>, t: Tree, images: map<PageId, Page>)
    requires Fresh(s0) && Rooted(s0, s, es, t) && images == s.overflowImages + s.freshPages && LedgerOf(s0).emitted == multiset{}
    ensures s0.freed <= s.freed
    ensures Conserves(s0.base, multiset(s.freed[|s0.freed|..]), images.Keys, PagesOf(t))
    ensures NoDuplicates(PagesOf(t)) && Flat(t) == es && Spelled(ViewOf(s), t)
    ensures forall x :: x in PagesOf(t) ==> Known(s, x)
  {
    hide PagesOf, Spelled, Flat, LedgerOf, Known, Balanced, Apart, Conserves, ViewOf;
    EmittedIs(s, images);
    FreedIs(s0, s);
    RootedOnce(s0, s, es, t);
    LedgerConserves(s0.base, LedgerOf(s0), PagesOf(t), LedgerOf(s), multiset(s.freed[|s0.freed|..]), images.Keys);
  }

  lemma {:induction false} NothingToDo(disk: map<PageId, Page>, freed: seq<PageId>, added: seq<PayloadRef>, dropped: seq<PayloadRef>, tree: Option<Tree>)
    requires tree.Some? ==> NoDuplicates(PagesOf(tree.value))
    ensures disk + map[] == disk
    ensures Conserves(PagesIn(tree), multiset(freed[|freed|..]), {}, PagesIn(tree))
    ensures Override(Denoted(tree), []) == Denoted(tree)
    ensures multiset(added[|added|..]) == multiset{} == multiset(dropped[|dropped|..])
  {
    hide PagesOf;
    assert freed[|freed|..] == [];
    var none: set<PageId> := {};
    assert multiset(none) == multiset{};
  }
}
