/** Leaf merging one mutation at a time, as steps on writer states. */
module Merging {
  import opened Keys
  import opened Pages
  import opened MergeSpec
  import opened Parts
  import opened WriterState

  /** External references held by entries, in order. */
  function RefsOf(es: seq<Entry>): seq<PayloadRef> {
    if es == [] then []
    else (if es[0].cell.External? then [es[0].cell.reference] else []) + RefsOf(es[1..])
  }

  lemma {:induction false} RefsOfAppend(a: seq<Entry>, b: seq<Entry>)
    ensures RefsOf(a + b) == RefsOf(a) + RefsOf(b)
    decreases |a|
  {
    if a == [] {
      assert a + b == b;
    } else {
      assert (a + b)[0] == a[0] && (a + b)[1..] == a[1..] + b;
      RefsOfAppend(a[1..], b);
    }
  }

  /** A cell about to be replaced is read without its inline bytes. */
  function Blank(c: LeafCell): LeafCell {
    if c.Inline? then c.(value := []) else c
  }

  predicate Mutated(muts: seq<Mutation>, k: Key) {
    exists i :: 0 <= i < |muts| && muts[i].key == k
  }

  ghost predicate ReadAs(cells: seq<LeafCell>, es: seq<Entry>, muts: seq<Mutation>) {
    && |cells| == |es|
    && forall i :: 0 <= i < |es| ==>
         cells[i] == es[i].cell || (Mutated(muts, es[i].cell.key) && cells[i] == Blank(es[i].cell))
  }

  /** Entries of the committed tree. */
  ghost predicate CommittedEntries(s: State, es: seq<Entry>) {
    EntriesSpelled(s.disk, es) && ChainPages(es) <= s.base
  }

  /** The writer state after the first `m` mutations and `e` existing entries have been merged. */
  ghost predicate Merging(s0: State, s: State, es: seq<Entry>, muts: seq<Mutation>, ps: seq<Planned>, e: nat, m: nat) {
    && e <= |es| && m <= |muts|
    && Plans(ps, muts[..m]) && PlannedSorted(ps)
    && (forall i, j :: 0 <= i < e && m <= j < |muts| ==> Less(es[i].cell.key, muts[j].key))
    && (forall i, j :: e <= i < |es| && 0 <= j < m ==> Less(muts[j].key, es[i].cell.key))
    && Apart(s) && Grown(s0, s)
    && PartLive(s, LeafPart(Puts(ps)))
    && LedgerOf(s).freed == LedgerOf(s0).freed + ChainPages(Replaced(es[..e], ps))
    && LedgerOf(s).emitted == LedgerOf(s0).emitted + ChainPages(Puts(ps))
    && s.added == s0.added + RefsOf(Puts(ps))
    && s.dropped == s0.dropped + RefsOf(Replaced(es[..e], ps))
  }

  lemma {:induction false} MergingStart(s0: State, es: seq<Entry>, muts: seq<Mutation>)
    requires Apart(s0)
    ensures Merging(s0, s0, es, muts, [], 0, 0) && CellsOf(Merge(es[..0], [])) == []
  {
    GrownReflexive(s0);
  }

  // ---------- an existing entry passes through ----------

  lemma {:induction false} MergeTakes(es: seq<Entry>, ps: seq<Planned>, e: nat)
    requires e < |es| && Sorted(es)
    requires forall j :: 0 <= j < |ps| ==> Less(ps[j].key, es[e].cell.key)
    ensures Merge(es[..e + 1], ps) == Merge(es[..e], ps) + [es[e]]
    ensures Replaced(es[..e + 1], ps) == Replaced(es[..e], ps)
  {
    hide Less, Merge, Replaced;
    KeyOrder();
    assert es[..e + 1] == es[..e] + [es[e]];
    assert ps + [] == ps;
    MergeSplits(es[..e], [es[e]], ps, [], es[e].cell.key);
    MergeNothing([es[e]]);
  }

  lemma {:induction false} MergingKeep(s0: State, s: State, es: seq<Entry>, muts: seq<Mutation>, ps: seq<Planned>, e: nat, m: nat)
    requires Merging(s0, s, es, muts, ps, e, m) && Sorted(es) && MutationsSorted(muts)
    requires e < |es| && m < |muts| && Less(es[e].cell.key, muts[m].key)
    ensures Merging(s0, s, es, muts, ps, e + 1, m)
    ensures Merge(es[..e + 1], ps) == Merge(es[..e], ps) + [es[e]]
  {
    hide Less, Merge, Replaced, Apart, Grown, PartLive, LedgerOf, ChainPages, Puts, RefsOf, PlannedSorted;
    KeyOrder();
    MergeTakes(es, ps, e);
  }

  // ---------- a mutation is applied ----------

  lemma {:induction false} MergeApplies(es: seq<Entry>, ps: seq<Planned>, e: nat, p: Planned, hit: bool)
    requires e <= |es| && (hit ==> e < |es| && es[e].cell.key == p.key)
    requires forall i :: 0 <= i < e ==> Less(es[i].cell.key, p.key)
    requires forall j :: 0 <= j < |ps| ==> Less(ps[j].key, p.key)
    ensures var e' := if hit then e + 1 else e;
            && Merge(es[..e'], ps + [p]) == Merge(es[..e], ps) + PutOf(p)
            && Replaced(es[..e'], ps + [p]) == Replaced(es[..e], ps) + (if hit then [es[e]] else [])
  {
    hide Less, Merge, Replaced, PutOf;
    LessIrreflexive(p.key);
    if hit {
      assert es[..e + 1] == es[..e] + [es[e]];
      MergeSplits(es[..e], [es[e]], ps, [p], p.key);
      MergeReplace(es[e], [], p, []);
      assert [es[e]] + [] == [es[e]] && [p] + [] == [p];
      MergeNothing([]);
    } else {
      assert es[..e] + [] == es[..e];
      MergeSplits(es[..e], [], ps, [p], p.key);
      MergeInsert([], p, []);
      assert [p] + [] == [p];
      MergeNothing([]);
    }
  }

  lemma {:induction false} PutsSnoc(ps: seq<Planned>, p: Planned)
    ensures Puts(ps + [p]) == Puts(ps) + PutOf(p)
    decreases |ps|
  {
    if ps == [] {
      assert ps + [p] == [p] && Puts([p]) == PutOf(p) + Puts([]);
    } else {
      assert (ps + [p])[1..] == ps[1..] + [p];
      PutsSnoc(ps[1..], p);
    }
  }

  /** Effects of releasing `gone` and writing `put`, for one mutation. */
  ghost predicate Applied(s: State, s': State, gone: seq<Entry>, put: seq<Entry>) {
    && Apart(s') && Grown(s, s')
    && PartLive(s', LeafPart(put))
    && LedgerOf(s').freed == LedgerOf(s).freed + ChainPages(gone)
    && LedgerOf(s').emitted == LedgerOf(s).emitted + ChainPages(put)
    && s'.added == s.added + RefsOf(put)
    && s'.dropped == s.dropped + RefsOf(gone)
  }

  lemma {:induction false} LiveAppend(s: State, a: seq<Entry>, b: seq<Entry>)
    requires PartLive(s, LeafPart(a)) && PartLive(s, LeafPart(b))
    ensures PartLive(s, LeafPart(a + b))
  {
    hide Known, ChainPages, EntrySpelled, ViewOf;
    ChainPagesAppend(a, b);
    forall x | x in ChainPages(a + b) ensures Known(s, x) {
      assert x in ChainPages(a) || x in ChainPages(b);
    }
  }

  lemma {:induction false} MergingApply(s0: State, s: State, s': State, es: seq<Entry>, muts: seq<Mutation>, ps: seq<Planned>, e: nat, m: nat, p: Planned, hit: bool)
    requires Merging(s0, s, es, muts, ps, e, m) && Sorted(es) && MutationsSorted(muts)
    requires m < |muts| && WellKeyed(p) && Plans([p], [muts[m]])
    requires hit ==> e < |es| && es[e].cell.key == p.key
    requires !hit ==> e == |es| || (!Less(es[e].cell.key, p.key) && es[e].cell.key != p.key)
    requires Apart(s) && Applied(s, s', if hit then [es[e]] else [], PutOf(p))
    ensures Merging(s0, s', es, muts, ps + [p], if hit then e + 1 else e, m + 1)
    ensures Merge(es[..if hit then e + 1 else e], ps + [p]) == Merge(es[..e], ps) + PutOf(p)
  {
    hide Less, Merge, Replaced, PutOf, Puts, Apart, Grown, PartLive, LedgerOf, ChainPages, RefsOf, PlannedSorted;
    var e' := if hit then e + 1 else e;
    var gone := if hit then [es[e]] else [];
    PlansSnoc(ps, muts, m, p);
    MergingOrder(es, muts, ps, e, m, p, hit);
    MergeApplies(es, ps, e, p, hit);
    PutsSnoc(ps, p);
    MergingBooks(s0, s, s', Replaced(es[..e], ps), gone, Puts(ps), PutOf(p));
    GrownTransitive(s0, s, s');
    PartStaysLive(s, s', LeafPart(Puts(ps)));
    LiveAppend(s', Puts(ps), PutOf(p));
  }

  lemma {:induction false} PlansSnoc(ps: seq<Planned>, muts: seq<Mutation>, m: nat, p: Planned)
    requires m < |muts| && Plans(ps, muts[..m]) && Plans([p], [muts[m]])
    ensures Plans(ps + [p], muts[..m + 1]) && p.key == muts[m].key
  {
    assert muts[..m + 1] == muts[..m] + [muts[m]];
    assert [p][0] == p && [muts[m]][0] == muts[m];
  }

  lemma {:induction false} MergingOrder(es: seq<Entry>, muts: seq<Mutation>, ps: seq<Planned>, e: nat, m: nat, p: Planned, hit: bool)
    requires e <= |es| && m < |muts|
    requires Sorted(es) && MutationsSorted(muts) && PlannedSorted(ps) && Plans(ps, muts[..m])
    requires WellKeyed(p) && p.key == muts[m].key
    requires forall i, j :: 0 <= i < e && m <= j < |muts| ==> Less(es[i].cell.key, muts[j].key)
    requires forall i, j :: e <= i < |es| && 0 <= j < m ==> Less(muts[j].key, es[i].cell.key)
    requires hit ==> e < |es| && es[e].cell.key == p.key
    requires !hit ==> e == |es| || (!Less(es[e].cell.key, p.key) && es[e].cell.key != p.key)
    ensures PlannedSorted(ps + [p])
    ensures forall j :: 0 <= j < |ps| ==> Less(ps[j].key, p.key)
    ensures var e' := if hit then e + 1 else e;
      && (forall i, j :: 0 <= i < e' && m + 1 <= j < |muts| ==> Less(es[i].cell.key, muts[j].key))
      && (forall i, j :: e' <= i < |es| && 0 <= j < m + 1 ==> Less(muts[j].key, es[i].cell.key))
  {
    hide Less;
    KeyOrder();
    var e' := if hit then e + 1 else e;
    forall j | 0 <= j < |ps| ensures Less(ps[j].key, p.key) {
      assert ps[j].key == muts[..m][j].key == muts[j].key;
    }
    forall i | e' <= i < |es| ensures Less(p.key, es[i].cell.key) {
      if i > e {
        assert Less(es[e].cell.key, es[i].cell.key);
      }
    }
  }

  lemma {:induction false} MergingBooks(s0: State, s: State, s': State, gone0: seq<Entry>, gone: seq<Entry>, put0: seq<Entry>, put: seq<Entry>)
    requires LedgerOf(s).freed == LedgerOf(s0).freed + ChainPages(gone0) && LedgerOf(s').freed == LedgerOf(s).freed + ChainPages(gone)
    requires LedgerOf(s).emitted == LedgerOf(s0).emitted + ChainPages(put0) && LedgerOf(s').emitted == LedgerOf(s).emitted + ChainPages(put)
    requires s.added == s0.added + RefsOf(put0) && s'.added == s.added + RefsOf(put)
    requires s.dropped == s0.dropped + RefsOf(gone0) && s'.dropped == s.dropped + RefsOf(gone)
    ensures LedgerOf(s').freed == LedgerOf(s0).freed + ChainPages(gone0 + gone)
    ensures LedgerOf(s').emitted == LedgerOf(s0).emitted + ChainPages(put0 + put)
    ensures s'.added == s0.added + RefsOf(put0 + put)
    ensures s'.dropped == s0.dropped + RefsOf(gone0 + gone)
  {
    hide LedgerOf, ChainPages, RefsOf;
    ChainPagesAppend(gone0, gone);
    ChainPagesAppend(put0, put);
    RefsOfAppend(gone0, gone);
    RefsOfAppend(put0, put);
  }

  // ---------- the rest passes through ----------

  lemma {:induction false} MergeRest(es: seq<Entry>, ps: seq<Planned>, e: nat)
    requires Sorted(es) && e <= |es|
    requires forall i, j :: e <= i < |es| && 0 <= j < |ps| ==> Less(ps[j].key, es[i].cell.key)
    ensures Merge(es, ps) == Merge(es[..e], ps) + es[e..]
    ensures Replaced(es, ps) == Replaced(es[..e], ps)
  {
    hide Less, Merge, Replaced;
    assert es == es[..e] + es[e..] && ps + [] == ps;
    MergeNothing(es[e..]);
    if e < |es| {
      KeyOrder();
      MergeSplits(es[..e], es[e..], ps, [], es[e].cell.key);
    } else {
      assert es[..e] == es;
    }
  }

  lemma {:induction false} MergeLive(s: State, es: seq<Entry>, ps: seq<Planned>)
    requires EntriesSpelled(ViewOf(s), es) && EntriesSpelled(ViewOf(s), Puts(ps))
    ensures EntriesSpelled(ViewOf(s), Merge(es, ps))
    decreases |es| + |ps|
  {
    hide EntrySpelled, ViewOf;
    if ps != [] {
      SpelledAppend(ViewOf(s), PutOf(ps[0]), Puts(ps[1..]));
      if es == [] {
        MergeLive(s, [], ps[1..]);
      } else if Less(es[0].cell.key, ps[0].key) {
        MergeLive(s, es[1..], ps);
      } else if es[0].cell.key == ps[0].key {
        MergeLive(s, es[1..], ps[1..]);
      } else {
        MergeLive(s, es, ps[1..]);
      }
    }
  }

  lemma {:induction false} SpelledAppend(pages: map<PageId, Page>, a: seq<Entry>, b: seq<Entry>)
    requires EntriesSpelled(pages, a + b)
    ensures EntriesSpelled(pages, a) && EntriesSpelled(pages, b)
  {
    hide EntrySpelled;
    assert forall i :: 0 <= i < |a| ==> a[i] == (a + b)[i];
    assert forall i :: 0 <= i < |b| ==> b[i] == (a + b)[|a| + i];
  }

  /** A finished leaf merge: the override of the entries, live, with balanced books. */
  ghost predicate Merged(s0: State, s: State, es: seq<Entry>, ps: seq<Planned>) {
    && Apart(s) && Grown(s0, s)
    && PartLive(s, LeafPart(Merge(es, ps)))
    && Balanced(ChainPages(es), LedgerOf(s0), ChainPages(Merge(es, ps)), LedgerOf(s))
    && LedgerOf(s).freed == LedgerOf(s0).freed + ChainPages(Replaced(es, ps))
    && s.added == s0.added + RefsOf(Puts(ps))
    && s.dropped == s0.dropped + RefsOf(Replaced(es, ps))
  }

  lemma {:induction false} MergedBalance(l0: Books, l: Books, es: multiset<PageId>, merged: multiset<PageId>, gone: multiset<PageId>, puts: multiset<PageId>)
    requires merged + gone == es + puts
    requires l.freed == l0.freed + gone && l.emitted == l0.emitted + puts
    ensures Balanced(es, l0, merged, l)
  {
    forall x: PageId ensures (merged + l.freed + l0.emitted)[x] == (es + l0.freed + l.emitted)[x] {
      assert (merged + gone)[x] == (es + puts)[x];
    }
  }

  lemma {:induction false} CommittedEntriesLive(s: State, es: seq<Entry>)
    requires Apart(s) && CommittedEntries(s, es)
    ensures PartLive(s, LeafPart(es))
  {
    forall x | x in ChainPages(es) ensures x in s.base {
      assert s.base[x] >= ChainPages(es)[x];
    }
    EntriesFrame(s.disk, ViewOf(s), es);
  }

  lemma {:induction false} MergingFinish(s0: State, s: State, es: seq<Entry>, muts: seq<Mutation>, ps: seq<Planned>, e: nat)
    requires Merging(s0, s, es, muts, ps, e, |muts|) && Sorted(es)
    requires CommittedEntries(s0, es)
    ensures Plans(ps, muts) && PlannedSorted(ps) && Merged(s0, s, es, ps)
    ensures Merge(es, ps) == Merge(es[..e], ps) + es[e..]
  {
    assert muts[..|muts|] == muts;
    MergeRest(es, ps, e);
    assert LedgerOf(s).freed == LedgerOf(s0).freed + ChainPages(Replaced(es, ps));
    assert Balanced(ChainPages(es), LedgerOf(s0), ChainPages(Merge(es, ps)), LedgerOf(s)) by {
      hide Merge, ChainPages, LedgerOf, Less;
      MergeConservesChains(es, ps);
      MergedBalance(LedgerOf(s0), LedgerOf(s), ChainPages(es), ChainPages(Merge(es, ps)), ChainPages(Replaced(es, ps)), ChainPages(Puts(ps)));
    }
    assert PartLive(s, LeafPart(Merge(es, ps))) by {
      MergeStaysLive(s, es, ps);
    }
  }

  lemma {:induction false} MergeStaysLive(s: State, es: seq<Entry>, ps: seq<Planned>)
    requires Apart(s) && CommittedEntries(s, es) && PartLive(s, LeafPart(Puts(ps)))
    ensures PartLive(s, LeafPart(Merge(es, ps)))
  {
    hide Merge, ChainPages, EntrySpelled, ViewOf, Puts, Replaced, Known;
    CommittedEntriesLive(s, es);
    MergeLive(s, es, ps);
    MergeConservesChains(es, ps);
    var merged, gone, old', puts := ChainPages(Merge(es, ps)), ChainPages(Replaced(es, ps)), ChainPages(es), ChainPages(Puts(ps));
    forall x | x in merged ensures Known(s, x) {
      assert (merged + gone)[x] == (old' + puts)[x];
      assert x in old' || x in puts;
    }
  }

  // ---------- single cells ----------

  lemma {:induction false} NothingApplied(s: State)
    requires Apart(s)
    ensures Applied(s, s, [], [])
  {
    GrownReflexive(s);
  }

  lemma {:induction false} InlinePut(s: State, e: Entry)
    requires Apart(s) && e.cell.Inline? && EntrySpelled(ViewOf(s), e)
    ensures Applied(s, s, [], [e])
  {
    GrownReflexive(s);
    assert ChainPages([e]) == multiset(e.chain) + ChainPages([]);
    assert RefsOf([e]) == [] + RefsOf([]);
  }

  lemma {:induction false} ExternalPut(s: State, e: Entry)
    requires Apart(s) && e.cell.External? && EntrySpelled(ViewOf(s), e)
    ensures Applied(s, s.(added := s.added + [e.cell.reference]), [], [e])
  {
    GrownReflexive(s);
    assert ChainPages([e]) == multiset(e.chain) + ChainPages([]);
    assert RefsOf([e]) == [e.cell.reference] + RefsOf([]);
  }

  lemma {:induction false} SingleEntry(e: Entry)
    ensures ChainPages([e]) == multiset(e.chain)
    ensures RefsOf([e]) == if e.cell.External? then [e.cell.reference] else []
  {
    assert ChainPages([e]) == multiset(e.chain) + ChainPages([]);
    assert RefsOf([e]) == (if e.cell.External? then [e.cell.reference] else []) + RefsOf([]);
  }

  lemma {:induction false} ChainLive(s: State, s': State, e: Entry, images: map<PageId, Page>)
    requires EntrySpelled(images, e) && s' == WritingChain(s, images)
    requires Apart(s) && forall x :: x in images ==> !Known(s, x) && images[x].OverflowPage?
    requires forall x :: x in images <==> x in e.chain
    ensures PartLive(s', LeafPart([e]))
  {
    hide LedgerOf, WritingChain, Known, ViewOf, Apart, Grown, ChainPages, EntrySpelled, RefsOf;
    WritingGrows(s, images);
    SingleEntry(e);
    assert AgreeOn(images, ViewOf(s'), ChainPages([e]));
    EntriesFrame(images, ViewOf(s'), [e]);
    forall x | x in ChainPages([e]) ensures Known(s', x) {
      assert x in multiset(e.chain);
      assert x in images;
    }
  }

  lemma {:induction false} OverflowPut(s: State, e: Entry, images: map<PageId, Page>)
    requires Apart(s) && e.cell.Overflow? && EntrySpelled(images, e)
    requires forall i, j :: 0 <= i < j < |e.chain| ==> e.chain[i] != e.chain[j]
    requires forall x :: x in images <==> x in e.chain
    requires forall x :: x in images ==> !Known(s, x) && images[x].OverflowPage?
    ensures Applied(s, WritingChain(s, images), [], [e])
  {
    hide LedgerOf, Known, Apart, Grown, PartLive, ChainPages, RefsOf, EntrySpelled;
    var s' := WritingChain(s, images);
    WritingGrows(s, images);
    ChainLive(s, s', e, images);
    forall x | x in e.chain ensures x !in s.overflowImages {
      NotKnown(s, x);
    }
    WritingBooks(s, e.chain, images);
    SingleEntry(e);
    NoEntries();
  }

  lemma {:induction false} NotKnown(s: State, x: PageId)
    requires !Known(s, x)
    ensures x !in s.overflowImages && x !in s.freshPages && x !in s.base
  {
  }

  lemma {:induction false} NoEntries()
    ensures ChainPages([]) == multiset{} && RefsOf([]) == []
  {
  }

  /** The state after a committed cell has been released. */
  function Releasing(s: State, e: Entry): State {
    s.(freed := s.freed + e.chain, dropped := s.dropped + (if e.cell.External? then [e.cell.reference] else []))
  }

  lemma {:induction false} ReleasingGrows(s: State, e: Entry)
    requires Apart(s) && (forall x :: x in e.chain ==> x in s.base)
    ensures Apart(Releasing(s, e)) && Grown(s, Releasing(s, e))
    ensures LedgerOf(Releasing(s, e)) == Books(LedgerOf(s).freed + multiset(e.chain), LedgerOf(s).emitted)
  {
    var s' := Releasing(s, e);
    forall i | |s.freed| <= i < |s'.freed| ensures s'.freed[i] in s.base {
      assert s'.freed[i] == e.chain[i - |s.freed|];
    }
  }

  lemma {:induction false} NoneLive(s: State)
    ensures PartLive(s, LeafPart([]))
  {
  }

  lemma {:induction false} CellReleased(s: State, e: Entry)
    requires Apart(s) && (forall x :: x in e.chain ==> x in s.base)
    ensures Applied(s, Releasing(s, e), [e], [])
  {
    hide LedgerOf, Known, Apart, Grown, PartLive, ChainPages, RefsOf;
    SingleEntry(e);
    NoEntries();
    NoneLive(Releasing(s, e));
    ReleasingGrows(s, e);
  }

  lemma {:induction false} AppliedThen(s: State, s1: State, s2: State, gone: seq<Entry>, put: seq<Entry>)
    requires Apart(s) && Applied(s, s1, gone, []) && Applied(s1, s2, [], put)
    ensures Applied(s, s2, gone, put)
  {
    hide LedgerOf, PartLive, Apart, Grown;
    GrownTransitive(s, s1, s2);
    assert ChainPages([]) == multiset{} && RefsOf([]) == [];
  }

  // ---------- cells as read ----------

  lemma {:induction false} ReadLength(cells: seq<LeafCell>, es: seq<Entry>, muts: seq<Mutation>)
    requires ReadAs(cells, es, muts)
    ensures |cells| == |es|
  {
  }

  lemma {:induction false} ReadKey(cells: seq<LeafCell>, es: seq<Entry>, muts: seq<Mutation>, i: nat)
    requires ReadAs(cells, es, muts) && i < |es|
    ensures cells[i].key == es[i].cell.key && (cells[i] == es[i].cell || cells[i] == Blank(es[i].cell))
  {
  }

  /** A cell strictly between two mutations was read in full. */
  lemma {:induction false} ReadInFull(cells: seq<LeafCell>, es: seq<Entry>, muts: seq<Mutation>, i: nat, m: nat)
    requires ReadAs(cells, es, muts) && MutationsSorted(muts) && i < |es| && m <= |muts|
    requires forall j :: 0 <= j < m ==> Less(muts[j].key, es[i].cell.key)
    requires m < |muts| ==> Less(es[i].cell.key, muts[m].key)
    ensures cells[i] == es[i].cell
  {
    hide Less;
    KeyOrder();
    forall j | 0 <= j < |muts| ensures muts[j].key != es[i].cell.key {
      if j > m {
        assert Less(muts[m].key, muts[j].key);
      }
    }
  }

  lemma {:induction false} CellsOfAppend(a: seq<Entry>, b: seq<Entry>)
    ensures CellsOf(a + b) == CellsOf(a) + CellsOf(b)
  {
  }

  lemma {:induction false} MergingFacts(s0: State, s: State, es: seq<Entry>, muts: seq<Mutation>, ps: seq<Planned>, e: nat, m: nat)
    requires Merging(s0, s, es, muts, ps, e, m)
    ensures e <= |es| && m <= |muts| && Apart(s) && Grown(s0, s)
    ensures forall i, j :: e <= i < |es| && 0 <= j < m ==> Less(muts[j].key, es[i].cell.key)
  {
  }

  lemma {:induction false} ReadRest(cells: seq<LeafCell>, es: seq<Entry>, muts: seq<Mutation>, e: nat)
    requires ReadAs(cells, es, muts) && MutationsSorted(muts) && e <= |es|
    requires forall i, j :: e <= i < |es| && 0 <= j < |muts| ==> Less(muts[j].key, es[i].cell.key)
    ensures cells[e..] == CellsOf(es[e..])
  {
    forall i | e <= i < |es| ensures cells[i] == es[i].cell {
      ReadInFull(cells, es, muts, i, |muts|);
    }
  }

  lemma {:induction false} CommittedEntry(s: State, es: seq<Entry>, i: nat)
    requires CommittedEntries(s, es) && i < |es|
    ensures EntrySpelled(s.disk, es[i]) && multiset(es[i].chain) <= s.base
  {
    EntryChainContained(es, i);
  }
}
