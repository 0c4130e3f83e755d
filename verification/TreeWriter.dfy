/** The copy-on-write tree writer. */
module TreeWriting {
  import opened Keys
  import opened Pages
  import opened MergeSpec
  import opened Allocator
  import opened Parts
  import opened Split
  import opened Fitting
  import opened WriterState
  import opened Packing
  import opened Merging
  import opened NodeReading
  import opened Normalizing
  import opened Rewriting
  import opened RootFinishing
  import opened PathCopying
  import opened NodeFilling

  /** Ids handed out but not yet used for a page. */
  ghost predicate Reserved(s: State, alloc: PageAllocator, pool: iset<PageId>, ids: seq<PageId>, from: nat)
    reads alloc
  {
    && from <= |ids| && Distinct(ids)
    && forall i :: from <= i < |ids| ==> ids[i] > 0 && !alloc.Available(ids[i]) && !Known(s, ids[i]) && ids[i] in pool
  }

  lemma {:induction false} ChainIsCommitted(e: Entry, base: multiset<PageId>)
    requires multiset(e.chain) <= base
    ensures forall x :: x in e.chain ==> x in base
  {
    forall x | x in e.chain ensures x in base {
      assert x in multiset(e.chain);
      assert base[x] >= multiset(e.chain)[x];
    }
  }

  lemma {:induction false} SpelledFacts(pages: map<PageId, Page>, e: Entry)
    requires EntrySpelled(pages, e)
    ensures e.cell.Overflow? ==> e.val.Stored? && DeclaredChain(pages, e.cell.head, e.cell.totalLen, e.chain, e.val.bytes)
    ensures !e.cell.Overflow? ==> e.chain == []
  {
    hide ChainSpells;
  }

  class TreeWriter {
    const disk: map<PageId, Page>
    const alloc: PageAllocator
    ghost const base: multiset<PageId>
    ghost const pool: iset<PageId>
    ghost const firstPageId: PageId
    var freshPages: map<PageId, Page>
    var overflowImages: map<PageId, Page>

    constructor (disk: map<PageId, Page>, alloc: PageAllocator, ghost base: multiset<PageId>)
      requires alloc.Valid()
      requires forall x :: x in base ==> x > 0 && !alloc.Available(x)
      ensures Valid() && St() == State(disk, base, map[], map[], alloc.freed, alloc.addedPayloadRefs, alloc.droppedPayloadRefs)
      ensures this.alloc == alloc && this.disk == disk && this.base == base
      ensures forall x :: x in pool <==> alloc.Available(x)
      ensures firstPageId == alloc.nextPageId
    {
      this.disk, this.alloc, this.base := disk, alloc, base;
      this.pool := iset x | alloc.Available(x);
      this.firstPageId := alloc.nextPageId;
      freshPages, overflowImages := map[], map[];
    }

    ghost function St(): State
      reads this, alloc
    {
      State(disk, base, freshPages, overflowImages, alloc.freed, alloc.addedPayloadRefs, alloc.droppedPayloadRefs)
    }

    /** Every id this writer took is in use for one of its images. */
    ghost predicate Valid()
      reads this, alloc
    {
      Core() && TakenFor([], 0)
    }

    /** Every id taken from the pool is that of an image, or one of those still reserved. */
    ghost predicate TakenFor(ids: seq<PageId>, from: nat)
      reads this, alloc
    {
      forall x :: x in pool && !alloc.Available(x) ==> x in freshPages || x in overflowImages || exists i :: from <= i < |ids| && ids[i] == x
    }

    ghost predicate Core()
      reads this, alloc
    {
      && alloc.Valid() && alloc.nextPageId >= firstPageId
      && Apart(St())
      && (forall x :: Known(St(), x) ==> x > 0 && !alloc.Available(x))
      && (forall x :: alloc.Available(x) ==> x in pool)
      && (forall x :: x in freshPages || x in overflowImages ==> x in pool)
    }

    lemma CoreApart()
      requires Core()
      ensures Apart(St())
    {
    }

    lemma AllTaken(ids: seq<PageId>)
      requires TakenFor(ids, |ids|)
      ensures TakenFor([], 0)
    {
    }

    method EmitPage(id: PageId, page: Page)
      requires Core() && id > 0 && !alloc.Available(id) && !Known(St(), id) && !page.OverflowPage? && id in pool
      modifies this`freshPages
      ensures Core() && St() == Emitting(old(St()), id, page) && freshPages == old(freshPages)[id := page]
      ensures old(TakenFor([id], 0)) ==> Valid()
      ensures forall x :: Known(St(), x) <==> old(Known(St(), x)) || x == id
    {
      freshPages := freshPages[id := page];
      EmittingGrows(old(St()), id, page);
      assert St() == Emitting(old(St()), id, page);
      forall x ensures Known(St(), x) <==> old(Known(St(), x)) || x == id {
      }
    }

    method Reserve(count: nat) returns (ids: seq<PageId>)
      requires Valid()
      modifies alloc`nextPageId, alloc`reusable
      ensures Core() && St() == old(St()) && |ids| == count && Reserved(St(), alloc, pool, ids, 0) && TakenFor(ids, 0)
    {
      hide Known, Apart;
      ids := AllocateMany(count, alloc);
      assert St() == old(St());
    }

    /** Emits the page with reserved id number `index`. */
    method EmitReserved(ids: seq<PageId>, index: nat, page: Page)
      requires Core() && Reserved(St(), alloc, pool, ids, index) && TakenFor(ids, index) && index < |ids| && !page.OverflowPage?
      modifies this`freshPages
      ensures Core() && TakenFor(ids, index + 1) && St() == Emitting(old(St()), ids[index], page)
      ensures Reserved(St(), alloc, pool, ids, index + 1)
      ensures ids[index] > 0 && !Known(old(St()), ids[index])
    {
      hide Known, Apart;
      EmitPage(ids[index], page);
    }

    /** Packs leaf cells into pages whose separators are their first keys. */
    method PackLeaf(cells: seq<LeafCell>, ghost es: seq<Entry>) returns (r: Result<seq<InternalCell>>, ghost ts: seq<Tree>)
      requires Valid() && cells == CellsOf(es) && cells != [] && PartLive(St(), LeafPart(es))
      modifies this`freshPages, alloc`nextPageId, alloc`reusable
      ensures r.Ok? ==> Valid() && r.value == ParentCells(ts) && Packed(old(St()), LeafPart(es), St(), ts, 0)
      ensures r.Ok? && LeafCost(cells) <= NODE_CAPACITY ==> |ts| == 1 && PartUnder(ts[0]) == LeafPart(es)
      ensures r.Err? ==> r.error == PageOverflow && !AllFit(es)
    {
      hide PartLive, Packed, Cuts, Sum, LeafCost, EachFits, Emitting, ParentCells, CellsOf, LeafCosts, LeafCellCost, Known, Apart, Reserved, AllFit, TakenFor, Core;
      CostsFit(es);
      LeafCostIsSum(cells);
      var groups := SplitGroups(LeafCosts(cells));
      var ids := Reserve(|groups|);
      ts := [];
      ghost var s0, costs := St(), LeafCosts(cells);
      var out: seq<InternalCell> := [];
      var pos: nat, index: nat := 0, 0;
      assert costs[0..] == costs && groups[0..] == groups;
      CoreApart();
      PackedNothing(s0, es);
      while index < |groups|
        invariant Core() && index <= |groups| && pos <= |cells| && TakenFor(ids, index)
        invariant Cuts(costs[pos..], groups[index..], EachFits(costs))
        invariant Reserved(St(), alloc, pool, ids, index)
        invariant out == ParentCells(ts) && |ts| == index && (index == 0 ==> pos == 0)
        invariant |groups| == 1 && index == 1 ==> PartUnder(ts[0]) == LeafPart(es[..pos])
        invariant Packed(s0, LeafPart(es[..pos]), St(), ts, 0)
      {
        var len := groups[index];
        CutsNext(costs, groups, pos, index, EachFits(costs));
        var group := cells[pos..pos + len];
        CellsOfSlice(es, pos, pos + len);
        LeafGroupCost(cells, pos, pos + len);
        if LeafCost(group) > NODE_CAPACITY {
          return Err(PageOverflow), ts;
        }
        ghost var t := Leaf(ids[index], es[pos..pos + len]);
        assert index == 0 ==> es[pos..pos + len] == es[..pos + len];
        ghost var before := St();
        EmitReserved(ids, index, LeafPage(group));
        PackLeafNext(s0, before, es, pos, len, ids[index], ts);
        LeafParentCell(t);
        ParentCellsSnoc(ts, t);
        out := out + [InternalCell(group[0].key, ids[index])];
        ts := ts + [t];
        pos, index := pos + len, index + 1;
      }
      CutsDone(costs, groups, pos, EachFits(costs));
      AllTaken(ids);
      assert es[..pos] == es;
      return Ok(out), ts;
    }

    /** Packs internal cells into pages of one level; each separator is the first below it. */
    method PackInternal(level: nat, cells: seq<InternalCell>, ghost kids: seq<Tree>)
      returns (r: Result<seq<InternalCell>>, ghost ts: seq<Tree>)
      requires Valid() && cells == ParentCells(kids) && cells != [] && PartLive(St(), InnerPart(level, kids))
      requires level > 0 && ShapedAll(kids, level - 1)
      modifies this`freshPages, alloc`nextPageId, alloc`reusable
      ensures r.Ok? ==> Valid() && r.value == ParentCells(ts) && Packed(old(St()), InnerPart(level, kids), St(), ts, level)
      ensures r.Ok? && EachSmall(InternalCosts(cells)) ==> 2 * |r.value| <= |cells| + 1
      ensures r.Ok? && InternalCost(cells) <= NODE_CAPACITY ==> |ts| == 1 && PartUnder(ts[0]) == InnerPart(level, kids)
      ensures r.Err? ==> (r.error == PageOverflow && !EachFits(InternalCosts(cells))) || (r.error == HeightLimit && level > MAX_TREE_LEVEL)
    {
      hide PartLive, Packed, Cuts, Sum, InternalCost, EachFits, EachSmall, Emitting, ParentCells, InternalCosts, InternalCellCost, Known, Apart, Shaped, ShapedAll, Reserved, TakenFor, Core;
      if level > MAX_TREE_LEVEL {
        return Err(HeightLimit), [];
      }
      InternalCostIsSum(cells);
      var groups := SplitGroups(InternalCosts(cells));
      var ids := Reserve(|groups|);
      ts := [];
      ghost var s0, costs := St(), InternalCosts(cells);
      var out: seq<InternalCell> := [];
      var pos: nat, index: nat := 0, 0;
      assert costs[0..] == costs && groups[0..] == groups;
      CoreApart();
      PackedNoTrees(s0, level, kids);
      while index < |groups|
        invariant Core() && index <= |groups| && pos <= |cells| && TakenFor(ids, index)
        invariant Cuts(costs[pos..], groups[index..], EachFits(costs))
        invariant Reserved(St(), alloc, pool, ids, index)
        invariant out == ParentCells(ts) && |out| == |ts| == index && (index == 0 ==> pos == 0)
        invariant |groups| == 1 && index == 1 ==> PartUnder(ts[0]) == InnerPart(level, kids[..pos])
        invariant Packed(s0, InnerPart(level, kids[..pos]), St(), ts, level)
      {
        var len := groups[index];
        CutsNext(costs, groups, pos, index, EachFits(costs));
        var group := cells[pos..pos + len];
        ParentCellsSlice(kids, pos, pos + len);
        InternalGroupCost(cells, pos, pos + len);
        if InternalCost(group) > NODE_CAPACITY {
          return Err(PageOverflow), ts;
        }
        ghost var t := Node(ids[index], level, kids[pos..pos + len]);
        assert index == 0 ==> kids[pos..pos + len] == kids[..pos + len];
        ghost var before := St();
        EmitReserved(ids, index, InternalPage(level, group));
        PackInnerNext(s0, before, level, kids, pos, len, ids[index], ts);
        InnerParentCell(t);
        ParentCellsSnoc(ts, t);
        out := out + [InternalCell(group[0].separator, ids[index])];
        ts := ts + [t];
        pos, index := pos + len, index + 1;
      }
      CutsDone(costs, groups, pos, EachFits(costs));
      AllTaken(ids);
      assert kids[..pos] == kids;
      return Ok(out), ts;
    }

    method Pack(run: Run, ghost part: Part) returns (r: Result<seq<InternalCell>>, ghost ts: seq<Tree>)
      requires Valid() && !part.Kept? && run == RunOf(part)
      requires PartShaped(part, RunLevel(run)) && PartLive(St(), part)
      modifies this`freshPages, alloc`nextPageId, alloc`reusable
      ensures r.Ok? ==> Valid() && r.value == ParentCells(ts) && Packed(old(St()), part, St(), ts, RunLevel(run)) && PackedOne(part, ts)
      ensures r.Err? ==> (r.error == PageOverflow && !AllFit(PartFlat(part))) || (r.error == HeightLimit && RunLevel(run) > MAX_TREE_LEVEL)
    {
      hide PartLive, Packed, Known, Apart, AllFit, EachFits, InternalCosts, LeafCosts;
      if RunEmpty(run) {
        EmptyIsPacked(St(), part, RunLevel(run));
        DropEmpty(part);
        return Ok([]), [];
      }
      match run
      case LeafRun(cells) =>
        r, ts := PackLeaf(cells, part.entries);
      case InternalRun(level, cells) =>
        SeparatorsFit(part.kids, level - 1);
        r, ts := PackInternal(level, cells, part.kids);
    }

    /** Writes a value as a cell: in place, over an overflow chain, or by reference. */
    method PlanCell(key: Key, value: Value) returns (cell: LeafCell, ghost e: Entry)
      requires Valid() && (value.Stored? ==> |value.bytes| <= MAX_STORED_VALUE_BYTES)
      modifies this`overflowImages, alloc`nextPageId, alloc`reusable, alloc`addedPayloadRefs
      ensures Valid() && e.cell == cell && e.val == value && cell.key == key
      ensures Applied(old(St()), St(), [], [e])
      ensures cell.Overflow? <==> value.Stored? && |value.bytes| > INLINE_VALUE_LIMIT
      ensures Written(cell, Mutation(key, Some(value)))
    {
      hide Applied, ChainPages, RefsOf, LedgerOf, PartLive, ChunkCount;
      match value
      case ByReference(reference, prefix) =>
        alloc.addedPayloadRefs := alloc.addedPayloadRefs + [reference];
        cell := External(key, reference, prefix);
        e := Entry(cell, [], value);
        ExternalPut(old(St()), e);
        assert St() == old(St()).(added := old(St()).added + [reference]);
        KnownUnchanged(old(St()), St());
      case Stored(bytes) =>
        if |bytes| > INLINE_VALUE_LIMIT {
          cell, e := PlanOverflow(key, bytes);
        } else {
          cell := Inline(key, bytes);
          e := Entry(cell, [], value);
          InlinePut(St(), e);
        }
    }

    method PlanOverflow(key: Key, bytes: Bytes) returns (cell: LeafCell, ghost e: Entry)
      requires Valid() && 0 < |bytes| <= MAX_STORED_VALUE_BYTES
      modifies this`overflowImages, alloc`nextPageId, alloc`reusable
      ensures Valid() && e.cell == cell && e.val == Stored(bytes) && cell.key == key && cell.Overflow?
      ensures Applied(old(St()), St(), [], [e])
    {
      hide Applied, ChainPages, RefsOf, LedgerOf, PartLive, ChainSpells, Known, Apart, WritingChain, ViewOf;
      ghost var s := St();
      var r := WriteOverflowValue(bytes, alloc);
      var chain := r.value;
      cell := Overflow(key, chain.ids[0], |bytes|);
      e := Entry(cell, chain.ids, Stored(bytes));
      forall x | x in chain.pages ensures !Known(s, x) {
        assert x in chain.ids;
      }
      overflowImages := overflowImages + chain.pages;
      WritingIs(s, chain.pages, St());
      WritingGrows(s, chain.pages);
      OverflowPut(s, e, chain.pages);
    }

    /** Retires what a replaced cell owned. The cell may have been read without its inline bytes. */
    method ReleaseCell(cell: LeafCell, ghost e: Entry) returns (r: Result<()>)
      requires Valid() && (cell == e.cell || cell == Blank(e.cell))
      requires EntrySpelled(disk, e) && multiset(e.chain) <= base
      modifies alloc`freed, alloc`droppedPayloadRefs
      ensures r.Ok? && Valid() && Applied(old(St()), St(), [e], [])
      ensures St() == Releasing(old(St()), e)
    {
      hide Applied, ChainPages, RefsOf, LedgerOf, PartLive, DeclaredChain, EntrySpelled, Known, Apart;
      ghost var s := St();
      ChainIsCommitted(e, base);
      SpelledFacts(disk, e);
      CellReleased(s, e);
      match cell {
        case External(_, reference, _) =>
          alloc.droppedPayloadRefs := alloc.droppedPayloadRefs + [reference];
        case Overflow(_, head, totalLen) =>
          assert DeclaredChain(disk, head, totalLen, e.chain, e.val.bytes);
          var walk := WalkChain(disk, head, totalLen);
          alloc.freed := alloc.freed + walk.value.ids;
        case Inline(_, _) =>
      }
      assert St() == Releasing(s, e);
      KnownUnchanged(s, St());
      return Ok(());
    }

    /** Applies one mutation at existing cell `e`, if it hits that cell. */
    method ApplyOne(mutation: Mutation, hit: bool, cell: LeafCell, ghost e: Entry) returns (put: seq<LeafCell>, ghost p: Planned)
      requires Valid() && Storable(mutation)
      requires hit ==> (cell == e.cell || cell == Blank(e.cell)) && EntrySpelled(disk, e) && multiset(e.chain) <= base
      modifies this`overflowImages, alloc`nextPageId, alloc`reusable, alloc`freed, alloc`addedPayloadRefs, alloc`droppedPayloadRefs
      ensures Valid() && WellKeyed(p) && Plans([p], [mutation]) && put == CellsOf(PutOf(p))
      ensures Applied(old(St()), St(), if hit then [e] else [], PutOf(p))
    {
      hide Applied, EntrySpelled, Known;
      ghost var s := St();
      NothingApplied(s);
      if hit {
        var released := ReleaseCell(cell, e);
      }
      ghost var s1 := St();
      NothingApplied(s1);
      put, p := [], Planned(mutation.key, None);
      if mutation.value.Some? {
        var written, entry := PlanCell(mutation.key, mutation.value.value);
        put, p := [written], Planned(mutation.key, Some(entry));
      }
      AppliedThen(s, s1, St(), if hit then [e] else [], PutOf(p));
    }

    /** Merges sorted mutations into the cells of one leaf. */
    method MergeLeaf(cells: seq<LeafCell>, muts: seq<Mutation>, ghost es: seq<Entry>) returns (out: seq<LeafCell>, ghost ps: seq<Planned>)
      requires Valid() && ReadAs(cells, es, muts) && Sorted(es) && CommittedEntries(St(), es)
      requires MutationsSorted(muts) && AllStorable(muts)
      modifies this`overflowImages, alloc`nextPageId, alloc`reusable, alloc`freed, alloc`addedPayloadRefs, alloc`droppedPayloadRefs
      ensures Valid() && Plans(ps, muts) && PlannedSorted(ps)
      ensures out == CellsOf(Merge(es, ps)) && Merged(old(St()), St(), es, ps)
    {
      hide Merging.Merging, Merge, Applied, Merged, CellsOf, PutOf, ReadAs, Blank, Less, Sorted, MutationsSorted, CommittedEntries,
           EntrySpelled, Apart, Known, Plans, PlannedSorted, WellKeyed, Grown, Storable;
      ghost var s0 := St();
      ps, out := [], [];
      var e, m := 0, 0;
      MergingStart(s0, es, muts);
      ReadLength(cells, es, muts);
      while m < |muts|
        invariant Valid() && e <= |cells| && m <= |muts|
        invariant Merging.Merging(s0, St(), es, muts, ps, e, m) && out == CellsOf(Merge(es[..e], ps))
      {
        while e < |cells| && Less(cells[e].key, muts[m].key)
          invariant Valid() && e <= |cells|
          invariant Merging.Merging(s0, St(), es, muts, ps, e, m) && out == CellsOf(Merge(es[..e], ps))
        {
          ReadKey(cells, es, muts, e);
          MergingFacts(s0, St(), es, muts, ps, e, m);
          ReadInFull(cells, es, muts, e, m);
          MergingKeep(s0, St(), es, muts, ps, e, m);
          CellsOfAppend(Merge(es[..e], ps), [es[e]]);
          CellsOfOne(es[e]);
          out := out + [cells[e]];
          e := e + 1;
        }
        ghost var s := St();
        MergingFacts(s0, s, es, muts, ps, e, m);
        var hit := e < |cells| && cells[e].key == muts[m].key;
        if e < |cells| {
          ReadKey(cells, es, muts, e);
          CommittedEntry(s0, es, e);
        }
        ghost var gone := if e < |es| then es[e] else Entry(Inline([], []), [], Stored([]));
        var put, p := ApplyOne(muts[m], hit, if e < |cells| then cells[e] else Inline([], []), gone);
        PlanKey(p, muts[m]);
        MergingApply(s0, s, St(), es, muts, ps, e, m, p, hit);
        CellsOfAppend(Merge(es[..e], ps), PutOf(p));
        out := out + put;
        ps := ps + [p];
        e, m := if hit then e + 1 else e, m + 1;
      }
      MergingFacts(s0, St(), es, muts, ps, e, m);
      ReadRest(cells, es, muts, e);
      MergingFinish(s0, St(), es, muts, ps, e);
      CellsOfAppend(Merge(es[..e], ps), es[e..]);
      out := out + cells[e..];
    }

    /** Takes a child as a run, dissolving its page if it was kept. */
    method ChildIntoRun(child: Child, level: nat, ghost part: Part) returns (run: Run, ghost p: Part)
      requires Valid() && child == ChildOf(part) && PartShaped(part, level) && PartLive(St(), part) && Sorted(PartFlat(part))
      modifies alloc`freed
      ensures Valid() && !p.Kept? && run == RunOf(p)
      ensures Transformed(old(St()), [part], St(), [p], level)
      ensures forall x :: x in Gone(old(St()), St()) ==> part.Kept? && x == part.tree.id
    {
      hide Transformed, Spelled, Shaped, Known, Apart, ViewOf, PagesOf, Gone;
      match child {
        case Changed(changed) =>
          run, p := changed, part;
          SinglePartTransforms(St(), part, level);
          GoneNothing(St(), St());
        case Keep(cell) =>
          ghost var t := part.tree;
          TreeReads(disk, t);
          var read := ReadNode(disk, cell.child, Some(level), []);
          run, p := read.value, PartUnder(t);
          NodeRun(disk, t, run);
          DissolveKept(St(), t, level);
          ghost var s := St();
          alloc.Free(cell.child);
          assert St() == Freeing(s, t.id);
          GoneOne(s, t.id);
          KnownUnchanged(s, St());
      }
    }

    /** Merges the two children at `low`. */
    method MergePair(items: seq<Child>, low: nat, level: nat, ghost parts: seq<Part>) returns (r: seq<Child>, ghost ps: seq<Part>, ghost joined: Part)
      requires Valid() && low + 1 < |items| && items == ChildrenOf(parts)
      requires PartsShaped(parts, level) && PartsLive(St(), parts) && Sorted(PartsFlat(parts))
      modifies alloc`freed
      ensures Valid() && r == ChildrenOf(ps) && |r| == |items| - 1 && r[..low] == items[..low]
      ensures Transformed(old(St()), parts, St(), ps, level)
      ensures ps == Replacing(parts, low, joined) && !joined.Kept? && PartFlat(joined) == PartFlat(parts[low]) + PartFlat(parts[low + 1])
      ensures forall x :: x in Gone(old(St()), St()) ==>
        (parts[low].Kept? && x == parts[low].tree.id) || (parts[low + 1].Kept? && x == parts[low + 1].tree.id)
    {
      hide Transformed, PartLive, PartShaped, Sorted, PartsFlat, PartFlat, ChildOf, Known, Apart, RunOf, AppendRuns, Joined, Gone;
      ghost var s := St();
      ghost var a, b := parts[low], parts[low + 1];
      ChildAt(parts, low);
      ChildAt(parts, low + 1);
      PartsAt(s, parts, low, level);
      PartsAt(s, parts, low + 1, level);
      SortedPart(parts, low);
      SortedPart(parts, low + 1);
      var left, pa := ChildIntoRun(items[low], level, a);
      ghost var s1 := St();
      TransformedFacts(s, [a], s1, [pa], level);
      PartStaysLive(s, s1, b);
      var right, pb := ChildIntoRun(items[low + 1], level, b);
      ghost var s2 := St();
      PartsPair(s, parts, low, level);
      PairDissolved(s, a, s1, pa, b, s2, pb, level);
      TransformedFacts(s, [a, b], s2, [pa, pb], level);
      JoinParts(s2, pa, pb, level);
      TransformedTransitive(s, [a, b], s2, [pa, pb], s2, [Joined(pa, pb)], level);
      ReplacingTransforms(s, s2, parts, low, Joined(pa, pb), level);
      ReplacingItems(parts, low, Joined(pa, pb));
      joined := Joined(pa, pb);
      ps := Replacing(parts, low, joined);
      JoinedFlat(s, a, b, s2, joined, level);
      PairGone(s, a, s1, pa, b, s2, pb, level);
      r := items[..low] + [Changed(AppendRuns(left, right))] + items[low + 2..];
      ChangedChild(Joined(pa, pb));
    }

    /** Drops emptied children. */
    method DropEmpties(items: seq<Child>, level: nat, ghost parts: seq<Part>) returns (r: seq<Child>, ghost ps: seq<Part>, ghost cuts: seq<nat>)
      requires Valid() && items == ChildrenOf(parts) && PartsShaped(parts, level) && PartsLive(St(), parts)
      ensures r == ChildrenOf(ps) && Transformed(St(), parts, St(), ps, level) && Ranges(parts, ps, cuts) && ps == NonEmpty(parts)
    {
      hide Transformed, PartLive, PartShaped, PartsFlat, PartFlat, PartsPages, RunEmpty, Known, Apart, RunOf, StandsAt;
      r, ps, cuts := [], [], [0];
      assert parts[0..0] == [];
      NoPartsFlat();
      ghost var s := St();
      var i := 0;
      TransformedReflexive(s, [], level);
      assert parts[..0] == [];
      while i < |items|
        invariant i <= |items| && r == ChildrenOf(ps)
        invariant Transformed(s, parts[..i], s, ps, level)
        invariant Ranges(parts, ps, cuts) && cuts[|ps|] <= i && PartsFlat(parts[cuts[|ps|]..i]) == [] && ps == NonEmpty(parts[..i])
      {
        ChildAt(parts, i);
        PartsAt(s, parts, i, level);
        assert parts[..i + 1] == parts[..i] + [parts[i]];
        NonEmptyMore(parts, i);
        if items[i].Changed? && RunEmpty(items[i].run) {
          DropTransforms(s, parts[..i], s, ps, parts[i], level);
          EmptyMore(parts, cuts[|ps|], i);
          DropEmpty(parts[i]);
        } else {
          NonemptyPart(parts[i], level);
          TakenStands(parts, ps, cuts, i);
          cuts := cuts + [i + 1];
          assert parts[i + 1..i + 1] == [];
          TakeTransforms(s, parts[..i], ps, parts[i], level);
          ChildrenSnoc(ps, parts[i]);
          r, ps := r + [items[i]], ps + [parts[i]];
        }
        i := i + 1;
      }
      assert parts[..i] == parts;
    }

    /** Merges underfull children with a neighbour until none is left, or one child remains. */
    method MergeUnderfull(items0: seq<Child>, level: nat, ghost parts0: seq<Part>, ghost origin: seq<Part>, ghost cuts0: seq<nat>)
      returns (items: seq<Child>, ghost parts: seq<Part>, ghost joins: seq<nat>)
      requires Valid() && items0 == ChildrenOf(parts0) && Ranges(origin, parts0, cuts0)
      requires PartsShaped(parts0, level) && PartsLive(St(), parts0) && Sorted(PartsFlat(parts0))
      modifies alloc`freed
      ensures Valid() && items == ChildrenOf(parts)
      ensures Transformed(old(St()), parts0, St(), parts, level)
      ensures JoinsAll(parts0, parts, joins) && (|items| < 2 || forall i :: 0 <= i < |items| ==> !Underfull(items[i]))
      ensures forall x :: x in Gone(old(St()), St()) ==> Dissolved(origin, level, x)
    {
      hide Transformed, PartLive, PartShaped, PartsFlat, Sorted, Underfull, Known, Apart, ChildrenOf, Ranges, Dissolved, Gone, ChildOf, PartFlat, Replacing, JoinsAll;
      items, parts, joins := items0, parts0, UpTo(|parts0|);
      JoinsStart(parts0);
      ghost var cuts := cuts0;
      GoneNothing(St(), St());
      ghost var s0 := St();
      var index: nat := 0;
      TransformedReflexive(s0, parts0, level);
      while index < |items|
        invariant Valid() && index <= |items| && items == ChildrenOf(parts)
        invariant Transformed(s0, parts0, St(), parts, level)
        invariant |items| < 2 || forall i :: 0 <= i < index ==> !Underfull(items[i])
        invariant Ranges(origin, parts, cuts) && forall x :: x in Gone(s0, St()) ==> Dissolved(origin, level, x)
        invariant JoinsAll(parts0, parts, joins)
        decreases |items|, |items| - index
      {
        if !Underfull(items[index]) || |items| < 2 {
          index := index + 1;
          continue;
        }
        var low := if index + 1 < |items| then index else index - 1;
        ghost var s := St();
        TransformedFacts(s0, parts0, s, parts, level);
        ghost var ps, joined;
        var merged;
        ChildAt(parts, low);
        ChildAt(parts, low + 1);
        PairDissolves(origin, parts, cuts, low, level);
        merged, ps, joined := MergePair(items, low, level, parts);
        TransformedFacts(s, parts, St(), ps, level);
        MoreGone(s0, s, St(), origin, level);
        JoinedRanges(origin, parts, cuts, low, joined);
        cuts := cuts[..low + 1] + cuts[low + 2..];
        JoinMore(parts0, parts, joins, low, joined);
        joins := joins[..low + 1] + joins[low + 2..];
        TransformedTransitive(s0, parts0, s, parts, St(), ps, level);
        items, parts := merged, ps;
        index := low;
      }
    }

    /** Packs every changed child; kept children stay where they are. */
    method PackAll(items: seq<Child>, level: nat, ghost parts: seq<Part>)
      returns (r: Result<seq<InternalCell>>, ghost ts: seq<Tree>, ghost packs: seq<seq<Tree>>)
      requires Valid() && items == ChildrenOf(parts) && level < MAX_TREE_LEVEL
      requires PartsShaped(parts, level) && PartsLive(St(), parts)
      modifies this`freshPages, alloc`nextPageId, alloc`reusable
      ensures r.Ok? ==> Valid() && r.value == ParentCells(ts) && PackedAll(old(St()), parts, St(), ts, level) && Filled(parts, packs, ts)
      ensures r.Err? ==> r.error == PageOverflow && !AllFit(PartsFlat(parts))
    {
      hide Filled, PackedOne, PackedAll, Packed, PartLive, PartShaped, Known, Apart, ChildOf, RunOf, ParentCells, AllFit;
      ghost var s0 := St();
      ts, packs := [], [];
      var cells: seq<InternalCell> := [];
      var i := 0;
      PackedNone(s0, level);
      assert Filled(parts[..0], packs, ts) by { NothingFilled(); }
      assert parts[..0] == [];
      while i < |items|
        invariant Valid() && i <= |items| && PartsLive(St(), parts)
        invariant cells == ParentCells(ts) && PackedAll(s0, parts[..i], St(), ts, level) && Filled(parts[..i], packs, ts)
      {
        ghost var s := St();
        ChildAt(parts, i);
        PartsAt(s, parts, i, level);
        ChildCases(parts[i]);
        ghost var us;
        match items[i] {
          case Keep(cell) =>
            us := [parts[i].tree];
            KeptIsOne(parts[i]);
            KeptIsPacked(s, parts[i].tree, level);
            cells := cells + [cell];
          case Changed(run) =>
            PartRunLevel(parts[i], level);
            var packed;
            packed, us := Pack(run, parts[i]);
            if packed.Err? {
              PartDoesNotFit(parts, i);
              return Err(packed.error), ts, packs;
            }
            var more := packed.value;
            cells := cells + more;
        }
        PackedFacts(s, parts[i], St(), us, level);
        PartsStayLive(s, St(), parts);
        PackedAllStep(s0, parts[..i], s, ts, parts[i], St(), us, level);
        ParentCellsAppend(ts, us);
        assert parts[..i + 1] == parts[..i] + [parts[i]];
        FilledMore(parts, i, packs, ts, us);
        ts, packs := ts + us, packs + [us];
        i := i + 1;
      }
      assert parts[..i] == parts;
      return Ok(cells), ts, packs;
    }

    /** Turns processed children into the cells of their parent. */
    method NormalizeChildren(level: nat, items: seq<Child>, ghost parts: seq<Part>) returns (r: Result<seq<InternalCell>>, ghost ts: seq<Tree>)
      requires Valid() && items == ChildrenOf(parts) && level < MAX_TREE_LEVEL
      requires PartsShaped(parts, level) && PartsLive(St(), parts) && Sorted(PartsFlat(parts))
      modifies this`freshPages, alloc`nextPageId, alloc`reusable, alloc`freed
      ensures r.Ok? ==> Valid() && r.value == ParentCells(ts) && PackedAll(old(St()), parts, St(), ts, level)
      ensures r.Ok? ==> Tidied(parts, ts)
      ensures r.Ok? ==> forall x :: x in Gone(old(St()), St()) ==> Dissolved(parts, level, x)
      ensures r.Err? ==> r.error == PageOverflow && !AllFit(PartsFlat(parts))
    {
      hide PackedAll, Transformed, PartsLive, PartsShaped, Known, Apart, ChildrenOf, PartsFlat, Sorted, ParentCells, AllFit, Ranges, Dissolved, Gone, LedgerOf, JoinsAll, Filled, NonEmpty, Underfull;
      ghost var s := St();
      var nonempty, ps, cuts := DropEmpties(items, level, parts);
      TransformedFacts(s, parts, s, ps, level);
      var merged, qs, joins := MergeUnderfull(nonempty, level, ps, parts, cuts);
      ghost var s1 := St();
      TransformedTransitive(s, parts, s, ps, s1, qs, level);
      TransformedFacts(s, parts, s1, qs, level);
      ghost var packs;
      r, ts, packs := PackAll(merged, level, qs);
      if r.Ok? {
        TidiedNow(parts, ts, qs, joins, packs);
        PackedAllThen(s, parts, s1, qs, St(), ts, level);
        GoneSame(s, s1, St());
      }
    }

    /** Rewrites a committed subtree by copying the paths its mutations touch. */
    method Rewrite(id: PageId, expected: Option<nat>, muts: seq<Mutation>, ghost t: Tree)
      returns (r: Result<Run>, ghost part: Part, ghost ps: seq<Planned>)
      requires Valid() && Committed(St(), t) && t.id == id && (Shaped(t) || t.Leaf?) && Sorted(Flat(t))
      requires MutationsSorted(muts) && AllStorable(muts)
      requires expected.Some? ==> expected.value == Height(t)
      modifies this, alloc
      ensures r.Ok? ==> Valid() && Plans(ps, muts) && PlannedSorted(ps) && !part.Kept? && r.value == RunOf(part)
      ensures r.Ok? ==> Rewritten(old(St()), t, ps, St(), part) && Settled(t, muts, ps, part)
      ensures r.Ok? ==> forall x :: x in Gone(old(St()), St()) ==> Spends(t, muts, x)
      ensures r.Err? ==> r.error == PageOverflow && !MutationsFit(muts)
      decreases t, 2
    {
      hide MutationsFit, AllFit, Rewritten, Spelled, Shaped, Known, Apart, PagesOf, Flat, FlatAll, Sorted, Less, Merge, Merged, Plans, PlannedSorted, CellsOf, LeafCost, ParentCells, Gone, Spends, Settled;
      ghost var s := St();
      CommittedReads(s, t);
      var node := ReadNode(disk, id, expected, muts);
      alloc.Free(id);
      ghost var s0 := St();
      assert s0 == Freeing(s, id);
      KnownUnchanged(s, s0);
      match node.value {
        case LeafRun(cells) =>
          LeafRead(disk, t, cells, muts);
          CommittedLeaf(s, t);
          var out;
          out, ps := MergeLeaf(cells, muts, t.entries);
          LeafRewritten(s, t, ps, St());
          LeafGone(s, t, ps, muts, St());
          LeafSettled(t, muts, ps, LeafPart(Merge(t.entries, ps)));
          part := LeafPart(Merge(t.entries, ps));
          r := Ok(LeafRun(out));
        case InternalRun(level, cells) =>
          InnerRead(disk, t, level, cells);
          r, part, ps := RewriteNode(level, cells, muts, t, s);
      }
    }

    method RewriteNode(level: nat, cells: seq<InternalCell>, muts: seq<Mutation>, ghost t: Tree, ghost s: State)
      returns (r: Result<Run>, ghost part: Part, ghost ps: seq<Planned>)
      requires Valid() && t.Node? && Shaped(t) && Sorted(Flat(t)) && Committed(s, t) && Apart(s) && St() == Freeing(s, t.id)
      requires level == t.level && cells == ParentCells(t.kids) && SeparatorsSorted(cells)
      requires MutationsSorted(muts) && AllStorable(muts)
      modifies this, alloc
      ensures r.Ok? ==> Valid() && Plans(ps, muts) && PlannedSorted(ps) && !part.Kept? && r.value == RunOf(part)
      ensures r.Ok? ==> Rewritten(s, t, ps, St(), part) && Settled(t, muts, ps, part)
      ensures r.Ok? ==> forall x :: x in Gone(s, St()) ==> Spends(t, muts, x)
      ensures r.Err? ==> r.error == PageOverflow && !MutationsFit(muts)
      decreases t, 1
    {
      hide MutationsFit, AllFit, Rewritten, Spelled, Shaped, Known, Apart, PagesOf, Flat, FlatAll, Sorted, Less, Merge, Plans, PlannedSorted, ParentCells,
           KidsDone, PackedAll, SeparatorsSorted, PartsFlat, PartsLive, PartsShaped, MutationsSorted, AllStorable, Gone, Spends, KidsRouted, KidsSpend, Dissolved, Settled, Tidied;
      ghost var s0 := St();
      CommittedNode(s, t);
      NodeKids(t);
      assert Committed(s0, t);
      var items;
      ghost var parts, at;
      items, parts, ps, at := RewriteKids(level, cells, muts, t);
      part := InnerPart(level, []);
      if items.Err? {
        return Err(items.error), part, ps;
      }
      ghost var s1 := St();
      KidsFlatSorted(s0, t.kids, ps, s1, parts, level - 1);
      var normalized, ts := NormalizeChildren(level - 1, items.value, parts);
      if normalized.Err? {
        KidsFit(t);
        MergeFitsIf(FlatAll(t.kids), ps, muts);
        return Err(normalized.error), part, ps;
      }
      NodeRewritten(s, t, ps, s1, parts, St(), ts);
      NodeGone(s, t, muts, ps, at, parts, s1, St(), ts);
      NodeSettled(t, muts, ps, at, parts, ts);
      part := InnerPart(level, ts);
      r := Ok(InternalRun(level, normalized.value));
    }

    /** Rewrites the children that mutations reach and keeps the others. */
    method RewriteKids(level: nat, cells: seq<InternalCell>, muts: seq<Mutation>, ghost t: Tree)
      returns (r: Result<seq<Child>>, ghost parts: seq<Part>, ghost ps: seq<Planned>, ghost at: seq<nat>)
      requires Valid() && t.Node? && Shaped(t) && Sorted(Flat(t)) && Committed(St(), t)
      requires level == t.level && cells == ParentCells(t.kids) && SeparatorsSorted(cells)
      requires MutationsSorted(muts) && AllStorable(muts)
      modifies this, alloc
      ensures r.Ok? ==> Valid() && Plans(ps, muts) && PlannedSorted(ps) && r.value == ChildrenOf(parts)
      ensures r.Ok? ==> KidsDone(old(St()), t.kids, |t.kids|, ps, St(), parts, level - 1)
      ensures r.Ok? ==> KidsRouted(t.kids, muts, ps, at, parts, |t.kids|)
      ensures r.Ok? ==> forall x :: x in Gone(old(St()), St()) ==> KidsSpend(t.kids, muts, |t.kids|, x)
      ensures r.Err? ==> r.error == PageOverflow && !MutationsFit(muts)
      decreases t, 0
    {
      hide MutationsFit, AllFit, Spelled, Shaped, Known, Apart, PagesOf, Flat, FlatAll, Sorted, Less, Merge, Plans, PlannedSorted, KidsDone, KidDone, Rewritten,
           Routes, SeparatorsSorted, ParentCells, FirstKey, ChildOf, MutationsSorted, AllStorable, Committed, Gone, Spends, KidsRouted, KidsSpend, Share, RoutedKid;
      ghost var s0 := St();
      ghost var kids := t.kids;
      var ends := RouteMutations(cells, muts);
      NodeKids(t);
      RouteFacts(cells, muts, ends);
      parts, ps, at := [], [], [0];
      var items: seq<Child> := [];
      var start := 0;
      NoKidsRouted(kids, muts);
      GoneNothing(s0, s0);
      KidsStart(s0, kids, level - 1);
      PlansNothing(muts);
      while |items| < |cells|
        invariant Valid() && |items| <= |cells| && start <= |muts|
        invariant start == if items == [] then 0 else ends[|items| - 1]
        invariant items == [] ==> ps == []
        invariant items == ChildrenOf(parts) && KidsDone(s0, kids, |items|, ps, St(), parts, level - 1)
        invariant Plans(ps, muts[..start]) && PlannedSorted(ps)
        invariant KidsRouted(kids, muts, ps, at, parts, |items|) && |at| == |items| + 1 && at[|items|] == start
        invariant forall x :: x in Gone(s0, St()) ==> KidsSpend(kids, muts, |items|, x)
      {
        ghost var i, s := |items|, St();
        var index, end := |items|, ends[|items|];
        EndAfterStart(cells, muts, ends, index);
        KidsFacts(s0, kids, i, ps, s, parts, level - 1);
        KidReady(s0, s, t, i);
        SeparatorOf(kids, i);
        RouteBounds(cells, muts, ends, i, start);
        PlannedBeforeKid(ps, muts, start, FirstKey(kids[i]));
        MutationSlice(muts, start, end);
        ghost var part, qs;
        var item;
        if start == end {
          part, qs := Kept(kids[i]), [];
          KidKept(s, kids[i]);
          KeepChild(kids, i);
          PlansNone(muts, start);
          item := Keep(cells[index]);
        } else {
          var run;
          run, part, qs := Rewrite(cells[index].child, Some(level - 1), muts[start..end], kids[i]);
          if run.Err? {
            NotFitting(muts, start, end);
            return Err(run.error), parts, ps, at;
          }
          KidRewritten(s, kids[i], qs, St(), part);
          ChangedChildOf(s, kids[i], qs, St(), part);
          item := Changed(run.value);
        }
        if i > 0 {
          PlannedFromKid(qs, muts, start, end, FirstKey(kids[i]));
        }
        KidsNext(s0, kids, i, ps, s, parts, qs, St(), part, level - 1);
        NextShare(kids, cells, muts, ends, i, start, end);
        PlansLength(ps, muts[..start]);
        PlansLength(qs, muts[start..end]);
        KidIsRouted(s, kids[i], qs, St(), part, level - 1);
        KidRouted(kids, muts, ps, at, parts, i, qs, part, end);
        KidsGone(s0, s, St(), kids, muts, i, start, end);
        at := at + [end];
        PlansAppend(ps, qs, muts, start, end);
        PlannedJoin(ps, qs, muts, end);
        ChildrenSnoc(parts, part);
        items, parts, ps := items + [item], parts + [part], ps + qs;
        start := end;
      }
      LastEnd(cells, muts, ends);
      assert muts[..|muts|] == muts;
      return Ok(items), parts, ps, at;
    }

    /** Packs level after level until one page remains. */
    method GrowRoot(cells0: seq<InternalCell>, level0: nat, ghost s0: State, ghost es: seq<Entry>, ghost ts0: seq<Tree>)
      returns (r: Result<(PageId, nat)>, ghost t: Tree)
      requires Valid() && cells0 == ParentCells(ts0) && es != [] && Top(s0, St(), es, ts0, level0)
      modifies this`freshPages, alloc`nextPageId, alloc`reusable
      ensures r.Ok? ==> Valid() && r.value == (t.id, Height(t)) && Shaped(t) && Rooted(s0, St(), es, t)
      ensures r.Err? ==> r.error == HeightLimit && !Roomy(es, |ts0|, level0)
    {
      hide Top, Rooted, Packed, Known, Apart, Shaped, ShapedAll, PartLive, ParentCell, Since, EachFits, InternalCosts, EachSmall, FlatAll, Roomy;
      var cells, level := cells0, level0;
      ghost var ts := ts0;
      t := Leaf(0, []);
      while |cells| > 1
        invariant Valid() && cells == ParentCells(ts) && Top(s0, St(), es, ts, level)
        invariant Roomy(es, |ts0|, level0) ==> Roomy(es, |ts|, level)
        decreases MAX_TREE_LEVEL + 1 - level
      {
        if level + 1 > MAX_TREE_LEVEL {
          NotRoomy(es, |ts|, level);
          return Err(HeightLimit), t;
        }
        ghost var s := St();
        TopFacts(s0, s, es, ts, level);
        var packed, us := PackInternal(level + 1, cells, ts);
        // separators are keys of leaf cells, so they always fit
        if packed.Err? {
          SeparatorsFit(ts, level);
          assert false;
        }
        if Roomy(es, |ts|, level) {
          RoomyCells(s0, s, es, ts, level);
          Halved(es, |ts|, |us|, level);
        }
        TopRepacked(s0, s, es, ts, level, St(), us);
        cells, ts, level := packed.value, us, level + 1;
      }
      TopNonempty(s0, St(), es, ts, level);
      t := ts[0];
      assert ts == [t];
      TopRooted(s0, St(), es, t, level);
      ParentCellIs(t);
      return Ok((cells[0].child, level)), t;
    }

    /** The only child of a page, if it is an internal page with one child. */
    method SingleChild(id: PageId, ghost s0: State, ghost es: seq<Entry>, ghost t: Tree) returns (only: Option<PageId>)
      requires Valid() && id == t.id && Rooted(s0, St(), es, t)
      ensures only.Some? <==> t.Node? && |t.kids| == 1
      ensures only.Some? ==> only.value == t.kids[0].id
    {
      hide Rooted, Known, Apart, PagesOf, Flat, ViewOf, Since;
      RootIsReadable(s0, St(), es, t);
      AboveFacts(s0, St(), es, t);
      var page := if id in freshPages then freshPages[id] else disk[id];
      if page.InternalPage? && |page.cells| == 1 {
        return Some(page.cells[0].child);
      }
      return None;
    }

    /** Drops one root with a single child: unpublished if this commit wrote it, freed otherwise. */
    method DropRoot(root: PageId, ghost s0: State, ghost es: seq<Entry>, ghost t: Tree)
      requires Valid() && Fresh(s0) && Rooted(s0, St(), es, t) && root == t.id && t.Node? && |t.kids| == 1 && Shaped(t)
      requires OneCommitted(disk, base)
      modifies this`freshPages, alloc`reusable, alloc`freed
      ensures Valid() && Rooted(s0, St(), es, t.kids[0])
      ensures forall x :: x in Gone(old(St()), St()) ==> OnlyBranch(disk, es, x)
    {
      hide Rooted, Known, Apart, Shaped, PagesOf, Flat, ViewOf, Since, Fresh, Dropping, Gone, OnlyBranch, OneCommitted;
      ghost var s := St();
      AboveFacts(s0, s, es, t);
      if root in freshPages {
        CollapseFresh(s0, s, es, t);
        freshPages := freshPages - {root};
        DroppingIs(s, root, St());
        alloc.ReleaseUnpublished(root);
        GoneNothing(s, St());
      } else {
        CollapseCommitted(s0, s, es, t);
        RootIsOnlyBranch(s0, s, es, t);
        GoneOne(s, root);
        alloc.Free(root);
        assert St() == Freeing(s, root);
        KnownUnchanged(s, St());
      }
      AboveFacts(s0, St(), es, t.kids[0]);
    }

    /** Drops roots with a single child. */
    method CollapseRoot(root0: PageId, level0: nat, ghost s0: State, ghost es: seq<Entry>, ghost t0: Tree) returns (root: PageId, ghost t: Tree)
      requires Valid() && root0 == t0.id && level0 == Height(t0) && Shaped(t0) && Fresh(s0) && Rooted(s0, St(), es, t0)
      requires OneCommitted(disk, base)
      modifies this`freshPages, alloc`reusable, alloc`freed
      ensures Valid() && root == t.id && Shaped(t) && (t.Node? ==> |t.kids| != 1) && Rooted(s0, St(), es, t)
      ensures forall x :: x in Gone(old(St()), St()) ==> OnlyBranch(disk, es, x)
    {
      hide Rooted, Known, Apart, Shaped, PagesOf, Flat, ViewOf, Since, Fresh, Dropping, Gone, OnlyBranch, OneCommitted;
      ghost var before := St();
      GoneNothing(before, before);
      var level := level0;
      root, t := root0, t0;
      var only := SingleChild(root, s0, es, t);
      while only.Some?
        invariant Valid() && root == t.id && level == Height(t) && Shaped(t) && Rooted(s0, St(), es, t)
        invariant only.Some? <==> t.Node? && |t.kids| == 1
        invariant only.Some? ==> only.value == t.kids[0].id
        invariant forall x :: x in Gone(before, St()) ==> OnlyBranch(disk, es, x)
        decreases level
      {
        ghost var s := St();
        DropRoot(root, s0, es, t);
        BranchesGone(before, s, St(), disk, es);
        OnlyKid(t);
        root, t, level := only.value, t.kids[0], level - 1;
        AboveFacts(s0, St(), es, t);
        only := SingleChild(root, s0, es, t);
      }
    }

    method FinishRoot(run: Run, ghost s0: State, ghost part: Part) returns (r: Result<PageId>, ghost t: Tree)
      requires Valid() && !part.Kept? && run == RunOf(part) && PartShaped(part, RunLevel(run)) && PartLive(St(), part)
      requires Fresh(s0) && Since(s0, St()) && Balanced(s0.base, LedgerOf(s0), PartPages(part), LedgerOf(St()))
      requires OneCommitted(disk, base)
      modifies this`freshPages, alloc`nextPageId, alloc`reusable, alloc`freed
      ensures r.Ok? ==> Valid() && r.value == t.id && ShapedRoot(t) && Rooted(s0, St(), PartFlat(part), t)
      ensures r.Ok? ==> forall x :: x in Gone(old(St()), St()) ==> OnlyBranch(disk, PartFlat(part), x)
      ensures r.Err? ==> (r.error == PageOverflow && !AllFit(PartFlat(part))) || (r.error == HeightLimit && !Roomy(PartFlat(part), |PartFlat(part)|, RunLevel(run)))
    {
      hide Rooted, Known, Apart, Shaped, PartLive, Top, Packed, Since, Fresh, LedgerOf, Balanced, PartFlat, PartPages, AllFit, Roomy, Gone, OnlyBranch, OneCommitted;
      ghost var s, es := St(), PartFlat(part);
      GoneNothing(s, s);
      if RunEmpty(run) {
        DropEmpty(part);
        var id := alloc.Allocate();
        EmptyRoot(s0, s, id);
        EmitPage(id, LeafPage([]));
        GoneNothing(s, St());
        return Ok(id), Leaf(id, []);
      }
      NonemptyFlat(part, RunLevel(run));
      var cells, level;
      ghost var ts;
      if run.InternalRun? && |run.icells| == 1 {
        cells, level, ts := run.icells, run.level - 1, SingleKid(part);
        SingleKidTop(s0, s, part, ts);
      } else {
        var packed;
        packed, ts := Pack(run, part);
        if packed.Err? {
          if RunLevel(run) > MAX_TREE_LEVEL {
            NotRoomy(es, |es|, RunLevel(run));
          }
          t := Leaf(0, []);
          return Err(packed.error), t;
        }
        cells, level := packed.value, RunLevel(run);
        TopPacked(s0, s, part, St(), ts, level);
      }
      ghost var s1 := St();
      var grown;
      grown, t := GrowRoot(cells, level, s0, es, ts);
      if grown.Err? {
        LessRoomy(s0, s1, es, ts, level, RunLevel(run));
        return Err(grown.error), t;
      }
      var root;
      ghost var s2 := St();
      GoneNothing(s, s2);
      root, t := CollapseRoot(grown.value.0, grown.value.1, s0, es, t);
      BranchesGone(s, s2, St(), disk, es);
      RootShape(t);
      return Ok(root), t;
    }
  }

  lemma {:induction false} JoinedFlat(s: State, a: Part, b: Part, s': State, j: Part, height: nat)
    requires Transformed(s, [a, b], s', [j], height)
    ensures PartFlat(j) == PartFlat(a) + PartFlat(b)
  {
    hide PartFlat, PartsLive, PartsShaped, Balanced, Grown, Apart, PartsFlat;
    assert [a, b] == [a] + [b];
    PartsFlatAppend([a], [b]);
    OnePart(a);
    OnePart(b);
    OnePart(j);
  }

  /** What dissolving two neighbours frees. */
  lemma {:induction false} PairGone(s: State, a: Part, s1: State, pa: Part, b: Part, s2: State, pb: Part, height: nat)
    requires Transformed(s, [a], s1, [pa], height) && Transformed(s1, [b], s2, [pb], height)
    requires (forall x :: x in Gone(s, s1) ==> a.Kept? && x == a.tree.id) && forall x :: x in Gone(s1, s2) ==> b.Kept? && x == b.tree.id
    ensures forall x :: x in Gone(s, s2) ==> (a.Kept? && x == a.tree.id) || (b.Kept? && x == b.tree.id)
  {
    hide Transformed, Gone;
    TransformedFacts(s, [a], s1, [pa], height);
    TransformedFacts(s1, [b], s2, [pb], height);
    forall x | x in Gone(s, s2) ensures (a.Kept? && x == a.tree.id) || (b.Kept? && x == b.tree.id) {
      GoneTwice(s, s1, s2, x);
    }
  }

  lemma {:induction false} MoreGone(s0: State, s: State, s': State, origin: seq<Part>, height: nat)
    requires Grown(s0, s) && Grown(s, s')
    requires (forall x :: x in Gone(s0, s) ==> Dissolved(origin, height, x)) && forall x :: x in Gone(s, s') ==> Dissolved(origin, height, x)
    ensures forall x :: x in Gone(s0, s') ==> Dissolved(origin, height, x)
  {
    hide Grown, Gone, Dissolved;
    forall x | x in Gone(s0, s') ensures Dissolved(origin, height, x) {
      GoneTwice(s0, s, s', x);
    }
  }

  lemma {:induction false} GoneSame(s: State, s1: State, s2: State)
    requires s2.freed == s1.freed
    ensures Gone(s, s2) == Gone(s, s1)
  {
  }

  lemma {:induction false} LeafGone(s: State, t: Tree, ps: seq<Planned>, muts: seq<Mutation>, s': State)
    requires t.Leaf? && t.id in s.base && Plans(ps, muts) && Merged(Freeing(s, t.id), s', t.entries, ps)
    ensures forall x :: x in Gone(s, s') ==> Spends(t, muts, x)
  {
    hide Plans, Merge, Replaced, Puts, PartLive, LedgerOf, Balanced, Grown, Apart, ChainPages, RefsOf, Gone, Spends;
    FreeingBooks(s, t.id);
    LeafSpends(s, t, ps, muts, s');
  }

  lemma {:induction false} NodeGone(s: State, t: Tree, muts: seq<Mutation>, ps: seq<Planned>, at: seq<nat>, parts: seq<Part>, s1: State, s2: State, ts: seq<Tree>)
    requires t.Node? && Shaped(t) && Sorted(Flat(t)) && MutationsSorted(muts) && Plans(ps, muts) && PlannedSorted(ps) && t.id in s.base
    requires KidsDone(Freeing(s, t.id), t.kids, |t.kids|, ps, s1, parts, t.level - 1) && PackedAll(s1, parts, s2, ts, t.level - 1)
    requires KidsRouted(t.kids, muts, ps, at, parts, |t.kids|)
    requires forall x :: x in Gone(Freeing(s, t.id), s1) ==> KidsSpend(t.kids, muts, |t.kids|, x)
    requires forall x :: x in Gone(s1, s2) ==> Dissolved(parts, t.level - 1, x)
    ensures forall x :: x in Gone(s, s2) ==> Spends(t, muts, x)
  {
    hide KidsRouted, KidsSpend, Dissolved, Grown, Gone, Freeing, ShapedAll, Sorted, Flat, Plans, PlannedSorted, MutationsSorted, Spends, LedgerOf, Balanced, PartLive, Apart;
    FreeingBooks(s, t.id);
    assert ChildHeight(t) == t.level - 1;
    hide Shaped;
    NodeSpends(s, t, muts, ps, at, parts, s1, s2);
  }

  /** The mutations between two ends go to one child. */
  lemma {:induction false} NextShare(kids: seq<Tree>, cells: seq<InternalCell>, muts: seq<Mutation>, ends: seq<nat>, i: nat, start: nat, end: nat)
    requires Routes(cells, muts, ends) && cells == ParentCells(kids) && i < |cells| && start == (if i == 0 then 0 else ends[i - 1]) && end == ends[i]
    ensures Share(kids, muts, i, start, end)
  {
    hide Less, FirstKey, Share;
    EndAfterStart(cells, muts, ends, i);
    RouteBounds(cells, muts, ends, i, start);
    SeparatorOf(kids, i);
    if i + 1 < |cells| {
      RouteBounds(cells, muts, ends, i + 1, end);
      SeparatorOf(kids, i + 1);
    } else {
      LastEnd(cells, muts, ends);
    }
    RouteSlice(kids, muts, i, start, end);
  }

  lemma {:induction false} PlansLength(ps: seq<Planned>, muts: seq<Mutation>)
    requires Plans(ps, muts)
    ensures |ps| == |muts|
  {
  }

  lemma {:induction false} KidIsRouted(s: State, kid: Tree, qs: seq<Planned>, s': State, part: Part, height: nat)
    requires KidDone(s, kid, qs, s', part, height) && (part.Kept? <==> qs == []) && (part.Kept? ==> part.tree == kid)
    ensures RoutedKid(kid, qs, part) && Grown(s, s')
  {
    hide PartFlat, Merge, Flat, Balanced, Grown, Apart, PartShaped, PartLive;
  }

  /** What one more child frees is freed below it. */
  lemma {:induction false} KidsGone(s0: State, s: State, s': State, kids: seq<Tree>, muts: seq<Mutation>, i: nat, start: nat, end: nat)
    requires Grown(s0, s) && Grown(s, s') && i < |kids| && start <= end <= |muts| && Share(kids, muts, i, start, end)
    requires forall x :: x in Gone(s0, s) ==> KidsSpend(kids, muts, i, x)
    requires if start == end then s' == s else forall x :: x in Gone(s, s') ==> Spends(kids[i], muts[start..end], x)
    ensures forall x :: x in Gone(s0, s') ==> KidsSpend(kids, muts, i + 1, x)
  {
    hide Grown, Gone, Spends, Share;
    forall x | x in Gone(s0, s') ensures KidsSpend(kids, muts, i + 1, x) {
      GoneTwice(s0, s, s', x);
      if x in Gone(s0, s) {
        KidsSpendMore(kids, muts, i, x);
      } else if start == end {
        GoneNothing(s, s');
      }
    }
  }

  lemma {:induction false} BranchesGone(s: State, s1: State, s2: State, disk: map<PageId, Page>, es: seq<Entry>)
    requires (forall x :: x in Gone(s, s1) ==> OnlyBranch(disk, es, x)) && forall x :: x in Gone(s1, s2) ==> OnlyBranch(disk, es, x)
    ensures forall x :: x in Gone(s, s2) ==> OnlyBranch(disk, es, x)
  {
    hide Gone, OnlyBranch;
    forall x | x in Gone(s, s2) ensures OnlyBranch(disk, es, x) {
      GoneTwice(s, s1, s2, x);
    }
  }

  lemma {:induction false} NothingFilled()
    ensures Filled([], [], [])
  {
  }

  lemma {:induction false} KeptIsOne(p: Part)
    requires p.Kept?
    ensures PackedOne(p, [p.tree])
  {
  }

  lemma {:induction false} TidiedNow(parts: seq<Part>, ts: seq<Tree>, runs: seq<Part>, joins: seq<nat>, packs: seq<seq<Tree>>)
    requires JoinsAll(NonEmpty(parts), runs, joins) && Filled(runs, packs, ts)
    requires |runs| < 2 || forall i :: 0 <= i < |ChildrenOf(runs)| ==> !Underfull(ChildrenOf(runs)[i])
    ensures Tidied(parts, ts)
  {
    hide JoinsAll, Filled, NonEmpty, Underfull, ChildOf;
    forall i | 0 <= i < |runs| && |runs| >= 2 ensures !Underfull(ChildOf(runs[i])) {
      assert !Underfull(ChildrenOf(runs)[i]);
    }
    assert TidiedBy(parts, ts, runs, joins, packs);
  }

  lemma {:induction false} NodeSettled(t: Tree, muts: seq<Mutation>, ps: seq<Planned>, at: seq<nat>, parts: seq<Part>, ts: seq<Tree>)
    requires t.Node? && KidsRouted(t.kids, muts, ps, at, parts, |t.kids|) && Tidied(parts, ts)
    ensures Settled(t, muts, ps, InnerPart(t.level, ts))
  {
    hide KidsRouted, Tidied;
  }

  lemma {:induction false} LeafSettled(t: Tree, muts: seq<Mutation>, ps: seq<Planned>, part: Part)
    requires t.Leaf?
    ensures Settled(t, muts, ps, part)
  {
  }

  lemma {:induction false} NotRoomy(es: seq<Entry>, subtrees: nat, height: nat)
    requires height > MAX_TREE_LEVEL || (height == MAX_TREE_LEVEL && subtrees > 1)
    ensures !Roomy(es, subtrees, height)
  {
    assert Pow2(0) == 1;
  }

  lemma {:induction false} RoomyCells(s0: State, s: State, es: seq<Entry>, ts: seq<Tree>, height: nat)
    requires Top(s0, s, es, ts, height) && Roomy(es, |ts|, height)
    ensures EachSmall(InternalCosts(ParentCells(ts)))
  {
    hide Shaped, FlatAll, PartLive, Apart, Since, Balanced, LedgerOf, PagesOfAll, EachSmall;
    BoundedSeparators(ts, height);
  }

  /** Few entries make few subtrees; a single child needs no growing. */
  lemma {:induction false} LessRoomy(s0: State, s: State, es: seq<Entry>, ts: seq<Tree>, height: nat, level: nat)
    requires Top(s0, s, es, ts, height) && !Roomy(es, |ts|, height) && (height == level || (level > 0 && height == level - 1 && |ts| == 1))
    ensures !Roomy(es, |es|, level)
  {
    hide Shaped, FlatAll, PartLive, Apart, Since, Balanced, LedgerOf, PagesOfAll, EachSmall, KeysBounded;
    BoundedSeparators(ts, height);
    PowPositive(if height <= MAX_TREE_LEVEL then MAX_TREE_LEVEL - height else 0);
  }

  lemma {:induction false} PowPositive(n: nat)
    ensures Pow2(n) >= 1
    decreases n
  {
    if n > 0 {
      PowPositive(n - 1);
    }
  }

  lemma {:induction false} TopFacts(s0: State, s: State, es: seq<Entry>, ts: seq<Tree>, height: nat)
    requires Top(s0, s, es, ts, height)
    ensures PartLive(s, InnerPart(height + 1, ts)) && ShapedAll(ts, height)
  {
  }

  lemma {:induction false} ParentCellIs(t: Tree)
    ensures ParentCells([t])[0].child == t.id
  {
  }

  lemma {:induction false} DroppingIs(s: State, id: PageId, s': State)
    requires s' == s.(freshPages := s.freshPages - {id})
    ensures s' == Dropping(s, id)
    ensures forall x :: Known(s', x) ==> Known(s, x)
  {
  }

  lemma {:induction false} NonemptyFlat(p: Part, height: nat)
    requires !p.Kept? && !RunEmpty(RunOf(p)) && PartShaped(p, height)
    ensures PartFlat(p) != []
  {
    if p.InnerPart? {
      assert |ParentCells(p.kids)| == |p.kids|;
      FirstKeyIsFirst(p.kids[0]);
    } else {
      assert |CellsOf(p.entries)| == |p.entries|;
    }
  }

  ghost function SingleKid(p: Part): seq<Tree> {
    if p.InnerPart? then p.kids else []
  }

  lemma {:induction false} SingleKidTop(s0: State, s: State, p: Part, ts: seq<Tree>)
    requires p.InnerPart? && PartShaped(p, p.level) && PartLive(s, p) && ts == SingleKid(p)
    requires Apart(s) && Since(s0, s) && Balanced(s0.base, LedgerOf(s0), PartPages(p), LedgerOf(s))
    ensures p.level > 0 && Top(s0, s, PartFlat(p), ts, p.level - 1) && RunOf(p) == InternalRun(p.level, ParentCells(ts))
  {
  }

  lemma {:induction false} RootShape(t: Tree)
    requires Shaped(t) && (t.Node? ==> |t.kids| != 1)
    ensures ShapedRoot(t)
  {
  }

  lemma {:induction false} ChildCases(p: Part)
    ensures ChildOf(p).Keep? <==> p.Kept?
    ensures p.Kept? ==> ChildOf(p) == Keep(ParentCell(p.tree)) && ParentCells([p.tree]) == [ParentCell(p.tree)]
    ensures !p.Kept? ==> ChildOf(p) == Changed(RunOf(p))
  {
  }

  lemma {:induction false} PartRunLevel(p: Part, level: nat)
    requires !p.Kept? && PartShaped(p, level)
    ensures RunLevel(RunOf(p)) == level
  {
  }

  lemma {:induction false} PackedFacts(s: State, p: Part, s': State, ts: seq<Tree>, height: nat)
    requires Packed(s, p, s', ts, height)
    ensures Apart(s') && Grown(s, s')
  {
  }

  lemma {:induction false} ParentCellsAppend(a: seq<Tree>, b: seq<Tree>)
    ensures ParentCells(a + b) == ParentCells(a) + ParentCells(b)
  {
  }

  lemma {:induction false} CommittedReads(s: State, t: Tree)
    requires Committed(s, t) && Sorted(Flat(t)) && (Shaped(t) || t.Leaf?)
    ensures t.id in s.disk && NodeOk(s.disk, t.id, None) && NodeOk(s.disk, t.id, Some(Height(t)))
    ensures t.id in s.base
  {
    hide Shaped, Sorted, PagesOf;
    TreeReads(s.disk, t);
    Root(t);
    assert s.base[t.id] >= PagesOf(t)[t.id];
  }

  lemma {:induction false} Root(t: Tree)
    ensures t.id in PagesOf(t)
  {
  }

  lemma {:induction false} LeafRead(pages: map<PageId, Page>, t: Tree, cells: seq<LeafCell>, muts: seq<Mutation>)
    requires Spelled(pages, t) && pages[t.id].LeafPage? && ReadsCells(cells, pages[t.id].leafCells, muts)
    ensures t.Leaf? && Flat(t) == t.entries && ReadAs(cells, t.entries, muts)
  {
    forall i | 0 <= i < |t.entries|
      ensures cells[i] == t.entries[i].cell || (Mutated(muts, t.entries[i].cell.key) && cells[i] == Blank(t.entries[i].cell))
    {
      assert CellsOf(t.entries)[i] == t.entries[i].cell;
    }
  }

  lemma {:induction false} InnerRead(pages: map<PageId, Page>, t: Tree, level: nat, cells: seq<InternalCell>)
    requires Spelled(pages, t) && pages[t.id] == InternalPage(level, cells)
    requires NodeOk(pages, t.id, None)
    ensures t.Node? && t.level == level && cells == ParentCells(t.kids) && SeparatorsSorted(cells) && 1 <= level <= MAX_TREE_LEVEL
  {
  }

  lemma {:induction false} KidsFlatSorted(s: State, kids: seq<Tree>, ps: seq<Planned>, s': State, parts: seq<Part>, height: nat)
    requires KidsDone(s, kids, |kids|, ps, s', parts, height) && Sorted(FlatAll(kids)) && PlannedSorted(ps)
    ensures Sorted(PartsFlat(parts)) && PartsShaped(parts, height) && PartsLive(s', parts)
    ensures PartsFlat(parts) == Merge(FlatAll(kids), ps)
  {
    hide Sorted, Merge, PlannedSorted;
    assert kids[..|kids|] == kids;
    MergeSorted(FlatAll(kids), ps);
  }

  lemma {:induction false} KidsFit(t: Tree)
    requires t.Node? && Shaped(t)
    ensures AllFit(FlatAll(t.kids))
  {
    hide AllFit;
    AllShapedFit(t.kids, t.level - 1);
  }

  lemma {:induction false} NotFitting(muts: seq<Mutation>, start: nat, end: nat)
    requires start <= end <= |muts| && !MutationsFit(muts[start..end])
    ensures !MutationsFit(muts)
  {
    hide MutationsFit;
    if MutationsFit(muts) {
      SliceFits(muts, start, end);
    }
  }

  lemma {:induction false} PartDoesNotFit(parts: seq<Part>, i: nat)
    requires i < |parts| && !AllFit(PartFlat(parts[i]))
    ensures !AllFit(PartsFlat(parts))
  {
    hide AllFit, PartFlat, PartsFlat;
    var before, after := parts[..i], parts[i + 1..];
    assert parts == before + ([parts[i]] + after);
    PartsFlatAppend(before, [parts[i]] + after);
    PartsFlatAppend([parts[i]], after);
    OnePart(parts[i]);
    AllFitAppend(PartsFlat(before), PartFlat(parts[i]) + PartsFlat(after));
    AllFitAppend(PartFlat(parts[i]), PartsFlat(after));
  }

  lemma {:induction false} NodeKids(t: Tree)
    requires t.Node? && Shaped(t)
    ensures Flat(t) == FlatAll(t.kids) && ShapedAll(t.kids, t.level - 1) && |t.kids| > 0
    ensures 1 <= t.level <= MAX_TREE_LEVEL && |ParentCells(t.kids)| == |t.kids|
  {
  }

  lemma {:induction false} RouteFacts(cells: seq<InternalCell>, muts: seq<Mutation>, ends: seq<nat>)
    requires Routes(cells, muts, ends)
    ensures |ends| == |cells| && forall i :: 0 <= i < |ends| ==> ends[i] <= |muts|
  {
  }

  lemma {:induction false} LastEnd(cells: seq<InternalCell>, muts: seq<Mutation>, ends: seq<nat>)
    requires Routes(cells, muts, ends) && |cells| > 0
    ensures ends[|cells| - 1] == |muts|
  {
  }

  lemma {:induction false} EndAfterStart(cells: seq<InternalCell>, muts: seq<Mutation>, ends: seq<nat>, i: nat)
    requires Routes(cells, muts, ends) && i < |cells|
    ensures (if i == 0 then 0 else ends[i - 1]) <= ends[i] <= |muts|
  {
  }

  lemma {:induction false} RouteBounds(cells: seq<InternalCell>, muts: seq<Mutation>, ends: seq<nat>, i: nat, start: nat)
    requires Routes(cells, muts, ends) && i < |cells| && start == (if i == 0 then 0 else ends[i - 1])
    ensures start <= |muts|
    ensures forall m :: 0 <= m < start ==> Less(muts[m].key, cells[i].separator)
    ensures i > 0 ==> forall m :: start <= m < |muts| ==> !Less(muts[m].key, cells[i].separator)
  {
  }

  lemma {:induction false} SeparatorOf(kids: seq<Tree>, i: nat)
    requires i < |kids|
    ensures ParentCells(kids)[i] == InternalCell(FirstKey(kids[i]), kids[i].id)
  {
  }

  lemma {:induction false} KidsFacts(s: State, kids: seq<Tree>, i: nat, ps: seq<Planned>, s': State, parts: seq<Part>, height: nat)
    requires KidsDone(s, kids, i, ps, s', parts, height)
    ensures Apart(s') && Grown(s, s')
  {
  }

  lemma {:induction false} KidReady(s0: State, s: State, t: Tree, i: nat)
    requires t.Node? && i < |t.kids| && Shaped(t) && Sorted(Flat(t)) && Committed(s0, t) && Grown(s0, s)
    ensures Committed(s, t.kids[i]) && Shaped(t.kids[i]) && Height(t.kids[i]) == t.level - 1 && Sorted(Flat(t.kids[i]))
  {
    hide Sorted, PagesOf, FlatAll;
    CommittedKid(s0, t, i);
    NodeKids(t);
    SortedKid(t.kids, i);
  }

  lemma {:induction false} KeepChild(kids: seq<Tree>, i: nat)
    requires i < |kids|
    ensures Keep(ParentCells(kids)[i]) == ChildOf(Kept(kids[i]))
  {
  }

  lemma {:induction false} ChangedChildOf(s: State, kid: Tree, qs: seq<Planned>, s': State, part: Part)
    requires Rewritten(s, kid, qs, s', part)
    ensures !part.Kept? && ChildOf(part) == Changed(RunOf(part))
  {
  }

  lemma {:induction false} PlansNothing(muts: seq<Mutation>)
    ensures Plans([], muts[..0]) && PlannedSorted([])
  {
  }

  lemma {:induction false} PlansNone(muts: seq<Mutation>, at: nat)
    requires at <= |muts|
    ensures Plans([], muts[at..at]) && PlannedSorted([])
  {
  }

  lemma {:induction false} PlannedJoin(ps: seq<Planned>, qs: seq<Planned>, muts: seq<Mutation>, end: nat)
    requires end <= |muts| && MutationsSorted(muts) && PlannedSorted(ps) && PlannedSorted(qs) && Plans(ps + qs, muts[..end])
    ensures PlannedSorted(ps + qs)
  {
    hide Less;
    assert MutationsSorted(muts[..end]);
    PlannedFollowMutations(ps + qs, muts[..end]);
  }

  lemma {:induction false} SinglePartTransforms(s: State, p: Part, level: nat)
    requires Apart(s) && PartShaped(p, level) && PartLive(s, p)
    ensures Transformed(s, [p], s, [p], level)
  {
    hide Transformed, PartShaped, PartLive;
    TransformedReflexive(s, [p], level);
  }

  /** A committed page reads as the run under it. */
  lemma {:induction false} NodeRun(pages: map<PageId, Page>, t: Tree, run: Run)
    requires Spelled(pages, t)
    requires match pages[t.id]
             case LeafPage(cells) => run.LeafRun? && ReadsCells(run.cells, cells, [])
             case InternalPage(level, cells) => run == InternalRun(level, cells)
             case OverflowPage(_, _) => false
    ensures run == RunOf(PartUnder(t))
  {
    if t.Leaf? {
      assert forall i :: 0 <= i < |run.cells| ==> run.cells[i] == CellsOf(t.entries)[i];
      assert run.cells == CellsOf(t.entries);
    }
  }

  lemma {:induction false} ChangedChild(p: Part)
    requires !p.Kept?
    ensures ChildOf(p) == Changed(RunOf(p))
  {
  }

  lemma {:induction false} EmptyMore(parts: seq<Part>, lo: nat, i: nat)
    requires lo <= i < |parts| && PartsFlat(parts[lo..i]) == [] && !parts[i].Kept? && RunEmpty(RunOf(parts[i]))
    ensures PartsFlat(parts[lo..i + 1]) == []
  {
    hide PartsFlat, PartFlat;
    DropEmpty(parts[i]);
    FlatSplit(parts, lo, i, i + 1);
    assert parts[i..i + 1] == [parts[i]];
    OnePart(parts[i]);
  }

  lemma {:induction false} NonemptyPart(p: Part, height: nat)
    requires PartShaped(p, height) && !(ChildOf(p).Changed? && RunEmpty(ChildOf(p).run))
    ensures PartFlat(p) != []
  {
    if p.Kept? {
      FirstKeyIsFirst(p.tree);
    } else {
      NonemptyFlat(p, height);
    }
  }

  lemma {:induction false} ChildrenSnoc(ps: seq<Part>, p: Part)
    ensures ChildrenOf(ps + [p]) == ChildrenOf(ps) + [ChildOf(p)]
  {
  }

  lemma {:induction false} CellsOfOne(e: Entry)
    ensures CellsOf([e]) == [e.cell]
  {
  }

  lemma {:induction false} PlanKey(p: Planned, m: Mutation)
    requires Plans([p], [m])
    ensures p.key == m.key
  {
    assert [p][0] == p && [m][0] == m;
  }

  lemma {:induction false} WritingIs(s: State, images: map<PageId, Page>, s': State)
    requires s' == s.(overflowImages := s.overflowImages + images)
    ensures s' == WritingChain(s, images)
  {
  }

  lemma {:induction false} KnownUnchanged(s: State, s': State)
    requires s'.base == s.base && s'.freshPages == s.freshPages && s'.overflowImages == s.overflowImages
    ensures forall x :: Known(s', x) <==> Known(s, x)
    ensures Apart(s) ==> Apart(s')
  {
  }
}
