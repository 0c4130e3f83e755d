/** Which mutations are too large for any page, and that nothing else can overflow one. */
module Fitting {
  import opened Keys
  import opened Pages
  import opened MergeSpec
  import opened Split

  ghost predicate AllFit(es: seq<Entry>) {
    forall i :: 0 <= i < |es| ==> LeafCellCost(es[i].cell) <= NODE_CAPACITY
  }

  ghost predicate MutationsFit(muts: seq<Mutation>) {
    forall i :: 0 <= i < |muts| ==> MutationCost(muts[i]) <= NODE_CAPACITY
  }

  lemma {:induction false} AllFitAppend(a: seq<Entry>, b: seq<Entry>)
    ensures AllFit(a + b) <==> AllFit(a) && AllFit(b)
  {
    hide LeafCellCost;
    if AllFit(a + b) {
      forall i | 0 <= i < |a| ensures LeafCellCost(a[i].cell) <= NODE_CAPACITY {
        assert (a + b)[i] == a[i];
      }
      forall i | 0 <= i < |b| ensures LeafCellCost(b[i].cell) <= NODE_CAPACITY {
        assert (a + b)[|a| + i] == b[i];
      }
    }
  }

  lemma {:induction false} CellWithinPage(cells: seq<LeafCell>, i: nat)
    requires i < |cells|
    ensures LeafCellCost(cells[i]) <= LeafCost(cells)
    decreases |cells|
  {
    hide LeafCellCost;
    if i > 0 {
      CellWithinPage(cells[1..], i - 1);
    }
  }

  lemma {:induction false} LeafFits(es: seq<Entry>)
    requires LeafCost(CellsOf(es)) <= NODE_CAPACITY
    ensures AllFit(es)
  {
    hide LeafCellCost, LeafCost;
    forall i | 0 <= i < |es| ensures LeafCellCost(es[i].cell) <= NODE_CAPACITY {
      CellWithinPage(CellsOf(es), i);
    }
  }

  /** Every entry of a well-shaped tree fits a page. */
  lemma {:induction false} ShapedFits(t: Tree)
    requires Shaped(t) || (t.Leaf? && t.entries == [])
    ensures AllFit(Flat(t))
    decreases t, 1
  {
    hide AllFit, LeafCost;
    match t
    case Leaf(_, entries) =>
      if entries == [] {
        NothingFits();
      } else {
        LeafFits(entries);
      }
    case Node(_, level, kids) =>
      AllShapedFit(kids, level - 1);
  }

  lemma {:induction false} AllShapedFit(ts: seq<Tree>, height: nat)
    requires ShapedAll(ts, height)
    ensures AllFit(FlatAll(ts))
    decreases ts, 0
  {
    hide AllFit, Shaped;
    if ts == [] {
      NothingFits();
    } else {
      ShapedFits(ts[0]);
      AllShapedFit(ts[1..], height);
      AllFitAppend(Flat(ts[0]), FlatAll(ts[1..]));
    }
  }

  lemma {:induction false} NothingFits()
    ensures AllFit([])
  {
  }

  /** A separator is a key of some leaf cell, so internal cells always fit. */
  lemma {:induction false} SeparatorFits(t: Tree)
    requires Shaped(t)
    ensures InternalCellCost(ParentCell(t)) <= NODE_CAPACITY
    decreases t
  {
    hide LeafCost;
    match t
    case Leaf(_, entries) =>
      CellWithinPage(CellsOf(entries), 0);
      assert CellsOf(entries)[0] == entries[0].cell;
    case Node(_, _, kids) =>
      SeparatorFits(kids[0]);
  }

  lemma {:induction false} SeparatorsFit(ts: seq<Tree>, height: nat)
    requires ShapedAll(ts, height)
    ensures EachFits(InternalCosts(ParentCells(ts)))
  {
    hide Shaped, InternalCellCost, ParentCell;
    forall i | 0 <= i < |ts| ensures InternalCosts(ParentCells(ts))[i] <= NODE_CAPACITY {
      SeparatorFits(ts[i]);
    }
  }

  lemma {:induction false} CostsFit(es: seq<Entry>)
    ensures EachFits(LeafCosts(CellsOf(es))) <==> AllFit(es)
  {
    hide LeafCellCost;
    assert forall i :: 0 <= i < |es| ==> LeafCosts(CellsOf(es))[i] == LeafCellCost(es[i].cell);
  }

  /** A merge fits exactly if the written cells do, once the old entries do. */
  lemma {:induction false} MergeFits(es: seq<Entry>, ps: seq<Planned>)
    requires AllFit(es)
    ensures AllFit(Merge(es, ps)) <==> AllFit(Puts(ps))
    decreases |es| + |ps|
  {
    hide AllFit, Less, PutOf;
    if ps == [] {
      NothingFits();
    } else {
      var put, rest := PutOf(ps[0]), ps[1..];
      AllFitAppend(put, Puts(rest));
      if es == [] {
        MergeFits([], rest);
        AllFitAppend(put, Merge([], rest));
      } else {
        var one, tail := [es[0]], es[1..];
        assert es == one + tail;
        AllFitAppend(one, tail);
        MergeFits(tail, ps);
        MergeFits(tail, rest);
        MergeFits(es, rest);
        AllFitAppend(one, Merge(tail, ps));
        AllFitAppend(put, Merge(tail, rest));
        AllFitAppend(put, Merge(es, rest));
      }
    }
  }

  lemma {:induction false} PutsFit(ps: seq<Planned>, muts: seq<Mutation>)
    requires Plans(ps, muts)
    ensures AllFit(Puts(ps)) <==> MutationsFit(muts)
    decreases |ps|
  {
    hide AllFit, LeafCellCost;
    if ps == [] {
      NothingFits();
    } else {
      PutsFit(ps[1..], muts[1..]);
      AllFitAppend(PutOf(ps[0]), Puts(ps[1..]));
      OneFits(ps[0], muts[0]);
      assert muts == [muts[0]] + muts[1..];
      assert MutationsFit(muts) <==> MutationCost(muts[0]) <= NODE_CAPACITY && MutationsFit(muts[1..]) by { FitSplit(muts); }
    }
  }

  lemma {:induction false} FitSplit(muts: seq<Mutation>)
    requires muts != []
    ensures MutationsFit(muts) <==> MutationCost(muts[0]) <= NODE_CAPACITY && MutationsFit(muts[1..])
  {
    hide MutationCost;
    assert forall i :: 0 < i < |muts| ==> muts[i] == muts[1..][i - 1];
  }

  lemma {:induction false} OneFits(p: Planned, m: Mutation)
    requires p.entry.Some? <==> m.value.Some?
    requires p.entry.Some? ==> Written(p.entry.value.cell, m)
    ensures AllFit(PutOf(p)) <==> MutationCost(m) <= NODE_CAPACITY
  {
    hide LeafCellCost;
    assert p.entry.Some? ==> PutOf(p)[0] == p.entry.value;
  }

  /** Applying mutations to fitting entries leaves fitting entries exactly if the mutations fit. */
  lemma {:induction false} MergeFitsIf(es: seq<Entry>, ps: seq<Planned>, muts: seq<Mutation>)
    requires AllFit(es) && Plans(ps, muts)
    ensures AllFit(Merge(es, ps)) <==> MutationsFit(muts)
  {
    hide AllFit, MutationsFit, Plans;
    MergeFits(es, ps);
    PutsFit(ps, muts);
  }

  lemma {:induction false} SliceFits(muts: seq<Mutation>, a: nat, b: nat)
    requires a <= b <= |muts| && MutationsFit(muts)
    ensures MutationsFit(muts[a..b])
  {
    hide MutationCost;
  }

  // ---------- height ----------

  const MAX_KEY_BYTES := 1024

  ghost predicate KeysBounded(es: seq<Entry>) {
    forall i :: 0 <= i < |es| ==> |es[i].cell.key| <= MAX_KEY_BYTES
  }

  /** Bounded keys, and so few subtrees of a height that halving their number per level ends within the height limit. */
  ghost predicate Roomy(es: seq<Entry>, subtrees: nat, height: nat) {
    KeysBounded(es) && height <= MAX_TREE_LEVEL && subtrees <= Pow2(MAX_TREE_LEVEL - height)
  }

  lemma {:induction false} BoundedAppend(a: seq<Entry>, b: seq<Entry>)
    requires KeysBounded(a + b)
    ensures KeysBounded(a) && KeysBounded(b)
  {
    forall i | 0 <= i < |a| ensures |a[i].cell.key| <= MAX_KEY_BYTES {
      assert (a + b)[i] == a[i];
    }
    forall i | 0 <= i < |b| ensures |b[i].cell.key| <= MAX_KEY_BYTES {
      assert (a + b)[|a| + i] == b[i];
    }
  }

  /** Subtrees hold at least one entry each, and separators are keys, so bounded keys make small cells. */
  lemma {:induction false} BoundedSeparators(ts: seq<Tree>, height: nat)
    requires ShapedAll(ts, height)
    ensures |ts| <= |FlatAll(ts)|
    ensures KeysBounded(FlatAll(ts)) ==> EachSmall(InternalCosts(ParentCells(ts)))
    decreases |ts|
  {
    hide Shaped, Flat, FirstKey;
    if ts != [] {
      var first, rest := Flat(ts[0]), ts[1..];
      FirstKeyIsFirst(ts[0]);
      BoundedSeparators(rest, height);
      if KeysBounded(FlatAll(ts)) {
        BoundedAppend(first, FlatAll(rest));
        assert |first[0].cell.key| <= MAX_KEY_BYTES;
        forall i | 0 <= i < |ts| ensures InternalCosts(ParentCells(ts))[i] <= NODE_CAPACITY / 3 {
          if i > 0 {
            assert InternalCosts(ParentCells(ts))[i] == InternalCosts(ParentCells(rest))[i - 1];
          }
        }
      }
    }
  }

  /** Halving keeps within the limit. */
  lemma {:induction false} Halved(es: seq<Entry>, before: nat, after: nat, height: nat)
    requires Roomy(es, before, height) && height < MAX_TREE_LEVEL && 2 * after <= before + 1
    ensures Roomy(es, after, height + 1)
  {
  }

  /** A map whose trees cannot exceed the height limit when grown from `height`: bounded keys, and not too many. */
  ghost predicate RoomFor(m: map<Key, Value>, height: nat) {
    (forall k :: k in m ==> |k| <= MAX_KEY_BYTES) && height <= MAX_TREE_LEVEL && |m| <= Pow2(MAX_TREE_LEVEL - height)
  }

  lemma {:induction false} MapSize(es: seq<Entry>)
    requires Sorted(es)
    ensures |MapOf(es)| == |es|
    decreases |es|
  {
    hide Less;
    KeyOrder();
    if es != [] {
      var rest := es[1..];
      assert Sorted(rest) by {
        assert forall i :: 0 <= i < |rest| ==> rest[i] == es[i + 1];
      }
      MapSize(rest);
      assert es[0].cell.key !in MapOf(rest) by {
        assert forall i :: 0 <= i < |rest| ==> rest[i] == es[i + 1];
      }
      assert MapOf(es).Keys == MapOf(rest).Keys + {es[0].cell.key};
      assert |MapOf(es).Keys| == |MapOf(rest).Keys| + 1;
    }
  }

  lemma {:induction false} RoomIsRoomy(es: seq<Entry>, height: nat)
    requires Sorted(es) && RoomFor(MapOf(es), height)
    ensures Roomy(es, |es|, height)
  {
    hide MapOf, Sorted;
    MapSize(es);
    forall i | 0 <= i < |es| ensures |es[i].cell.key| <= MAX_KEY_BYTES {
      assert es[i].cell.key in MapOf(es) by { MapOfAt(es, i); }
    }
  }
}
