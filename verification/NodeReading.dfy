/** Reading one tree page as a node, with the checks `read_node` makes. */
module NodeReading {
  import opened Keys
  import opened Pages
  import opened MergeSpec
  import opened Allocator
  import opened Parts
  import opened Split
  import opened Merging

  ghost predicate KeysIncrease(cells: seq<LeafCell>) {
    forall i, j :: 0 <= i < j < |cells| ==> Less(cells[i].key, cells[j].key)
  }

  /** A tree page of the level its parent expects, with strictly increasing keys. */
  ghost predicate NodeOk(pages: map<PageId, Page>, id: PageId, expected: Option<nat>) {
    && id in pages
    && match pages[id]
       case LeafPage(cells) => (expected.Some? ==> expected.value == 0) && KeysIncrease(cells)
       case InternalPage(level, cells) =>
         (expected.Some? ==> expected.value == level) && 1 <= level <= MAX_TREE_LEVEL && cells != [] && SeparatorsSorted(cells)
       case OverflowPage(_, _) => false
  }

  ghost predicate ReadsCells(out: seq<LeafCell>, cells: seq<LeafCell>, muts: seq<Mutation>) {
    && |out| == |cells|
    && forall i :: 0 <= i < |cells| ==> out[i] == cells[i] || (Mutated(muts, cells[i].key) && out[i] == Blank(cells[i]))
  }

  /** Reads cells, leaving out the inline bytes of those a mutation replaces. */
  method ReadLeaf(cells: seq<LeafCell>, muts: seq<Mutation>) returns (r: Result<seq<LeafCell>>)
    requires MutationsSorted(muts)
    ensures r.Ok? <==> KeysIncrease(cells)
    ensures r.Ok? ==> ReadsCells(r.value, cells, muts)
    ensures r.Err? ==> r.error == Corruption
  {
    var out: seq<LeafCell> := [];
    var mutation := 0;
    while |out| < |cells|
      invariant |out| <= |cells| && mutation <= |muts|
      invariant forall i, j :: 0 <= i < j < |out| ==> Less(cells[i].key, cells[j].key)
      invariant forall i :: 0 <= i < |out| ==> out[i] == cells[i] || (Mutated(muts, cells[i].key) && out[i] == Blank(cells[i]))
    {
      var index := |out|;
      var cell := cells[index];
      if index > 0 && !Less(cells[index - 1].key, cell.key) {
        return Err(Corruption);
      }
      forall i | 0 <= i < index ensures Less(cells[i].key, cell.key) {
        if i < index - 1 {
          LessTransitive(cells[i].key, cells[index - 1].key, cell.key);
        }
      }
      while mutation < |muts| && Less(muts[mutation].key, cell.key)
        invariant mutation <= |muts|
      {
        mutation := mutation + 1;
      }
      var replaced := mutation < |muts| && muts[mutation].key == cell.key;
      out := out + [if replaced then Blank(cell) else cell];
    }
    return Ok(out);
  }

  method CheckSeparators(cells: seq<InternalCell>) returns (ok: bool)
    ensures ok <==> SeparatorsSorted(cells)
  {
    var i := 1;
    while i < |cells|
      invariant 1 <= i
      invariant forall a, b :: 0 <= a < b < i && b < |cells| ==> Less(cells[a].separator, cells[b].separator)
    {
      if !Less(cells[i - 1].separator, cells[i].separator) {
        return false;
      }
      forall a | 0 <= a < i ensures Less(cells[a].separator, cells[i].separator) {
        if a < i - 1 {
          LessTransitive(cells[a].separator, cells[i - 1].separator, cells[i].separator);
        }
      }
      i := i + 1;
    }
    return true;
  }

  method ReadNode(pages: map<PageId, Page>, id: PageId, expected: Option<nat>, muts: seq<Mutation>) returns (r: Result<Run>)
    requires MutationsSorted(muts)
    ensures r.Ok? <==> NodeOk(pages, id, expected)
    ensures r.Err? ==> r.error == Corruption
    ensures r.Ok? ==> match pages[id]
                      case LeafPage(cells) => r.value.LeafRun? && ReadsCells(r.value.cells, cells, muts)
                      case InternalPage(level, cells) => r.value == InternalRun(level, cells)
                      case OverflowPage(_, _) => false
  {
    if id !in pages {
      return Err(Corruption);
    }
    match pages[id]
    case OverflowPage(_, _) =>
      return Err(Corruption);
    case LeafPage(cells) =>
      if expected.Some? && expected.value != 0 {
        return Err(Corruption);
      }
      var out :- ReadLeaf(cells, muts);
      return Ok(LeafRun(out));
    case InternalPage(level, cells) =>
      if (expected.Some? && expected.value != level) || level == 0 || level > MAX_TREE_LEVEL || cells == [] {
        return Err(Corruption);
      }
      var sorted := CheckSeparators(cells);
      if !sorted {
        return Err(Corruption);
      }
      return Ok(InternalRun(level, cells));
  }

  // ---------- well-formed trees read cleanly ----------

  lemma {:induction false} KidFlatIsSlice(ts: seq<Tree>, i: nat)
    requires i < |ts|
    ensures FlatAll(ts) == FlatAll(ts[..i]) + Flat(ts[i]) + FlatAll(ts[i + 1..])
  {
    hide FlatAll;
    assert ts == ts[..i] + [ts[i]] + ts[i + 1..];
    FlatAllSnoc(ts[..i], ts[i]);
    FlatAllAppend(ts[..i] + [ts[i]], ts[i + 1..]);
  }

  lemma {:induction false} SortedSlice(es: seq<Entry>, a: nat, b: nat)
    requires Sorted(es) && a <= b <= |es|
    ensures Sorted(es[a..b])
  {
  }

  lemma {:induction false} SortedAppend(a: seq<Entry>, b: seq<Entry>)
    requires Sorted(a + b)
    ensures Sorted(a) && Sorted(b)
    ensures forall i, j :: 0 <= i < |a| && 0 <= j < |b| ==> Less(a[i].cell.key, b[j].cell.key)
  {
    var w := a + b;
    assert w[..|a|] == a && w[|a|..] == b;
    SortedSlice(w, 0, |a|);
    SortedSlice(w, |a|, |w|);
    forall i, j | 0 <= i < |a| && 0 <= j < |b| ensures Less(a[i].cell.key, b[j].cell.key) {
      assert w[i] == a[i] && w[|a| + j] == b[j];
    }
  }

  lemma {:induction false} SortedKid(ts: seq<Tree>, i: nat)
    requires i < |ts| && Sorted(FlatAll(ts))
    ensures Sorted(Flat(ts[i])) && Sorted(FlatAll(ts[..i]))
    ensures forall a, b :: 0 <= a < |FlatAll(ts[..i])| && 0 <= b < |Flat(ts[i])| ==>
              Less(FlatAll(ts[..i])[a].cell.key, Flat(ts[i])[b].cell.key)
  {
    hide FlatAll;
    KidFlatIsSlice(ts, i);
    SortedAppend(FlatAll(ts[..i]) + Flat(ts[i]), FlatAll(ts[i + 1..]));
    SortedAppend(FlatAll(ts[..i]), Flat(ts[i]));
  }

  /** Separators strictly increase, being the first keys of sorted subtrees. */
  lemma {:induction false} SeparatorsIncrease(ts: seq<Tree>, height: nat)
    requires ShapedAll(ts, height) && Sorted(FlatAll(ts))
    ensures SeparatorsSorted(ParentCells(ts))
  {
    forall i, j | 0 <= i < j < |ts| ensures Less(ParentCells(ts)[i].separator, ParentCells(ts)[j].separator) {
      hide FlatAll, Flat, FirstKey, Less, Shaped;
      FirstKeyIsFirst(ts[i]);
      FirstKeyIsFirst(ts[j]);
      SortedKid(ts, j);
      KidFlatIsSlice(ts[..j], i);
      assert ts[..j][i] == ts[i];
      var before := FlatAll(ts[..j][..i]);
      assert FlatAll(ts[..j])[|before|] == Flat(ts[i])[0];
    }
  }

  lemma {:induction false} TreeReads(pages: map<PageId, Page>, t: Tree)
    requires Spelled(pages, t) && Sorted(Flat(t)) && (Shaped(t) || t.Leaf?)
    ensures NodeOk(pages, t.id, None) && NodeOk(pages, t.id, Some(Height(t)))
  {
    match t
    case Leaf(_, es) =>
      forall i, j | 0 <= i < j < |es| ensures Less(CellsOf(es)[i].key, CellsOf(es)[j].key) {
      }
    case Node(_, level, kids) =>
      SeparatorsIncrease(kids, level - 1);
  }
}
