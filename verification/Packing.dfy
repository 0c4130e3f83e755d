/** Page-by-page packing of runs, as steps on writer states. */
module Packing {
  import opened Keys
  import opened Pages
  import opened MergeSpec
  import opened Parts
  import opened Split
  import opened WriterState

  lemma {:induction false} CellsOfSlice(es: seq<Entry>, a: nat, b: nat)
    requires a <= b <= |es|
    ensures CellsOf(es)[a..b] == CellsOf(es[a..b])
  {
  }

  lemma {:induction false} ParentCellsSlice(ts: seq<Tree>, a: nat, b: nat)
    requires a <= b <= |ts|
    ensures ParentCells(ts)[a..b] == ParentCells(ts[a..b])
  {
  }

  lemma {:induction false} ParentCellsSnoc(ts: seq<Tree>, t: Tree)
    ensures ParentCells(ts + [t]) == ParentCells(ts) + [ParentCell(t)]
  {
  }

  lemma {:induction false} ChainPagesSlice(es: seq<Entry>, a: nat, b: nat)
    requires a <= b <= |es|
    ensures ChainPages(es[a..b]) <= ChainPages(es)
    ensures ChainPages(es[..b]) == ChainPages(es[..a]) + ChainPages(es[a..b])
  {
    hide ChainPages;
    assert es[..a] + es[a..b] == es[..b];
    assert es[..b] + es[b..] == es;
    ChainPagesAppend(es[..a], es[a..b]);
    ChainPagesAppend(es[..b], es[b..]);
  }

  lemma {:induction false} PagesOfAllSlice(ts: seq<Tree>, a: nat, b: nat)
    requires a <= b <= |ts|
    ensures PagesOfAll(ts[a..b]) <= PagesOfAll(ts)
    ensures PagesOfAll(ts[..b]) == PagesOfAll(ts[..a]) + PagesOfAll(ts[a..b])
  {
    hide PagesOfAll;
    assert ts[..a] + ts[a..b] == ts[..b];
    assert ts[..b] + ts[b..] == ts;
    PagesOfAllAppend(ts[..a], ts[a..b]);
    PagesOfAllAppend(ts[..b], ts[b..]);
  }

  lemma {:induction false} FlatAllSlice(ts: seq<Tree>, a: nat, b: nat)
    requires a <= b <= |ts|
    ensures FlatAll(ts[..b]) == FlatAll(ts[..a]) + FlatAll(ts[a..b])
  {
    hide FlatAll;
    assert ts[..a] + ts[a..b] == ts[..b];
    FlatAllAppend(ts[..a], ts[a..b]);
  }

  lemma {:induction false} Within(s: State, inner: multiset<PageId>, outer: multiset<PageId>)
    requires inner <= outer && forall x :: x in outer ==> Known(s, x)
    ensures forall x :: x in inner ==> Known(s, x)
  {
    forall x | x in inner ensures Known(s, x) {
      assert outer[x] >= inner[x];
    }
  }

  lemma {:induction false} EntrySliceLive(s: State, es: seq<Entry>, a: nat, b: nat)
    requires a <= b <= |es| && PartLive(s, LeafPart(es))
    ensures PartLive(s, LeafPart(es[a..b]))
  {
    hide ChainPages, Known, EntrySpelled, ViewOf;
    ChainPagesSlice(es, a, b);
    Within(s, ChainPages(es[a..b]), ChainPages(es));
  }

  lemma {:induction false} TreeSliceLive(s: State, level: nat, ts: seq<Tree>, a: nat, b: nat)
    requires a <= b <= |ts| && PartLive(s, InnerPart(level, ts))
    ensures PartLive(s, InnerPart(level, ts[a..b]))
  {
    hide PagesOfAll, Known, Spelled, ViewOf;
    PagesOfAllSlice(ts, a, b);
    Within(s, PagesOfAll(ts[a..b]), PagesOfAll(ts));
  }

  lemma {:induction false} LeafParentCell(t: Tree)
    requires t.Leaf? && t.entries != []
    ensures ParentCell(t) == InternalCell(CellsOf(t.entries)[0].key, t.id)
  {
  }

  lemma {:induction false} PackedNothing(s: State, es: seq<Entry>)
    requires Apart(s)
    ensures Packed(s, LeafPart(es[..0]), s, [], 0) && ParentCells([]) == []
  {
    GrownReflexive(s);
  }

  lemma {:induction false} CutsNext(costs: seq<nat>, groups: seq<nat>, pos: nat, index: nat, fit: bool)
    requires pos <= |costs| && index < |groups| && Cuts(costs[pos..], groups[index..], fit)
    ensures 0 < groups[index] && pos + groups[index] <= |costs|
    ensures fit ==> Sum(costs[pos..pos + groups[index]]) <= NODE_CAPACITY
    ensures Cuts(costs[pos + groups[index]..], groups[index + 1..], fit)
  {
    var len := groups[index];
    assert groups[index..][1..] == groups[index + 1..];
    assert costs[pos..][len..] == costs[pos + len..];
    assert costs[pos..][..len] == costs[pos..pos + len];
  }

  lemma {:induction false} CutsDone(costs: seq<nat>, groups: seq<nat>, pos: nat, fit: bool)
    requires pos <= |costs| && Cuts(costs[pos..], groups[|groups|..], fit)
    ensures pos == |costs|
  {
  }

  lemma {:induction false} LeafGroupCost(cells: seq<LeafCell>, a: nat, b: nat)
    requires a <= b <= |cells|
    ensures LeafCost(cells[a..b]) == Sum(LeafCosts(cells)[a..b])
  {
    LeafCostIsSum(cells[a..b]);
    assert LeafCosts(cells[a..b]) == LeafCosts(cells)[a..b];
  }

  lemma {:induction false} PackLeafNext(s0: State, s: State, es: seq<Entry>, pos: nat, len: nat, id: PageId, ts: seq<Tree>)
    requires Apart(s0) && PartLive(s0, LeafPart(es)) && pos + len <= |es| && len > 0
    requires Packed(s0, LeafPart(es[..pos]), s, ts, 0)
    requires LeafCost(CellsOf(es[pos..pos + len])) <= NODE_CAPACITY
    requires id > 0 && !Known(s, id)
    ensures Packed(s0, LeafPart(es[..pos + len]), Emitting(s, id, LeafPage(CellsOf(es[pos..pos + len]))),
                   ts + [Leaf(id, es[pos..pos + len])], 0)
  {
    hide Packed, PartLive, Emitting, ChainPages, LeafCost, Known, Apart;
    var group := es[pos..pos + len];
    EntrySliceLive(s0, es, pos, pos + len);
    ChainPagesSlice(es, pos, pos + len);
    assert es[..pos] + group == es[..pos + len];
    PackStep(s0, s, LeafPart(es[..pos]), Leaf(id, group), ts, 0, LeafPart(es[..pos + len]));
  }

  lemma {:induction false} PackedNoTrees(s: State, level: nat, kids: seq<Tree>)
    requires Apart(s) && level > 0
    ensures Packed(s, InnerPart(level, kids[..0]), s, [], level) && ParentCells([]) == []
  {
    GrownReflexive(s);
  }

  lemma {:induction false} InternalGroupCost(cells: seq<InternalCell>, a: nat, b: nat)
    requires a <= b <= |cells|
    ensures InternalCost(cells[a..b]) == Sum(InternalCosts(cells)[a..b])
  {
    InternalCostIsSum(cells[a..b]);
    assert InternalCosts(cells[a..b]) == InternalCosts(cells)[a..b];
  }

  lemma {:induction false} InnerParentCell(t: Tree)
    requires t.Node? && t.kids != []
    ensures ParentCell(t) == InternalCell(ParentCells(t.kids)[0].separator, t.id)
  {
  }

  lemma {:induction false} ShapedNode(id: PageId, level: nat, kids: seq<Tree>)
    requires id > 0 && 1 <= level <= MAX_TREE_LEVEL && kids != [] && ShapedAll(kids, level - 1)
    requires InternalCost(ParentCells(kids)) <= NODE_CAPACITY
    ensures Shaped(Node(id, level, kids))
  {
  }

  lemma {:induction false} PackInnerNext(s0: State, s: State, level: nat, kids: seq<Tree>, pos: nat, len: nat, id: PageId, ts: seq<Tree>)
    requires 1 <= level <= MAX_TREE_LEVEL && ShapedAll(kids, level - 1)
    requires Apart(s0) && PartLive(s0, InnerPart(level, kids)) && pos + len <= |kids| && len > 0
    requires Packed(s0, InnerPart(level, kids[..pos]), s, ts, level)
    requires InternalCost(ParentCells(kids[pos..pos + len])) <= NODE_CAPACITY
    requires id > 0 && !Known(s, id)
    ensures Packed(s0, InnerPart(level, kids[..pos + len]), Emitting(s, id, InternalPage(level, ParentCells(kids[pos..pos + len]))),
                   ts + [Node(id, level, kids[pos..pos + len])], level)
  {
    hide Packed, PartLive, Emitting, PagesOfAll, FlatAll, InternalCost, Known, Apart, Shaped;
    var group := kids[pos..pos + len];
    TreeSliceLive(s0, level, kids, pos, pos + len);
    PagesOfAllSlice(kids, pos, pos + len);
    FlatAllSlice(kids, pos, pos + len);
    assert kids[..pos] + group == kids[..pos + len];
    assert ShapedAll(group, level - 1);
    ShapedNode(id, level, group);
    PackStep(s0, s, InnerPart(level, kids[..pos]), Node(id, level, group), ts, level, InnerPart(level, kids[..pos + len]));
  }
}
