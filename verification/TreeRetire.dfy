/** Retiring a whole tree, as dropping or clearing a store does. */
module TreeRetire {
  import opened Keys
  import opened Pages
  import opened MergeSpec
  import opened Allocator
  import opened Split
  import opened Merging
  import opened NodeReading
  import opened RootFinishing
  import opened TreeWriting
  import opened TreeApply

  // ---------- the tree that pages hold, whatever they hold ----------

  /** Overflow chains are followed only when their pages are wanted. */
  ghost predicate CellReads(disk: map<PageId, Page>, cell: LeafCell, chains: bool) {
    chains && cell.Overflow? ==> exists ids, bytes :: DeclaredChain(disk, cell.head, cell.totalLen, ids, bytes)
  }

  ghost function EntryOf(disk: map<PageId, Page>, cell: LeafCell, chains: bool): Entry
    requires CellReads(disk, cell, chains)
  {
    match cell
    case Inline(_, value) => Entry(cell, [], Stored(value))
    case External(_, reference, prefix) => Entry(cell, [], ByReference(reference, prefix))
    case Overflow(_, head, totalLen) =>
      if chains then
        var ids, bytes :| DeclaredChain(disk, head, totalLen, ids, bytes);
        Entry(cell, ids, Stored(bytes))
      else Entry(cell, [], Stored([]))
  }

  ghost predicate LeafReads(disk: map<PageId, Page>, cells: seq<LeafCell>, chains: bool) {
    forall i :: 0 <= i < |cells| ==> CellReads(disk, cells[i], chains)
  }

  ghost function ReadEntries(disk: map<PageId, Page>, cells: seq<LeafCell>, chains: bool): (es: seq<Entry>)
    requires LeafReads(disk, cells, chains)
    ensures |es| == |cells|
  {
    seq(|cells|, i requires 0 <= i < |cells| => EntryOf(disk, cells[i], chains))
  }

  /** Every page from `id` down is a tree page of its level with increasing keys. */
  ghost predicate Readable(disk: map<PageId, Page>, id: PageId, level: nat, chains: bool)
    decreases level
  {
    && NodeOk(disk, id, Some(level))
    && match disk[id]
       case LeafPage(cells) => LeafReads(disk, cells, chains)
       case InternalPage(_, cells) => forall i :: 0 <= i < |cells| ==> Readable(disk, cells[i].child, level - 1, chains)
       case OverflowPage(_, _) => false
  }

  ghost function TreeAt(disk: map<PageId, Page>, id: PageId, level: nat, chains: bool): (t: Tree)
    requires Readable(disk, id, level, chains)
    ensures t.id == id
    decreases level
  {
    match disk[id]
    case LeafPage(cells) => Leaf(id, ReadEntries(disk, cells, chains))
    case InternalPage(_, cells) =>
      Node(id, level, seq(|cells|, i requires 0 <= i < |cells| => TreeAt(disk, cells[i].child, level - 1, chains)))
  }

  /** The tree pages of a tree, without its overflow chains. */
  ghost function NodesOf(t: Tree): multiset<PageId>
    decreases t, 1
  {
    match t
    case Leaf(id, _) => multiset{id}
    case Node(id, _, kids) => multiset{id} + NodesOfAll(kids)
  }

  ghost function NodesOfAll(ts: seq<Tree>): multiset<PageId>
    decreases ts, 0
  {
    if ts == [] then multiset{} else NodesOf(ts[0]) + NodesOfAll(ts[1..])
  }

  ghost function RefsOfAll(ts: seq<Tree>): multiset<PayloadRef> {
    multiset(RefsOf(FlatAll(ts)))
  }

  lemma {:induction false} NodesOfAllAppend(a: seq<Tree>, b: seq<Tree>)
    ensures NodesOfAll(a + b) == NodesOfAll(a) + NodesOfAll(b)
    decreases |a|
  {
    if a == [] {
      assert a + b == b;
    } else {
      assert (a + b)[1..] == a[1..] + b;
      NodesOfAllAppend(a[1..], b);
    }
  }

  datatype Visit = Visit(id: PageId, expected: Option<nat>)

  /** The level a page is read at: its parent's choice, or its own for the root. */
  function LevelAt(disk: map<PageId, Page>, v: Visit): nat {
    if v.expected.Some? then v.expected.value
    else if v.id in disk && disk[v.id].InternalPage? then disk[v.id].level
    else 0
  }

  ghost predicate VisitReads(disk: map<PageId, Page>, v: Visit, chains: bool) {
    Readable(disk, v.id, LevelAt(disk, v), chains)
  }

  ghost function TreeOf(disk: map<PageId, Page>, v: Visit, chains: bool): (t: Tree)
    requires VisitReads(disk, v, chains)
    ensures t.id == v.id
  {
    TreeAt(disk, v.id, LevelAt(disk, v), chains)
  }

  ghost predicate AllRead(disk: map<PageId, Page>, vs: seq<Visit>, chains: bool) {
    forall i :: 0 <= i < |vs| ==> VisitReads(disk, vs[i], chains)
  }

  ghost function TreesOf(disk: map<PageId, Page>, vs: seq<Visit>, chains: bool): (ts: seq<Tree>)
    requires AllRead(disk, vs, chains)
    ensures |ts| == |vs|
  {
    seq(|vs|, i requires 0 <= i < |vs| => TreeOf(disk, vs[i], chains))
  }

  /** The pages from the root down make a tree in which no page occurs twice. */
  ghost predicate Retirable(disk: map<PageId, Page>, root: PageId, chains: bool) {
    VisitReads(disk, Visit(root, None), chains) && NoDuplicates(NodesOf(TreeOf(disk, Visit(root, None), chains)))
  }

  // ---------- one leaf ----------

  /** The pages and references of the overflow chains and external values of a leaf. */
  method LeafLinks(disk: map<PageId, Page>, cells: seq<LeafCell>, chains: bool) returns (ok: bool, ids: seq<PageId>, refs: seq<PayloadRef>)
    ensures ok <==> LeafReads(disk, cells, chains)
    ensures ok ==> var es := ReadEntries(disk, cells, chains); multiset(ids) == ChainPages(es) && refs == RefsOf(es)
  {
    hide DeclaredChain, CellReads, EntryOf, LeafReads, ReadEntries, ChainPages, RefsOf;
    NoEntries(disk, chains);
    assert cells[..0] == [];
    ok, ids, refs := true, [], [];
    var i: nat := 0;
    ghost var es: seq<Entry> := [];
    while i < |cells|
      invariant i <= |cells| && LeafReads(disk, cells[..i], chains) && es == ReadEntries(disk, cells[..i], chains)
      invariant multiset(ids) == ChainPages(es) && refs == RefsOf(es)
    {
      var cell := cells[i];
      assert cells[..i + 1] == cells[..i] + [cell];
      if cell.Overflow? && chains {
        var walk := WalkChain(disk, cell.head, cell.totalLen);
        ChainReads(disk, cell, walk);
        if walk.Err? {
          OneFails(disk, cells, chains, i);
          return false, ids, refs;
        }
        ids := ids + walk.value.ids;
      } else {
        PlainReads(disk, cell, chains);
        if cell.External? {
          refs := refs + [cell.reference];
        }
      }
      MoreEntries(disk, cells[..i], cell, chains, es);
      es := es + [EntryOf(disk, cell, chains)];
      i := i + 1;
    }
    assert cells[..i] == cells;
  }

  lemma {:induction false} NoEntries(disk: map<PageId, Page>, chains: bool)
    ensures LeafReads(disk, [], chains) && ReadEntries(disk, [], chains) == [] && ChainPages([]) == multiset{} && RefsOf([]) == []
  {
  }

  lemma {:induction false} OneFails(disk: map<PageId, Page>, cells: seq<LeafCell>, chains: bool, i: nat)
    requires i < |cells| && !CellReads(disk, cells[i], chains)
    ensures !LeafReads(disk, cells, chains)
  {
    hide CellReads;
  }

  lemma {:induction false} ChainReads(disk: map<PageId, Page>, cell: LeafCell, walk: Result<Walk>)
    requires cell.Overflow?
    requires walk.Ok? ==> DeclaredChain(disk, cell.head, cell.totalLen, walk.value.ids, walk.value.bytes)
    requires forall ids, bytes :: DeclaredChain(disk, cell.head, cell.totalLen, ids, bytes) ==> walk == Ok(Walk(ids, bytes))
    ensures walk.Ok? <==> CellReads(disk, cell, true)
    ensures walk.Ok? ==> EntryOf(disk, cell, true) == Entry(cell, walk.value.ids, Stored(walk.value.bytes))
  {
    hide DeclaredChain;
  }

  lemma {:induction false} PlainReads(disk: map<PageId, Page>, cell: LeafCell, chains: bool)
    requires !(cell.Overflow? && chains)
    ensures CellReads(disk, cell, chains) && EntryOf(disk, cell, chains).cell == cell && EntryOf(disk, cell, chains).chain == []
  {
  }

  lemma {:induction false} MoreEntries(disk: map<PageId, Page>, cells: seq<LeafCell>, cell: LeafCell, chains: bool, es: seq<Entry>)
    requires LeafReads(disk, cells, chains) && es == ReadEntries(disk, cells, chains) && CellReads(disk, cell, chains)
    ensures var e := EntryOf(disk, cell, chains);
            && LeafReads(disk, cells + [cell], chains) && ReadEntries(disk, cells + [cell], chains) == es + [e]
            && ChainPages(es + [e]) == ChainPages(es) + multiset(e.chain)
            && RefsOf(es + [e]) == RefsOf(es) + (if e.cell.External? then [e.cell.reference] else [])
  {
    hide CellReads, EntryOf, ChainPages, RefsOf, LeafReads, ReadEntries;
    MoreCells(disk, cells, cell, chains, es);
    AnotherEntry(es, EntryOf(disk, cell, chains));
  }

  lemma {:induction false} MoreCells(disk: map<PageId, Page>, cells: seq<LeafCell>, cell: LeafCell, chains: bool, es: seq<Entry>)
    requires LeafReads(disk, cells, chains) && es == ReadEntries(disk, cells, chains) && CellReads(disk, cell, chains)
    ensures LeafReads(disk, cells + [cell], chains) && ReadEntries(disk, cells + [cell], chains) == es + [EntryOf(disk, cell, chains)]
  {
    hide CellReads, EntryOf;
  }

  lemma {:induction false} AnotherEntry(es: seq<Entry>, e: Entry)
    ensures ChainPages(es + [e]) == ChainPages(es) + multiset(e.chain)
    ensures RefsOf(es + [e]) == RefsOf(es) + (if e.cell.External? then [e.cell.reference] else [])
  {
    hide ChainPages, RefsOf;
    ChainPagesAppend(es, [e]);
    RefsOfAppend(es, [e]);
    OneEntry(e);
  }

  lemma {:induction false} OneEntry(e: Entry)
    ensures ChainPages([e]) == multiset(e.chain) && RefsOf([e]) == if e.cell.External? then [e.cell.reference] else []
  {
    assert ChainPages([e][1..]) == multiset{} && RefsOf([e][1..]) == [];
  }

  // ---------- one page ----------

  method CheckKeys(cells: seq<LeafCell>) returns (ok: bool)
    ensures ok <==> KeysIncrease(cells)
  {
    var i := 1;
    while i < |cells|
      invariant 1 <= i
      invariant forall a, b :: 0 <= a < b < i && b < |cells| ==> Less(cells[a].key, cells[b].key)
    {
      if !Less(cells[i - 1].key, cells[i].key) {
        return false;
      }
      forall a | 0 <= a < i ensures Less(cells[a].key, cells[i].key) {
        if a < i - 1 {
          LessTransitive(cells[a].key, cells[i - 1].key, cells[i].key);
        }
      }
      i := i + 1;
    }
    return true;
  }

  /** The header and key order of a tree page. */
  method CheckNode(disk: map<PageId, Page>, id: PageId, expected: Option<nat>) returns (ok: bool)
    ensures ok <==> NodeOk(disk, id, expected)
  {
    hide KeysIncrease, SeparatorsSorted;
    if id !in disk {
      return false;
    }
    match disk[id]
    case OverflowPage(_, _) => return false;
    case LeafPage(cells) =>
      ok := CheckKeys(cells);
      return ok && (expected.Some? ==> expected.value == 0);
    case InternalPage(level, cells) =>
      ok := CheckSeparators(cells);
      return ok && (expected.Some? ==> expected.value == level) && 1 <= level <= MAX_TREE_LEVEL && cells != [];
  }

  // ---------- the visits left and done ----------

  /** The trees still to visit, and what has been visited, make up the tree, if it reads at all. */
  ghost predicate Visiting(disk: map<PageId, Page>, root: PageId, chains: bool, stack: seq<Visit>, visited: set<PageId>, pages: multiset<PageId>, refs: multiset<PayloadRef>) {
    && (VisitReads(disk, Visit(root, None), chains) <==> AllRead(disk, stack, chains))
    && (AllRead(disk, stack, chains) ==> Shares(TreeOf(disk, Visit(root, None), chains), TreesOf(disk, stack, chains), visited, pages, refs))
  }

  ghost predicate Shares(t: Tree, ts: seq<Tree>, visited: set<PageId>, pages: multiset<PageId>, refs: multiset<PayloadRef>) {
    && pages + PagesOfAll(ts) == PagesOf(t)
    && refs + RefsOfAll(ts) == multiset(RefsOf(Flat(t)))
    && multiset(visited) + NodesOfAll(ts) == NodesOf(t)
  }

  lemma {:induction false} VisitingStarts(disk: map<PageId, Page>, root: PageId, chains: bool)
    ensures Visiting(disk, root, chains, [Visit(root, None)], {}, multiset{}, multiset{})
  {
    hide VisitReads, TreeOf, PagesOf, Flat, NodesOf;
    var v := Visit(root, None);
    if VisitReads(disk, v, chains) {
      var t := TreeOf(disk, v, chains);
      Single(t);
      assert TreesOf(disk, [v], chains) == [t];
      var p, r, n := PagesOf(t), multiset(RefsOf(Flat(t))), NodesOf(t);
      assert multiset{} + p == p && multiset{} + r == r && multiset{} + n == n;
    } else {
      assert [v][0] == v;
    }
  }

  lemma {:induction false} Single(t: Tree)
    ensures PagesOfAll([t]) == PagesOf(t) && FlatAll([t]) == Flat(t) && NodesOfAll([t]) == NodesOf(t)
  {
    assert PagesOfAll([t][1..]) == multiset{} && FlatAll([t][1..]) == [] && NodesOfAll([t][1..]) == multiset{};
  }

  /** Taking the last tree off the stack. */
  lemma {:induction false} PopFacts(ts: seq<Tree>, t: Tree)
    ensures PagesOfAll(ts + [t]) == PagesOfAll(ts) + PagesOf(t)
    ensures RefsOfAll(ts + [t]) == RefsOfAll(ts) + multiset(RefsOf(Flat(t)))
    ensures NodesOfAll(ts + [t]) == NodesOfAll(ts) + NodesOf(t)
  {
    hide FlatAll, Flat, PagesOf, PagesOfAll, NodesOf, NodesOfAll;
    PagesOfAllSnoc(ts, t);
    FlatAllSnoc(ts, t);
    RefsOfAppend(FlatAll(ts), Flat(t));
    NodesOfAllAppend(ts, [t]);
    Single(t);
  }

  lemma {:induction false} PopReads(disk: map<PageId, Page>, rest: seq<Visit>, v: Visit, chains: bool)
    ensures AllRead(disk, rest + [v], chains) <==> AllRead(disk, rest, chains) && VisitReads(disk, v, chains)
    ensures AllRead(disk, rest + [v], chains) ==> TreesOf(disk, rest + [v], chains) == TreesOf(disk, rest, chains) + [TreeOf(disk, v, chains)]
  {
    hide VisitReads, TreeOf;
    var vs := rest + [v];
    assert vs[|rest|] == v && forall i :: 0 <= i < |rest| ==> vs[i] == rest[i];
  }

  lemma {:induction false} PushReads(disk: map<PageId, Page>, rest: seq<Visit>, children: seq<Visit>, chains: bool)
    ensures AllRead(disk, rest + children, chains) <==> AllRead(disk, rest, chains) && AllRead(disk, children, chains)
    ensures AllRead(disk, rest + children, chains) ==> TreesOf(disk, rest + children, chains) == TreesOf(disk, rest, chains) + TreesOf(disk, children, chains)
  {
    hide VisitReads, TreeOf;
    var vs := rest + children;
    assert (forall i :: 0 <= i < |rest| ==> vs[i] == rest[i]) && forall i :: 0 <= i < |children| ==> vs[|rest| + i] == children[i];
  }

  /** Visiting a leaf takes its page, its chains and its references off the list. */
  lemma {:induction false} LeafShares(t: Tree, ts: seq<Tree>, leaf: Tree, visited: set<PageId>, pages: multiset<PageId>, refs: multiset<PayloadRef>)
    requires leaf.Leaf? && Shares(t, ts + [leaf], visited, pages, refs) && leaf.id !in visited
    ensures Shares(t, ts, visited + {leaf.id}, pages + multiset{leaf.id} + ChainPages(leaf.entries), refs + multiset(RefsOf(leaf.entries)))
  {
    assert PagesOf(leaf) == multiset{leaf.id} + ChainPages(leaf.entries) && Flat(leaf) == leaf.entries && NodesOf(leaf) == multiset{leaf.id};
    hide PagesOf, Flat, NodesOf, PagesOfAll, RefsOfAll, NodesOfAll, ChainPages, RefsOf;
    PopFacts(ts, leaf);
    MovesBoth(pages, multiset{leaf.id}, ChainPages(leaf.entries), PagesOfAll(ts), PagesOf(t));
    MovesOver(refs, multiset(RefsOf(leaf.entries)), RefsOfAll(ts), multiset(RefsOf(Flat(t))));
    Another(visited, leaf.id);
    MovesOver(multiset(visited), multiset{leaf.id}, NodesOfAll(ts), NodesOf(t));
  }

  lemma {:induction false} MovesBoth(done: multiset<PageId>, one: multiset<PageId>, more: multiset<PageId>, rest: multiset<PageId>, whole: multiset<PageId>)
    requires done + (rest + (one + more)) == whole
    ensures (done + one + more) + rest == whole
  {
  }

  lemma {:induction false} MovesOver<T(!new)>(done: multiset<T>, one: multiset<T>, rest: multiset<T>, whole: multiset<T>)
    requires done + (rest + one) == whole
    ensures (done + one) + rest == whole
  {
  }

  lemma {:induction false} Another(visited: set<PageId>, id: PageId)
    requires id !in visited
    ensures multiset(visited + {id}) == multiset(visited) + multiset{id}
  {
  }

  /** Visiting an internal page replaces it by its children. */
  lemma {:induction false} NodeShares(t: Tree, ts: seq<Tree>, node: Tree, visited: set<PageId>, pages: multiset<PageId>, refs: multiset<PayloadRef>)
    requires node.Node? && Shares(t, ts + [node], visited, pages, refs) && node.id !in visited
    ensures Shares(t, ts + node.kids, visited + {node.id}, pages + multiset{node.id}, refs)
  {
    assert PagesOf(node) == multiset{node.id} + PagesOfAll(node.kids) && Flat(node) == FlatAll(node.kids) && NodesOf(node) == multiset{node.id} + NodesOfAll(node.kids);
    hide PagesOf, Flat, NodesOf, PagesOfAll, FlatAll, NodesOfAll, RefsOf;
    PopFacts(ts, node);
    PagesOfAllAppend(ts, node.kids);
    FlatAllAppend(ts, node.kids);
    RefsOfAppend(FlatAll(ts), FlatAll(node.kids));
    NodesOfAllAppend(ts, node.kids);
    MovesPart(pages, multiset{node.id}, PagesOfAll(ts), PagesOfAll(node.kids), PagesOf(t));
    Another(visited, node.id);
    MovesPart(multiset(visited), multiset{node.id}, NodesOfAll(ts), NodesOfAll(node.kids), NodesOf(t));
  }

  lemma {:induction false} MovesPart(done: multiset<PageId>, one: multiset<PageId>, rest: multiset<PageId>, kids: multiset<PageId>, whole: multiset<PageId>)
    requires done + (rest + (one + kids)) == whole
    ensures (done + one) + (rest + kids) == whole
  {
  }

  // ---------- one visit ----------

  lemma {:induction false} NodeOkAtLevel(disk: map<PageId, Page>, v: Visit)
    ensures NodeOk(disk, v.id, v.expected) <==> NodeOk(disk, v.id, Some(LevelAt(disk, v)))
  {
    hide KeysIncrease, SeparatorsSorted;
  }

  /** A page that cannot be read spoils the tree. */
  lemma {:induction false} VisitFails(disk: map<PageId, Page>, root: PageId, chains: bool, rest: seq<Visit>, v: Visit, visited: set<PageId>, pages: multiset<PageId>, refs: multiset<PayloadRef>)
    requires Visiting(disk, root, chains, rest + [v], visited, pages, refs) && !VisitReads(disk, v, chains)
    ensures !Retirable(disk, root, chains)
  {
    hide VisitReads, TreeOf, Shares, NoDuplicates, NodesOf;
    PopReads(disk, rest, v, chains);
  }

  /** So does one reached twice. */
  lemma {:induction false} VisitRepeats(disk: map<PageId, Page>, root: PageId, chains: bool, rest: seq<Visit>, v: Visit, visited: set<PageId>, pages: multiset<PageId>, refs: multiset<PayloadRef>)
    requires Visiting(disk, root, chains, rest + [v], visited, pages, refs) && v.id in visited
    ensures !Retirable(disk, root, chains)
  {
    hide VisitReads, NodesOfAll, PagesOfAll, RefsOfAll, PagesOf, Flat, RefsOf;
    PopReads(disk, rest, v, chains);
    if AllRead(disk, rest + [v], chains) {
      var t, last := TreeOf(disk, Visit(root, None), chains), TreeOf(disk, v, chains);
      PopFacts(TreesOf(disk, rest, chains), last);
      assert last.id in NodesOf(last);
      assert NodesOf(t)[v.id] == multiset(visited)[v.id] + (NodesOfAll(TreesOf(disk, rest, chains)) + NodesOf(last))[v.id];
    }
  }

  lemma {:induction false} LeafVisited(disk: map<PageId, Page>, root: PageId, chains: bool, rest: seq<Visit>, v: Visit, visited: set<PageId>, pages: multiset<PageId>, refs: multiset<PayloadRef>)
    requires Visiting(disk, root, chains, rest + [v], visited, pages, refs) && v.id !in visited
    requires NodeOk(disk, v.id, v.expected) && disk[v.id].LeafPage? && LeafReads(disk, disk[v.id].leafCells, chains)
    ensures var es := ReadEntries(disk, disk[v.id].leafCells, chains);
            Visiting(disk, root, chains, rest, visited + {v.id}, pages + multiset{v.id} + ChainPages(es), refs + multiset(RefsOf(es)))
  {
    NodeOkAtLevel(disk, v);
    PopReads(disk, rest, v, chains);
    var es := ReadEntries(disk, disk[v.id].leafCells, chains);
    assert VisitReads(disk, v, chains) && TreeOf(disk, v, chains) == Leaf(v.id, es);
    hide NodeOk, VisitReads, TreeOf, Shares, AllRead, TreesOf, LeafReads, ReadEntries, ChainPages, RefsOf;
    if AllRead(disk, rest, chains) {
      LeafShares(TreeOf(disk, Visit(root, None), chains), TreesOf(disk, rest, chains), Leaf(v.id, es), visited, pages, refs);
    }
  }

  /** The children of an internal page, each expected one level below it. */
  ghost function ChildVisits(level: nat, cells: seq<InternalCell>): (vs: seq<Visit>)
    requires level > 0
    ensures |vs| == |cells|
  {
    seq(|cells|, i requires 0 <= i < |cells| => Visit(cells[i].child, Some(level - 1)))
  }

  lemma {:induction false} ChildrenRead(disk: map<PageId, Page>, v: Visit, chains: bool)
    requires NodeOk(disk, v.id, v.expected) && disk[v.id].InternalPage?
    ensures disk[v.id].level > 0
    ensures var children := ChildVisits(disk[v.id].level, disk[v.id].cells);
            && (VisitReads(disk, v, chains) <==> AllRead(disk, children, chains))
            && (VisitReads(disk, v, chains) ==> TreeOf(disk, v, chains) == Node(v.id, disk[v.id].level, TreesOf(disk, children, chains)))
  {
    hide KeysIncrease, SeparatorsSorted, LeafReads;
    NodeOkAtLevel(disk, v);
    var children := ChildVisits(disk[v.id].level, disk[v.id].cells);
    assert forall i :: 0 <= i < |children| ==> children[i].id == disk[v.id].cells[i].child && LevelAt(disk, children[i]) == disk[v.id].level - 1;
    if AllRead(disk, children, chains) {
      assert forall i :: 0 <= i < |children| ==> VisitReads(disk, children[i], chains);
    }
  }

  lemma {:induction false} NodeVisited(disk: map<PageId, Page>, root: PageId, chains: bool, rest: seq<Visit>, v: Visit, visited: set<PageId>, pages: multiset<PageId>, refs: multiset<PayloadRef>)
    requires Visiting(disk, root, chains, rest + [v], visited, pages, refs) && v.id !in visited
    requires NodeOk(disk, v.id, v.expected) && disk[v.id].InternalPage? && disk[v.id].level > 0
    ensures Visiting(disk, root, chains, rest + ChildVisits(disk[v.id].level, disk[v.id].cells), visited + {v.id}, pages + multiset{v.id}, refs)
  {
    hide NodeOk, VisitReads, TreeOf, Shares, AllRead, TreesOf, ChildVisits;
    NodeThere(disk, v);
    var children := ChildVisits(disk[v.id].level, disk[v.id].cells);
    ChildrenRead(disk, v, chains);
    PopReads(disk, rest, v, chains);
    PushReads(disk, rest, children, chains);
    if AllRead(disk, rest + children, chains) {
      NodeShares(TreeOf(disk, Visit(root, None), chains), TreesOf(disk, rest, chains), TreeOf(disk, v, chains), visited, pages, refs);
    }
  }

  method ChildrenOf(level: nat, cells: seq<InternalCell>) returns (children: seq<Visit>)
    requires level > 0
    ensures children == ChildVisits(level, cells)
  {
    children := [];
    while |children| < |cells|
      invariant |children| <= |cells| && children == ChildVisits(level, cells[..|children|])
    {
      assert cells[..|children| + 1] == cells[..|children|] + [cells[|children|]];
      children := children + [Visit(cells[|children|].child, Some(level - 1))];
    }
    assert cells[..|children|] == cells;
  }

  /**
   * Retires a tree. It succeeds exactly if the pages from the root down make a tree, every page
   * of its parent's level and with increasing keys, that reaches no page twice. Then every page,
   * overflow chains included, is freed exactly once as often as it occurs (unless only the
   * references are wanted), and every external reference is dropped exactly as often as held.
   */
  method RetireTree(disk: map<PageId, Page>, root: PageId, alloc: PageAllocator, retirePages: bool) returns (r: Result<()>)
    modifies alloc`freed, alloc`droppedPayloadRefs
    ensures r.Ok? <==> root == 0 || Retirable(disk, root, retirePages)
    ensures r.Err? ==> r.error == Corruption
    ensures root == 0 ==> alloc.freed == old(alloc.freed) && alloc.droppedPayloadRefs == old(alloc.droppedPayloadRefs)
    ensures r.Ok? && root != 0 ==>
      var t := TreeOf(disk, Visit(root, None), retirePages);
      Booked(old(alloc.freed), alloc.freed, old(alloc.droppedPayloadRefs), alloc.droppedPayloadRefs, retirePages, PagesOf(t), multiset(RefsOf(Flat(t))))
  {
    hide Visiting, Booked, Retirable, NodeOk, LeafReads, ReadEntries, ChildVisits, VisitReads, TreeOf, PagesOf, Flat, RefsOf, ChainPages;
    if root == 0 {
      return Ok(());
    }
    var visited: set<PageId> := {};
    var stack := [Visit(root, None)];
    ghost var pages, refs := multiset{}, multiset{};
    VisitingStarts(disk, root, retirePages);
    NothingBooked(alloc.freed, alloc.droppedPayloadRefs, retirePages);
    while stack != []
      invariant visited <= disk.Keys && Visiting(disk, root, retirePages, stack, visited, pages, refs)
      invariant Booked(old(alloc.freed), alloc.freed, old(alloc.droppedPayloadRefs), alloc.droppedPayloadRefs, retirePages, pages, refs)
      decreases |disk.Keys - visited|
    {
      var rest, v := stack[..|stack| - 1], stack[|stack| - 1];
      assert stack == rest + [v];
      if v.id in visited {
        VisitRepeats(disk, root, retirePages, rest, v, visited, pages, refs);
        return Err(Corruption);
      }
      var ok := CheckNode(disk, v.id, v.expected);
      if !ok {
        NodeFails(disk, root, retirePages, rest, v, visited, pages, refs);
        return Err(Corruption);
      }
      NodeThere(disk, v);
      Fewer(disk.Keys, visited, v.id);
      if disk[v.id].InternalPage? {
        var children := ChildrenOf(disk[v.id].level, disk[v.id].cells);
        NodeVisited(disk, root, retirePages, rest, v, visited, pages, refs);
        BookMore(old(alloc.freed), alloc.freed, old(alloc.droppedPayloadRefs), alloc.droppedPayloadRefs, retirePages, pages, refs, [v.id], []);
        RetireLinks(alloc, retirePages, [v.id], []);
        NoMore(pages, refs, v.id);
        pages := pages + multiset{v.id};
        stack := rest + children;
      } else {
        var ids, external;
        ok, ids, external := LeafLinks(disk, disk[v.id].leafCells, retirePages);
        if !ok {
          LeafFails(disk, root, retirePages, rest, v, visited, pages, refs);
          return Err(Corruption);
        }
        LeafVisited(disk, root, retirePages, rest, v, visited, pages, refs);
        BookMore(old(alloc.freed), alloc.freed, old(alloc.droppedPayloadRefs), alloc.droppedPayloadRefs, retirePages, pages, refs, [v.id] + ids, external);
        RetireLinks(alloc, retirePages, [v.id] + ids, external);
        LeafPages(pages, v.id, ids);
        pages, refs := pages + multiset([v.id] + ids), refs + multiset(external);
        stack := rest;
      }
      visited := visited + {v.id};
    }
    VisitingDone(disk, root, retirePages, visited, pages, refs);
    return Ok(());
  }

  lemma {:induction false} Fewer(all: set<PageId>, visited: set<PageId>, id: PageId)
    requires id in all && id !in visited
    ensures |all - (visited + {id})| < |all - visited|
  {
    assert all - visited == (all - (visited + {id})) + {id};
  }

  lemma {:induction false} NodeThere(disk: map<PageId, Page>, v: Visit)
    requires NodeOk(disk, v.id, v.expected)
    ensures v.id in disk && !disk[v.id].OverflowPage? && (disk[v.id].InternalPage? ==> disk[v.id].level > 0)
  {
  }

  lemma {:induction false} NodeFails(disk: map<PageId, Page>, root: PageId, chains: bool, rest: seq<Visit>, v: Visit, visited: set<PageId>, pages: multiset<PageId>, refs: multiset<PayloadRef>)
    requires Visiting(disk, root, chains, rest + [v], visited, pages, refs) && !NodeOk(disk, v.id, v.expected)
    ensures !Retirable(disk, root, chains)
  {
    hide Visiting, NodeOk, Retirable;
    NodeOkAtLevel(disk, v);
    VisitFails(disk, root, chains, rest, v, visited, pages, refs);
  }

  lemma {:induction false} LeafFails(disk: map<PageId, Page>, root: PageId, chains: bool, rest: seq<Visit>, v: Visit, visited: set<PageId>, pages: multiset<PageId>, refs: multiset<PayloadRef>)
    requires Visiting(disk, root, chains, rest + [v], visited, pages, refs)
    requires v.id in disk && disk[v.id].LeafPage? && !LeafReads(disk, disk[v.id].leafCells, chains)
    ensures !Retirable(disk, root, chains)
  {
    hide Visiting, NodeOk, Retirable, LeafReads;
    VisitFails(disk, root, chains, rest, v, visited, pages, refs);
  }

  lemma {:induction false} NoMore(pages: multiset<PageId>, refs: multiset<PayloadRef>, id: PageId)
    ensures pages + multiset([id]) == pages + multiset{id} && refs + multiset([]) == refs
  {
  }

  /** Frees the pages of one visit, unless pages are kept, and drops its references. */
  method RetireLinks(alloc: PageAllocator, retirePages: bool, ids: seq<PageId>, refs: seq<PayloadRef>)
    modifies alloc`freed, alloc`droppedPayloadRefs
    ensures alloc.freed == old(alloc.freed) + (if retirePages then ids else [])
    ensures alloc.droppedPayloadRefs == old(alloc.droppedPayloadRefs) + refs
  {
    alloc.droppedPayloadRefs := alloc.droppedPayloadRefs + refs;
    if retirePages {
      alloc.freed := alloc.freed + ids;
    }
  }

  /** What has been freed and dropped since the start. */
  ghost predicate Booked(f0: seq<PageId>, f: seq<PageId>, d0: seq<PayloadRef>, d: seq<PayloadRef>, retirePages: bool, pages: multiset<PageId>, refs: multiset<PayloadRef>) {
    && f0 <= f && d0 <= d
    && multiset(f[|f0|..]) == (if retirePages then pages else multiset{})
    && multiset(d[|d0|..]) == refs
  }

  lemma {:induction false} NothingBooked(f: seq<PageId>, d: seq<PayloadRef>, retirePages: bool)
    ensures Booked(f, f, d, d, retirePages, multiset{}, multiset{})
  {
    assert f[|f|..] == [] && d[|d|..] == [];
  }

  lemma {:induction false} BookMore(f0: seq<PageId>, f: seq<PageId>, d0: seq<PayloadRef>, d: seq<PayloadRef>, retirePages: bool, pages: multiset<PageId>, refs: multiset<PayloadRef>,
                                    ids: seq<PageId>, more: seq<PayloadRef>)
    requires Booked(f0, f, d0, d, retirePages, pages, refs)
    ensures Booked(f0, f + (if retirePages then ids else []), d0, d + more, retirePages, pages + multiset(ids), refs + multiset(more))
  {
    var f', d' := f + (if retirePages then ids else []), d + more;
    assert f'[|f0|..] == f[|f0|..] + (if retirePages then ids else []);
    assert d'[|d0|..] == d[|d0|..] + more;
  }

  lemma {:induction false} LeafPages(pages: multiset<PageId>, id: PageId, ids: seq<PageId>)
    ensures pages + multiset{id} + multiset(ids) == pages + multiset([id] + ids)
  {
    assert multiset([id] + ids) == multiset{id} + multiset(ids);
  }

  lemma {:induction false} VisitingDone(disk: map<PageId, Page>, root: PageId, chains: bool, visited: set<PageId>, pages: multiset<PageId>, refs: multiset<PayloadRef>)
    requires Visiting(disk, root, chains, [], visited, pages, refs)
    ensures Retirable(disk, root, chains)
    ensures var t := TreeOf(disk, Visit(root, None), chains); pages == PagesOf(t) && refs == multiset(RefsOf(Flat(t)))
  {
    hide VisitReads, TreeOf, PagesOf, Flat, NodesOf;
    assert AllRead(disk, [], chains) && TreesOf(disk, [], chains) == [];
    var t := TreeOf(disk, Visit(root, None), chains);
    assert PagesOfAll([]) == multiset{} && RefsOfAll([]) == multiset{} && NodesOfAll([]) == multiset{};
    assert pages + multiset{} == pages && refs + multiset{} == refs && multiset(visited) + multiset{} == multiset(visited);
  }

  // ---------- well-formed trees ----------

  lemma {:induction false} EntryReadsBack(disk: map<PageId, Page>, e: Entry, chains: bool)
    requires EntrySpelled(disk, e)
    ensures CellReads(disk, e.cell, chains) && EntryOf(disk, e.cell, chains).cell == e.cell
    ensures chains ==> EntryOf(disk, e.cell, chains) == e
  {
    hide ChainSpells;
    if e.cell.Overflow? && chains {
      SpelledFacts(disk, e);
      var again := EntryOf(disk, e.cell, chains);
      OneChain(disk, e.chain, e.val.bytes, again.chain, again.val.bytes);
    }
  }

  /** The references of entries are those of their cells. */
  lemma {:induction false} RefsByCells(a: seq<Entry>, b: seq<Entry>)
    requires CellsOf(a) == CellsOf(b)
    ensures RefsOf(a) == RefsOf(b)
    decreases |a|
  {
    if a != [] {
      assert CellsOf(a)[0] == CellsOf(b)[0];
      assert CellsOf(a[1..]) == CellsOf(a)[1..] == CellsOf(b)[1..] == CellsOf(b[1..]);
      RefsByCells(a[1..], b[1..]);
    }
  }

  /** `u` is `t` as far as reading tells: the same pages and cells, and the same chains if they are read. */
  ghost predicate SameRead(t: Tree, u: Tree, chains: bool) {
    NodesOf(u) == NodesOf(t) && CellsOf(Flat(u)) == CellsOf(Flat(t)) && (chains ==> u == t)
  }

  lemma {:induction false} LeafReadsBack(disk: map<PageId, Page>, t: Tree, chains: bool)
    requires Spelled(disk, t) && t.Leaf? && Sorted(t.entries)
    ensures Readable(disk, t.id, 0, chains) && SameRead(t, TreeAt(disk, t.id, 0, chains), chains)
  {
    hide EntrySpelled, CellReads, EntryOf;
    TreeReads(disk, t);
    var cells := CellsOf(t.entries);
    forall i | 0 <= i < |cells| ensures CellReads(disk, cells[i], chains) && EntryOf(disk, cells[i], chains).cell == cells[i] && (chains ==> EntryOf(disk, cells[i], chains) == t.entries[i]) {
      EntryReadsBack(disk, t.entries[i], chains);
    }
  }

  lemma {:induction false} SameReadAll(ts: seq<Tree>, us: seq<Tree>, chains: bool)
    requires |ts| == |us| && forall i :: 0 <= i < |ts| ==> SameRead(ts[i], us[i], chains)
    ensures NodesOfAll(us) == NodesOfAll(ts) && CellsOf(FlatAll(us)) == CellsOf(FlatAll(ts)) && (chains ==> us == ts)
    decreases |ts|
  {
    hide NodesOf, Flat;
    if ts != [] {
      SameReadAll(ts[1..], us[1..], chains);
      JoinCells(Flat(ts[0]), FlatAll(ts[1..]));
      JoinCells(Flat(us[0]), FlatAll(us[1..]));
    }
  }

  lemma {:induction false} JoinCells(a: seq<Entry>, b: seq<Entry>)
    ensures CellsOf(a + b) == CellsOf(a) + CellsOf(b)
  {
  }

  lemma {:induction false} SpelledReads(disk: map<PageId, Page>, t: Tree, chains: bool)
    requires Spelled(disk, t) && (Shaped(t) || t.Leaf?) && Sorted(Flat(t))
    ensures Readable(disk, t.id, Height(t), chains) && SameRead(t, TreeAt(disk, t.id, Height(t), chains), chains)
    decreases t
  {
    if t.Leaf? {
      LeafReadsBack(disk, t, chains);
    } else {
      hide SameRead, Sorted, FlatAll, NodesOfAll;
      TreeReads(disk, t);
      forall i | 0 <= i < |t.kids|
        ensures Readable(disk, t.kids[i].id, t.level - 1, chains) && SameRead(t.kids[i], TreeAt(disk, t.kids[i].id, t.level - 1, chains), chains)
      {
        SortedKid(t.kids, i);
        SpelledReads(disk, t.kids[i], chains);
      }
      KidsReadBack(disk, t, chains);
    }
  }

  lemma {:induction false} KidsReadBack(disk: map<PageId, Page>, t: Tree, chains: bool)
    requires Spelled(disk, t) && t.Node? && t.level > 0 && NodeOk(disk, t.id, Some(t.level))
    requires forall i :: 0 <= i < |t.kids| ==> Readable(disk, t.kids[i].id, t.level - 1, chains) && SameRead(t.kids[i], TreeAt(disk, t.kids[i].id, t.level - 1, chains), chains)
    ensures Readable(disk, t.id, t.level, chains) && SameRead(t, TreeAt(disk, t.id, t.level, chains), chains)
  {
    hide Sorted, FlatAll, NodesOfAll, KeysIncrease, SeparatorsSorted;
    assert disk[t.id] == InternalPage(t.level, ParentCells(t.kids));
    var us := seq(|t.kids|, i requires 0 <= i < |t.kids| => TreeAt(disk, t.kids[i].id, t.level - 1, chains));
    assert Readable(disk, t.id, t.level, chains);
    assert TreeAt(disk, t.id, t.level, chains) == Node(t.id, t.level, us);
    hide SameRead;
    SameReadAll(t.kids, us, chains);
    assert SameRead(t, Node(t.id, t.level, us), chains) by { SameNode(t, us, chains); }
  }

  lemma {:induction false} SameNode(t: Tree, us: seq<Tree>, chains: bool)
    requires t.Node? && NodesOfAll(us) == NodesOfAll(t.kids) && CellsOf(FlatAll(us)) == CellsOf(FlatAll(t.kids)) && (chains ==> us == t.kids)
    ensures SameRead(t, Node(t.id, t.level, us), chains)
  {
  }

  lemma {:induction false} NodesArePages(t: Tree)
    ensures NodesOf(t) <= PagesOf(t)
    decreases t, 1
  {
    if t.Node? {
      AllNodesArePages(t.kids);
    }
  }

  lemma {:induction false} AllNodesArePages(ts: seq<Tree>)
    ensures NodesOfAll(ts) <= PagesOfAll(ts)
    decreases ts, 0
  {
    if ts != [] {
      NodesArePages(ts[0]);
      AllNodesArePages(ts[1..]);
    }
  }

  /** Every well-formed tree can be retired, and what is retired is its own pages and references. */
  lemma {:induction false} WellFormedRetires(disk: map<PageId, Page>, root: PageId, t: Tree, chains: bool)
    requires WellFormed(disk, root, Some(t))
    ensures root != 0 && Retirable(disk, root, chains)
    ensures var u := TreeOf(disk, Visit(root, None), chains);
            multiset(RefsOf(Flat(u))) == RefsIn(Some(t)) && (chains ==> PagesOf(u) == PagesIn(Some(t)))
  {
    hide Sorted, Flat, PagesOf, NodesOf;
    SpelledReads(disk, t, chains);
    assert LevelAt(disk, Visit(root, None)) == Height(t);
    var u := TreeOf(disk, Visit(root, None), chains);
    RefsByCells(Flat(u), Flat(t));
    NodesArePages(t);
    forall x ensures NodesOf(t)[x] <= 1 {
      assert NodesOf(t)[x] <= PagesOf(t)[x];
    }
  }
}
