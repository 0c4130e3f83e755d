/** Decoded page contents, cell costs and the trees that pages spell out. */
module Pages {
  import opened Keys

  const PAGE_SIZE := 4096
  const PAGE_HEADER_SIZE := 34
  const NODE_CAPACITY := PAGE_SIZE - PAGE_HEADER_SIZE
  const MIN_NODE_FILL := NODE_CAPACITY / 4
  const INLINE_VALUE_LIMIT := 1024
  const MAX_TREE_LEVEL := 48
  const OVERFLOW_CHUNK_LEN := PAGE_SIZE - PAGE_HEADER_SIZE - 12
  const MAX_STORED_VALUE_BYTES := 8 * 1024 * 1024 + 1024 + 255 + 64

  type PageId = nat

  datatype PayloadRef = PayloadRef(first: PageId, bodyLen: nat, checksum: nat)

  /** A leaf cell; the constructor is its `ValueKind`. */
  datatype LeafCell =
    | Inline(key: Key, value: Bytes)
    | Overflow(key: Key, head: PageId, totalLen: nat)
    | External(key: Key, reference: PayloadRef, prefix: Bytes)

  datatype InternalCell = InternalCell(separator: Key, child: PageId)

  datatype Page =
    | LeafPage(leafCells: seq<LeafCell>)
    | InternalPage(level: nat, cells: seq<InternalCell>)
    | OverflowPage(next: PageId, chunk: Bytes)

  /** What a key is bound to: bytes, or a prefix followed by an external body. */
  datatype Value =
    | Stored(bytes: Bytes)
    | ByReference(reference: PayloadRef, prefix: Bytes)

  datatype Option<+T> = None | Some(value: T)

  /** A new value for a key, or none to delete it. */
  datatype Mutation = Mutation(key: Key, value: Option<Value>)

  // ---------- costs ----------

  function LeafCellCost(c: LeafCell): nat {
    20 + |c.key| + (match c case Inline(_, v) => |v| case Overflow(_, _, _) => 0 case External(_, _, p) => 8 + |p|) + 2
  }

  function InternalCellCost(c: InternalCell): nat {
    12 + |c.separator| + 2
  }

  function LeafCost(cells: seq<LeafCell>): nat {
    if cells == [] then 0 else LeafCellCost(cells[0]) + LeafCost(cells[1..])
  }

  function InternalCost(cells: seq<InternalCell>): nat {
    if cells == [] then 0 else InternalCellCost(cells[0]) + InternalCost(cells[1..])
  }

  function ChunkCount(len: nat): nat {
    (len + OVERFLOW_CHUNK_LEN - 1) / OVERFLOW_CHUNK_LEN
  }

  // ---------- ghost trees ----------

  /** A leaf cell together with the pages of its overflow chain and the value it denotes. */
  datatype Entry = Entry(cell: LeafCell, chain: seq<PageId>, val: Value)

  datatype Tree =
    | Leaf(id: PageId, entries: seq<Entry>)
    | Node(id: PageId, level: nat, kids: seq<Tree>)

  function Height(t: Tree): nat {
    if t.Leaf? then 0 else t.level
  }

  function CellsOf(entries: seq<Entry>): (r: seq<LeafCell>)
    ensures |r| == |entries|
  {
    seq(|entries|, i requires 0 <= i < |entries| => entries[i].cell)
  }

  function Flat(t: Tree): seq<Entry>
    decreases t, 1
  {
    match t
    case Leaf(_, entries) => entries
    case Node(_, _, kids) => FlatAll(kids)
  }

  function FlatAll(ts: seq<Tree>): seq<Entry>
    decreases ts, 0
  {
    if ts == [] then [] else Flat(ts[0]) + FlatAll(ts[1..])
  }

  /** Every page of the tree, overflow chains included, with multiplicity. */
  function PagesOf(t: Tree): multiset<PageId>
    decreases t, 1
  {
    match t
    case Leaf(id, entries) => multiset{id} + ChainPages(entries)
    case Node(id, _, kids) => multiset{id} + PagesOfAll(kids)
  }

  function PagesOfAll(ts: seq<Tree>): multiset<PageId>
    decreases ts, 0
  {
    if ts == [] then multiset{} else PagesOf(ts[0]) + PagesOfAll(ts[1..])
  }

  function ChainPages(entries: seq<Entry>): multiset<PageId> {
    if entries == [] then multiset{} else multiset(entries[0].chain) + ChainPages(entries[1..])
  }

  function FirstKey(t: Tree): Key {
    match t
    case Leaf(_, entries) => if entries == [] then [] else entries[0].cell.key
    case Node(_, _, kids) => if kids == [] then [] else FirstKey(kids[0])
  }

  function ParentCell(t: Tree): InternalCell {
    InternalCell(FirstKey(t), t.id)
  }

  function ParentCells(ts: seq<Tree>): (r: seq<InternalCell>)
    ensures |r| == |ts|
  {
    seq(|ts|, i requires 0 <= i < |ts| => ParentCell(ts[i]))
  }

  /**
   * Shape of a subtree: nonempty pages that fit, all leaves at one depth, and a
   * level recorded in every internal page.
   */
  ghost predicate Shaped(t: Tree) {
    match t
    case Leaf(id, entries) => id > 0 && |entries| > 0 && LeafCost(CellsOf(entries)) <= NODE_CAPACITY
    case Node(id, level, kids) =>
      && id > 0
      && 1 <= level <= MAX_TREE_LEVEL
      && |kids| > 0
      && (forall i :: 0 <= i < |kids| ==> Height(kids[i]) == level - 1 && Shaped(kids[i]))
      && InternalCost(ParentCells(kids)) <= NODE_CAPACITY
  }

  /** A root may also be an empty leaf, and is never an internal page with one child. */
  ghost predicate ShapedRoot(t: Tree) {
    || (t.Leaf? && t.id > 0 && t.entries == [])
    || (Shaped(t) && (t.Node? ==> |t.kids| > 1))
  }

  ghost predicate ShapedAll(ts: seq<Tree>, height: nat) {
    forall i :: 0 <= i < |ts| ==> Shaped(ts[i]) && Height(ts[i]) == height
  }

  ghost predicate Sorted(entries: seq<Entry>) {
    forall i, j :: 0 <= i < j < |entries| ==> Less(entries[i].cell.key, entries[j].cell.key)
  }

  // ---------- trees spelled out by pages ----------

  /** `ids` is a linked chain of overflow pages that spells `bytes`. */
  ghost predicate ChainSpells(pages: map<PageId, Page>, ids: seq<PageId>, bytes: Bytes) {
    if ids == [] then bytes == []
    else
      && ids[0] > 0
      && ids[0] in pages
      && pages[ids[0]].OverflowPage?
      && var page := pages[ids[0]];
      && 0 < |page.chunk| <= |bytes|
      && page.chunk == bytes[..|page.chunk|]
      && page.next == (if |ids| > 1 then ids[1] else 0)
      && ChainSpells(pages, ids[1..], bytes[|page.chunk|..])
  }

  ghost predicate EntrySpelled(pages: map<PageId, Page>, e: Entry) {
    match e.cell
    case Inline(_, value) => e.chain == [] && e.val == Stored(value)
    case Overflow(_, head, totalLen) =>
      && e.val.Stored?
      && |e.val.bytes| == totalLen
      && 0 < totalLen <= MAX_STORED_VALUE_BYTES
      && 0 < |e.chain| <= ChunkCount(totalLen)
      && e.chain[0] == head
      && ChainSpells(pages, e.chain, e.val.bytes)
    case External(_, reference, prefix) => e.chain == [] && e.val == ByReference(reference, prefix)
  }

  ghost predicate EntriesSpelled(pages: map<PageId, Page>, entries: seq<Entry>) {
    forall i :: 0 <= i < |entries| ==> EntrySpelled(pages, entries[i])
  }

  ghost predicate Spelled(pages: map<PageId, Page>, t: Tree) {
    && t.id in pages
    && match t
       case Leaf(id, entries) => pages[id] == LeafPage(CellsOf(entries)) && EntriesSpelled(pages, entries)
       case Node(id, level, kids) =>
         && pages[id] == InternalPage(level, ParentCells(kids))
         && forall i :: 0 <= i < |kids| ==> Spelled(pages, kids[i])
  }

  ghost predicate SpelledAll(pages: map<PageId, Page>, ts: seq<Tree>) {
    forall i :: 0 <= i < |ts| ==> Spelled(pages, ts[i])
  }

  // ---------- sequence lemmas ----------

  lemma {:induction false} FlatAllAppend(a: seq<Tree>, b: seq<Tree>)
    ensures FlatAll(a + b) == FlatAll(a) + FlatAll(b)
    decreases |a|
  {
    if a == [] {
      assert a + b == b;
    } else {
      assert (a + b)[1..] == a[1..] + b;
      FlatAllAppend(a[1..], b);
    }
  }

  lemma {:induction false} PagesOfAllAppend(a: seq<Tree>, b: seq<Tree>)
    ensures PagesOfAll(a + b) == PagesOfAll(a) + PagesOfAll(b)
    decreases |a|
  {
    if a == [] {
      assert a + b == b;
    } else {
      assert (a + b)[1..] == a[1..] + b;
      PagesOfAllAppend(a[1..], b);
    }
  }

  lemma {:induction false} FlatAllSnoc(a: seq<Tree>, t: Tree)
    ensures FlatAll(a + [t]) == FlatAll(a) + Flat(t)
  {
    FlatAllAppend(a, [t]);
    assert FlatAll([t]) == Flat(t) + FlatAll([]);
  }

  lemma {:induction false} PagesOfAllSnoc(a: seq<Tree>, t: Tree)
    ensures PagesOfAll(a + [t]) == PagesOfAll(a) + PagesOf(t)
  {
    PagesOfAllAppend(a, [t]);
    assert PagesOfAll([t]) == PagesOf(t) + PagesOfAll([]);
  }

  lemma {:induction false} ShapedAllAppend(a: seq<Tree>, b: seq<Tree>, height: nat)
    requires ShapedAll(a, height) && ShapedAll(b, height)
    ensures ShapedAll(a + b, height)
  {
    forall i | 0 <= i < |a + b| ensures Shaped((a + b)[i]) && Height((a + b)[i]) == height {
      if i < |a| {
        assert (a + b)[i] == a[i];
      } else {
        assert (a + b)[i] == b[i - |a|];
      }
    }
  }

  lemma {:induction false} ShapedAllSnoc(a: seq<Tree>, t: Tree, height: nat)
    requires ShapedAll(a, height) && Shaped(t) && Height(t) == height
    ensures ShapedAll(a + [t], height)
  {
    ShapedAllAppend(a, [t], height);
  }

  lemma {:induction false} ChainPagesAppend(a: seq<Entry>, b: seq<Entry>)
    ensures ChainPages(a + b) == ChainPages(a) + ChainPages(b)
    decreases |a|
  {
    if a == [] {
      assert a + b == b;
    } else {
      assert (a + b)[1..] == a[1..] + b;
      ChainPagesAppend(a[1..], b);
    }
  }

  lemma {:induction false} LeafCostAppend(a: seq<LeafCell>, b: seq<LeafCell>)
    ensures LeafCost(a + b) == LeafCost(a) + LeafCost(b)
    decreases |a|
  {
    if a == [] {
      assert a + b == b;
    } else {
      assert (a + b)[1..] == a[1..] + b;
      LeafCostAppend(a[1..], b);
    }
  }

  lemma {:induction false} InternalCostAppend(a: seq<InternalCell>, b: seq<InternalCell>)
    ensures InternalCost(a + b) == InternalCost(a) + InternalCost(b)
    decreases |a|
  {
    if a == [] {
      assert a + b == b;
    } else {
      assert (a + b)[1..] == a[1..] + b;
      InternalCostAppend(a[1..], b);
    }
  }

  lemma {:induction false} KidPagesContained(ts: seq<Tree>, i: nat)
    requires i < |ts|
    ensures PagesOf(ts[i]) <= PagesOfAll(ts)
    decreases |ts|
  {
    if i > 0 {
      KidPagesContained(ts[1..], i - 1);
    }
  }

  lemma {:induction false} EntryChainContained(entries: seq<Entry>, i: nat)
    requires i < |entries|
    ensures multiset(entries[i].chain) <= ChainPages(entries)
    decreases |entries|
  {
    if i > 0 {
      EntryChainContained(entries[1..], i - 1);
    }
  }

  /** A shaped subtree is nonempty and its separator is its smallest key. */
  lemma {:induction false} FirstKeyIsFirst(t: Tree)
    requires Shaped(t)
    ensures |Flat(t)| > 0 && Flat(t)[0].cell.key == FirstKey(t)
  {
    if t.Node? {
      FirstKeyIsFirst(t.kids[0]);
    }
  }

  // ---------- frames ----------

  /** `after` holds the same content as `before` at every page in `ids`. */
  ghost predicate AgreeOn(before: map<PageId, Page>, after: map<PageId, Page>, ids: multiset<PageId>) {
    forall x :: x in ids && x in before ==> x in after && after[x] == before[x]
  }

  lemma {:induction false} ChainFrame(before: map<PageId, Page>, after: map<PageId, Page>, ids: seq<PageId>, bytes: Bytes)
    requires ChainSpells(before, ids, bytes)
    requires forall x :: x in ids && x in before ==> x in after && after[x] == before[x]
    ensures ChainSpells(after, ids, bytes)
    decreases |ids|
  {
    if ids != [] {
      assert ids[0] in ids;
      ChainFrame(before, after, ids[1..], bytes[|before[ids[0]].chunk|..]);
    }
  }

  lemma {:induction false} EntriesFrame(before: map<PageId, Page>, after: map<PageId, Page>, entries: seq<Entry>)
    requires EntriesSpelled(before, entries)
    requires AgreeOn(before, after, ChainPages(entries))
    ensures EntriesSpelled(after, entries)
  {
    forall i | 0 <= i < |entries| ensures EntrySpelled(after, entries[i]) {
      if entries[i].cell.Overflow? {
        EntryChainContained(entries, i);
        forall x | x in entries[i].chain && x in before ensures x in after && after[x] == before[x] {
          assert x in multiset(entries[i].chain);
          assert x in ChainPages(entries);
        }
        ChainFrame(before, after, entries[i].chain, entries[i].val.bytes);
      }
    }
  }

  /** A tree keeps its meaning as long as its own pages do. */
  lemma {:induction false} TreeFrame(before: map<PageId, Page>, after: map<PageId, Page>, t: Tree)
    requires Spelled(before, t)
    requires AgreeOn(before, after, PagesOf(t))
    ensures Spelled(after, t)
  {
    assert t.id in PagesOf(t);
    match t
    case Leaf(id, entries) =>
      EntriesFrame(before, after, entries);
    case Node(id, level, kids) =>
      forall i | 0 <= i < |kids| ensures Spelled(after, kids[i]) {
        KidPagesContained(kids, i);
        TreeFrame(before, after, kids[i]);
      }
  }

  // ---------- pages spell out one tree ----------

  /** Two chains that a cell declares are the same. */
  lemma {:induction false} OneChain(disk: map<PageId, Page>, a: seq<PageId>, x: Bytes, b: seq<PageId>, y: Bytes)
    requires ChainSpells(disk, a, x) && ChainSpells(disk, b, y) && |x| == |y|
    requires a != [] && b != [] ==> a[0] == b[0]
    ensures a == b && x == y
    decreases |a|
  {
    if a != [] && b != [] {
      var n := |disk[a[0]].chunk|;
      if |a| > 1 {
        FirstPositive(disk, a[1..], x[n..]);
      }
      if |b| > 1 {
        FirstPositive(disk, b[1..], y[n..]);
      }
      OneChain(disk, a[1..], x[n..], b[1..], y[n..]);
      assert a == [a[0]] + a[1..] && b == [b[0]] + b[1..] && x == x[..n] + x[n..] && y == y[..n] + y[n..];
    }
  }

  lemma {:induction false} FirstPositive(disk: map<PageId, Page>, ids: seq<PageId>, bytes: Bytes)
    requires ChainSpells(disk, ids, bytes) && ids != []
    ensures ids[0] > 0
  {
  }

  lemma {:induction false} OneEntrySpelled(pages: map<PageId, Page>, e: Entry, f: Entry)
    requires EntrySpelled(pages, e) && EntrySpelled(pages, f) && e.cell == f.cell
    ensures e == f
  {
    hide ChainSpells;
    if e.cell.Overflow? {
      OneChain(pages, e.chain, e.val.bytes, f.chain, f.val.bytes);
    }
  }

  /** Under one page there is one tree. */
  lemma {:induction false} OneTreeSpelled(pages: map<PageId, Page>, t: Tree, u: Tree)
    requires Spelled(pages, t) && Spelled(pages, u) && t.id == u.id
    ensures t == u
    decreases t
  {
    hide EntrySpelled;
    if t.Leaf? {
      forall i | 0 <= i < |t.entries| ensures i < |u.entries| && t.entries[i] == u.entries[i] {
        assert CellsOf(t.entries)[i] == CellsOf(u.entries)[i];
        OneEntrySpelled(pages, t.entries[i], u.entries[i]);
      }
      assert |CellsOf(t.entries)| == |CellsOf(u.entries)|;
    } else {
      assert |ParentCells(t.kids)| == |ParentCells(u.kids)|;
      forall i | 0 <= i < |t.kids| ensures t.kids[i] == u.kids[i] {
        assert ParentCells(t.kids)[i] == ParentCells(u.kids)[i];
        OneTreeSpelled(pages, t.kids[i], u.kids[i]);
      }
    }
  }

  /** Every internal page of a tree is the root of a subtree. */
  lemma {:induction false} SubtreeAt(pages: map<PageId, Page>, t: Tree, id: PageId) returns (u: Tree)
    requires Spelled(pages, t) && id in PagesOf(t) && id in pages && pages[id].InternalPage?
    ensures Spelled(pages, u) && u.id == id && PagesOf(u) <= PagesOf(t)
    decreases t
  {
    if t.id == id {
      u := t;
    } else if t.Leaf? {
      NotInChains(pages, t.entries, id);
      u := t;
    } else {
      var i := KidWith(t.kids, id);
      KidPagesContained(t.kids, i);
      u := SubtreeAt(pages, t.kids[i], id);
    }
  }

  lemma {:induction false} KidWith(ts: seq<Tree>, id: PageId) returns (i: nat)
    requires id in PagesOfAll(ts)
    ensures i < |ts| && id in PagesOf(ts[i])
    decreases |ts|
  {
    hide PagesOf;
    if id in PagesOf(ts[0]) {
      i := 0;
    } else {
      i := KidWith(ts[1..], id);
      i := i + 1;
    }
  }

  lemma {:induction false} NotInChains(pages: map<PageId, Page>, entries: seq<Entry>, id: PageId)
    requires EntriesSpelled(pages, entries) && id in pages && !pages[id].OverflowPage?
    ensures id !in ChainPages(entries)
    decreases |entries|
  {
    if entries != [] {
      assert EntrySpelled(pages, entries[0]) && forall i :: 0 <= i < |entries[1..]| ==> entries[1..][i] == entries[i + 1];
      if entries[0].cell.Overflow? {
        NotInChain(pages, entries[0].chain, entries[0].val.bytes, id);
      }
      NotInChains(pages, entries[1..], id);
    }
  }

  lemma {:induction false} NotInChain(pages: map<PageId, Page>, ids: seq<PageId>, bytes: Bytes, id: PageId)
    requires ChainSpells(pages, ids, bytes) && id in pages && !pages[id].OverflowPage?
    ensures id !in multiset(ids)
    decreases |ids|
  {
    if ids != [] {
      NotInChain(pages, ids[1..], bytes[|pages[ids[0]].chunk|..], id);
      assert ids == [ids[0]] + ids[1..];
    }
  }
}
