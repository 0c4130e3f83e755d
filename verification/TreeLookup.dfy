/** Point lookups: binary search in pages, descent, and the shared ancestor cache. */
module TreeLookup {
  import opened Keys
  import opened Pages
  import opened MergeSpec
  import opened Allocator
  import opened Split
  import opened NodeReading
  import opened TreeApply

  // ---------- what a lookup means ----------

  /** The cell bound to `key` among sorted entries. */
  ghost function Find(es: seq<Entry>, key: Key): Option<LeafCell> {
    if es == [] then None else if es[0].cell.key == key then Some(es[0].cell) else Find(es[1..], key)
  }

  lemma {:induction false} FindIs(es: seq<Entry>, key: Key)
    ensures Find(es, key).Some? ==> exists i :: 0 <= i < |es| && es[i].cell == Find(es, key).value && es[i].cell.key == key
    ensures Find(es, key).None? ==> forall i :: 0 <= i < |es| ==> es[i].cell.key != key
    decreases |es|
  {
    if es != [] && es[0].cell.key != key {
      FindIs(es[1..], key);
      assert forall i :: 0 < i < |es| ==> es[i] == es[1..][i - 1];
    }
  }

  lemma {:induction false} FindAppend(a: seq<Entry>, b: seq<Entry>, key: Key)
    ensures Find(a + b, key) == if Find(a, key).Some? then Find(a, key) else Find(b, key)
    decreases |a|
  {
    if a == [] {
      assert a + b == b;
    } else {
      assert (a + b)[1..] == a[1..] + b;
      FindAppend(a[1..], b, key);
    }
  }

  lemma {:induction false} FindNone(es: seq<Entry>, key: Key)
    requires forall i :: 0 <= i < |es| ==> es[i].cell.key != key
    ensures Find(es, key).None?
    decreases |es|
  {
    if es != [] {
      assert forall i :: 0 <= i < |es[1..]| ==> es[1..][i] == es[i + 1];
      FindNone(es[1..], key);
    }
  }

  lemma {:induction false} FindAt(es: seq<Entry>, i: nat)
    requires Sorted(es) && i < |es|
    ensures Find(es, es[i].cell.key) == Some(es[i].cell)
    decreases |es|
  {
    KeyOrder();
    if i > 0 {
      assert es[1..][i - 1] == es[i];
      FindAt(es[1..], i - 1);
    }
  }

  /** A key has a cell exactly when it is bound, and the cell's entry carries its value. */
  lemma {:induction false} FindDenotes(es: seq<Entry>, key: Key)
    requires Sorted(es)
    ensures Find(es, key).Some? <==> key in MapOf(es)
    ensures Find(es, key).Some? ==> exists i :: 0 <= i < |es| && es[i].cell == Find(es, key).value && es[i].val == MapOf(es)[key]
  {
    hide Find, MapOf, Less;
    FindIs(es, key);
    if Find(es, key).Some? {
      var i :| 0 <= i < |es| && es[i].cell == Find(es, key).value && es[i].cell.key == key;
      MapOfAt(es, i);
    }
  }

  // ---------- searching one page ----------

  /** What binary search finds between `lo` and `hi`, whatever the order of the cells. */
  function LeafProbe(cells: seq<LeafCell>, key: Key, lo: nat, hi: nat): Option<LeafCell>
    requires lo <= hi <= |cells|
    decreases hi - lo
  {
    if lo == hi then None
    else
      var mid := lo + (hi - lo) / 2;
      if Less(cells[mid].key, key) then LeafProbe(cells, key, mid + 1, hi)
      else if cells[mid].key == key then Some(cells[mid])
      else LeafProbe(cells, key, lo, mid)
  }

  /** In a sorted leaf, binary search finds the cell of the key or that there is none. */
  lemma {:induction false} LeafProbeFinds(es: seq<Entry>, key: Key, lo: nat, hi: nat)
    requires Sorted(es) && lo <= hi <= |es|
    requires forall i :: 0 <= i < lo ==> Less(es[i].cell.key, key)
    requires forall i :: hi <= i < |es| ==> Less(key, es[i].cell.key)
    ensures LeafProbe(CellsOf(es), key, lo, hi) == Find(es, key)
    decreases hi - lo
  {
    hide Less, Find;
    KeyOrder();
    if lo == hi {
      FindNone(es, key);
    } else {
      var mid := lo + (hi - lo) / 2;
      if Less(es[mid].cell.key, key) {
        LeafProbeFinds(es, key, mid + 1, hi);
      } else if es[mid].cell.key == key {
        FindAt(es, mid);
      } else {
        LeafProbeFinds(es, key, lo, mid);
      }
    }
  }

  method LookupLeaf(cells: seq<LeafCell>, key: Key) returns (r: Option<LeafCell>)
    ensures r == LeafProbe(cells, key, 0, |cells|)
    ensures forall es :: cells == CellsOf(es) && Sorted(es) ==> r == Find(es, key)
  {
    hide Less, Find, Sorted;
    forall es | cells == CellsOf(es) && Sorted(es) ensures LeafProbe(cells, key, 0, |cells|) == Find(es, key) {
      LeafProbeFinds(es, key, 0, |es|);
    }
    var lo: nat, hi: nat := 0, |cells|;
    while lo < hi
      invariant lo <= hi <= |cells|
      invariant LeafProbe(cells, key, lo, hi) == LeafProbe(cells, key, 0, |cells|)
    {
      var mid := lo + (hi - lo) / 2;
      if Less(cells[mid].key, key) {
        lo := mid + 1;
      } else if cells[mid].key == key {
        return Some(cells[mid]);
      } else {
        hi := mid;
      }
    }
    return None;
  }

  /** The rightmost child whose separator is at most `key`, or the first child. */
  ghost predicate Chosen(cells: seq<InternalCell>, key: Key, index: nat) {
    && index < |cells|
    && (index > 0 ==> !Less(key, cells[index].separator))
    && forall j :: index < j < |cells| ==> Less(key, cells[j].separator)
  }

  /** Where binary search ends between `lo` and `hi`, whatever the order of the separators. */
  function ChildProbe(cells: seq<InternalCell>, key: Key, lo: nat, hi: nat): (r: nat)
    requires lo <= hi <= |cells|
    ensures lo <= r <= hi
    decreases hi - lo
  {
    if lo == hi then lo
    else
      var mid := lo + (hi - lo) / 2;
      if !Less(key, cells[mid].separator) then ChildProbe(cells, key, mid + 1, hi) else ChildProbe(cells, key, lo, mid)
  }

  function ChildIndex(cells: seq<InternalCell>, key: Key): (r: nat)
    requires cells != []
    ensures r < |cells|
  {
    var lo := ChildProbe(cells, key, 0, |cells|);
    if lo == 0 then 0 else lo - 1
  }

  lemma {:induction false} ChildProbeChooses(cells: seq<InternalCell>, key: Key, lo: nat, hi: nat)
    requires lo <= hi <= |cells| && SeparatorsSorted(cells)
    requires forall i :: 0 <= i < lo ==> !Less(key, cells[i].separator)
    requires forall i :: hi <= i < |cells| ==> Less(key, cells[i].separator)
    ensures forall i :: 0 <= i < ChildProbe(cells, key, lo, hi) ==> !Less(key, cells[i].separator)
    ensures forall i :: ChildProbe(cells, key, lo, hi) <= i < |cells| ==> Less(key, cells[i].separator)
    decreases hi - lo
  {
    hide Less;
    KeyOrder();
    if lo < hi {
      var mid := lo + (hi - lo) / 2;
      if !Less(key, cells[mid].separator) {
        ChildProbeChooses(cells, key, mid + 1, hi);
      } else {
        ChildProbeChooses(cells, key, lo, mid);
      }
    }
  }

  lemma {:induction false} IndexIsChosen(cells: seq<InternalCell>, key: Key)
    requires cells != [] && SeparatorsSorted(cells)
    ensures Chosen(cells, key, ChildIndex(cells, key))
  {
    hide Less;
    ChildProbeChooses(cells, key, 0, |cells|);
  }

  lemma {:induction false} ChildProbeStep(cells: seq<InternalCell>, key: Key, lo: nat, hi: nat, mid: nat)
    requires lo < hi <= |cells| && mid == lo + (hi - lo) / 2
    ensures lo <= mid < hi
    ensures ChildProbe(cells, key, lo, hi) == if !Less(key, cells[mid].separator) then ChildProbe(cells, key, mid + 1, hi) else ChildProbe(cells, key, lo, mid)
  {
    hide Less;
  }

  lemma {:induction false} ChildProbeEnd(cells: seq<InternalCell>, key: Key, lo: nat)
    requires lo <= |cells|
    ensures ChildProbe(cells, key, lo, lo) == lo
  {
  }

  method ChooseChild(cells: seq<InternalCell>, key: Key) returns (index: nat, child: PageId)
    requires cells != []
    ensures index == ChildIndex(cells, key) && child == cells[index].child
    ensures SeparatorsSorted(cells) ==> Chosen(cells, key, index)
  {
    hide Less, SeparatorsSorted, Chosen, ChildProbe;
    if SeparatorsSorted(cells) {
      IndexIsChosen(cells, key);
    }
    var lo: nat, hi: nat := 0, |cells|;
    var chosen: Option<(nat, PageId)> := None;
    var leftmost: Option<PageId> := None;
    while lo < hi
      invariant lo <= hi <= |cells|
      invariant ChildProbe(cells, key, lo, hi) == ChildProbe(cells, key, 0, |cells|)
      invariant chosen.Some? ==> chosen.value.0 < |cells| && chosen.value.1 == cells[chosen.value.0].child
      invariant leftmost.Some? ==> leftmost.value == cells[0].child
    {
      var mid := lo + (hi - lo) / 2;
      ChildProbeStep(cells, key, lo, hi, mid);
      if mid == 0 {
        leftmost := Some(cells[mid].child);
      }
      if !Less(key, cells[mid].separator) {
        chosen := Some((mid, cells[mid].child));
        lo := mid + 1;
      } else {
        hi := mid;
      }
    }
    ChildProbeEnd(cells, key, lo);
    index := if lo == 0 then 0 else lo - 1;
    if chosen.Some? && chosen.value.0 == index {
      return index, chosen.value.1;
    }
    if index == 0 && leftmost.Some? {
      return index, leftmost.value;
    }
    return index, cells[index].child;
  }

  /** The chosen child alone can hold the key. */
  lemma {:induction false} ChosenHoldsKey(kids: seq<Tree>, height: nat, key: Key, index: nat)
    requires ShapedAll(kids, height) && Sorted(FlatAll(kids)) && Chosen(ParentCells(kids), key, index)
    ensures Find(FlatAll(kids), key) == Find(Flat(kids[index]), key)
    ensures Sorted(Flat(kids[index]))
  {
    hide FlatAll, Flat, Less, Shaped, Find, FirstKey;
    var before, here, after := FlatAll(kids[..index]), Flat(kids[index]), FlatAll(kids[index + 1..]);
    KidFlatIsSlice(kids, index);
    SortedAppend(before + here, after);
    SortedAppend(before, here);
    FindAppend(before + here, after, key);
    FindAppend(before, here, key);
    BeforeChosen(kids, height, key, index);
    AfterChosen(kids, height, key, index);
    KeyOrder();
    FindNone(before, key);
    FindNone(after, key);
  }

  ghost predicate EntriesAfter(es: seq<Entry>, k: Key) {
    forall i :: 0 <= i < |es| ==> Less(k, es[i].cell.key)
  }

  lemma {:induction false} BeforeChosen(kids: seq<Tree>, height: nat, key: Key, index: nat)
    requires ShapedAll(kids, height) && Sorted(FlatAll(kids)) && Chosen(ParentCells(kids), key, index)
    ensures EntriesBefore(FlatAll(kids[..index]), key)
  {
    hide FlatAll, Flat, Less, Shaped, FirstKey;
    KeyOrder();
    var before := FlatAll(kids[..index]);
    SortedKid(kids, index);
    FirstKeyIsFirst(kids[index]);
    if index == 0 {
      assert kids[..0] == [];
      NoKids();
    }
  }

  lemma {:induction false} NoKids()
    ensures FlatAll([]) == []
  {
  }

  lemma {:induction false} AfterChosen(kids: seq<Tree>, height: nat, key: Key, index: nat)
    requires ShapedAll(kids, height) && Sorted(FlatAll(kids)) && Chosen(ParentCells(kids), key, index)
    ensures EntriesAfter(FlatAll(kids[index + 1..]), key)
  {
    hide FlatAll, Flat, Less, Shaped, FirstKey;
    KeyOrder();
    var rest := kids[index + 1..];
    if rest == [] {
      NoKids();
    } else {
      KidFlatIsSlice(kids, index);
      SortedAppend(FlatAll(kids[..index]) + Flat(kids[index]), FlatAll(rest));
      FirstOfAll(rest, height);
      assert rest[0] == kids[index + 1];
      assert Less(key, ParentCells(kids)[index + 1].separator);
    }
  }

  lemma {:induction false} FirstOfAll(ts: seq<Tree>, height: nat)
    requires ShapedAll(ts, height) && ts != []
    ensures |FlatAll(ts)| > 0 && FlatAll(ts)[0].cell.key == FirstKey(ts[0])
  {
    hide Flat, Shaped, FirstKey;
    FirstKeyIsFirst(ts[0]);
    assert FlatAll(ts) == Flat(ts[0]) + FlatAll(ts[1..]);
  }

  // ---------- plain lookups, on any pages ----------

  /** What a node at the expected level reads as: header checks, kind and level. */
  function NodeAt(pages: map<PageId, Page>, id: PageId, expected: Option<nat>): Result<Page> {
    if id in pages && HeaderOk(pages[id]) && LevelOk(pages[id], expected) then Ok(pages[id]) else Err(Corruption)
  }

  /** Tree pages with a valid header. */
  predicate HeaderOk(page: Page) {
    match page
    case LeafPage(_) => true
    case InternalPage(level, cells) => level > 0 && cells != []
    case OverflowPage(_, _) => false
  }

  function LevelOf(page: Page): nat {
    if page.InternalPage? then page.level else 0
  }

  predicate LevelOk(page: Page, expected: Option<nat>) {
    expected.Some? ==> LevelOf(page) == expected.value
  }

  /** The lookup without a cache; every step goes one level down. */
  function PlainWalk(pages: map<PageId, Page>, id: PageId, expected: Option<nat>, key: Key): Result<Option<LeafCell>>
    decreases expected.None?, if expected.Some? then expected.value else 0
  {
    var node := NodeAt(pages, id, expected);
    if node.Err? then Err(node.error)
    else if node.value.LeafPage? then Ok(LeafProbe(node.value.leafCells, key, 0, |node.value.leafCells|))
    else PlainWalk(pages, node.value.cells[ChildIndex(node.value.cells, key)].child, Some(node.value.level - 1), key)
  }

  /** The pages it visits. */
  function Visits(pages: map<PageId, Page>, id: PageId, expected: Option<nat>, key: Key): set<PageId>
    decreases expected.None?, if expected.Some? then expected.value else 0
  {
    var node := NodeAt(pages, id, expected);
    {id} + if node.Err? || node.value.LeafPage? then {} else Visits(pages, node.value.cells[ChildIndex(node.value.cells, key)].child, Some(node.value.level - 1), key)
  }

  function Lookup(pages: map<PageId, Page>, root: PageId, key: Key): Result<Option<LeafCell>> {
    if root == 0 then Ok(None) else PlainWalk(pages, root, None, key)
  }

  function LookupVisits(pages: map<PageId, Page>, root: PageId, key: Key): set<PageId> {
    if root == 0 then {} else Visits(pages, root, None, key)
  }

  // ---------- the ancestor cache ----------

  datatype Ancestor = Ancestor(id: PageId, page: Page)

  /** Cached pages are valid internal nodes, and those that live trees use are current. */
  ghost predicate Agrees(ancestors: seq<Ancestor>, pages: map<PageId, Page>, live: iset<PageId>) {
    forall i :: 0 <= i < |ancestors| ==>
      && ancestors[i].page.InternalPage? && HeaderOk(ancestors[i].page)
      && (ancestors[i].id in live ==> ancestors[i].id in pages && pages[ancestors[i].id] == ancestors[i].page)
  }

  /** A node at `depth` and the cached path afterwards. */
  function CachedNode(pages: map<PageId, Page>, ancestors: seq<Ancestor>, depth: nat, id: PageId, expected: Option<nat>): (Result<Page>, seq<Ancestor>) {
    if depth < |ancestors| && ancestors[depth].id == id then
      (if LevelOk(ancestors[depth].page, expected) then Ok(ancestors[depth].page) else Err(Corruption), ancestors)
    else
      var kept := if depth < |ancestors| then ancestors[..depth] else ancestors;
      var node := NodeAt(pages, id, expected);
      (node, if node.Ok? && node.value.InternalPage? then kept + [Ancestor(id, node.value)] else kept)
  }

  /** The lookup with the cache, which trusts what it cached. */
  function CachedWalk(pages: map<PageId, Page>, ancestors: seq<Ancestor>, depth: nat, id: PageId, expected: Option<nat>, key: Key): (Result<Option<LeafCell>>, seq<Ancestor>)
    decreases expected.None?, if expected.Some? then expected.value else 0
  {
    var (node, after) := CachedNode(pages, ancestors, depth, id, expected);
    if node.Err? then (Err(node.error), after)
    else
      match node.value
      case LeafPage(cells) => (Ok(LeafProbe(cells, key, 0, |cells|)), after)
      case InternalPage(level, cells) =>
        if level == 0 || cells == [] then (Err(Corruption), after)
        else CachedWalk(pages, after, depth + 1, cells[ChildIndex(cells, key)].child, Some(level - 1), key)
      case OverflowPage(_, _) => (Err(Corruption), after)
  }

  function CachedLookup(pages: map<PageId, Page>, ancestors: seq<Ancestor>, root: PageId, key: Key): (Result<Option<LeafCell>>, seq<Ancestor>) {
    if root == 0 then (Ok(None), ancestors) else CachedWalk(pages, ancestors, 0, root, None, key)
  }

  lemma {:induction false} CachedNodeAgrees(pages: map<PageId, Page>, ancestors: seq<Ancestor>, depth: nat, id: PageId, expected: Option<nat>, live: iset<PageId>)
    requires Agrees(ancestors, pages, live) && id in live
    ensures var (node, after) := CachedNode(pages, ancestors, depth, id, expected);
            node == NodeAt(pages, id, expected) && Agrees(after, pages, live)
  {
  }

  /** The cache changes no result of a lookup that visits live pages only, and stays in agreement. */
  lemma {:induction false} CachedWalkAgrees(pages: map<PageId, Page>, ancestors: seq<Ancestor>, depth: nat, id: PageId, expected: Option<nat>, key: Key, live: iset<PageId>)
    requires Agrees(ancestors, pages, live) && forall p :: p in Visits(pages, id, expected, key) ==> p in live
    ensures var (r, after) := CachedWalk(pages, ancestors, depth, id, expected, key);
            r == PlainWalk(pages, id, expected, key) && Agrees(after, pages, live)
    decreases expected.None?, if expected.Some? then expected.value else 0
  {
    hide Agrees, CachedNode, LeafProbe, ChildIndex;
    CachedNodeAgrees(pages, ancestors, depth, id, expected, live);
    var (node, after) := CachedNode(pages, ancestors, depth, id, expected);
    if node.Ok? && node.value.InternalPage? {
      CachedWalkAgrees(pages, after, depth + 1, node.value.cells[ChildIndex(node.value.cells, key)].child, Some(node.value.level - 1), key, live);
    }
  }

  lemma {:induction false} CachedLookupAgrees(pages: map<PageId, Page>, ancestors: seq<Ancestor>, root: PageId, key: Key, live: iset<PageId>)
    requires Agrees(ancestors, pages, live) && forall p :: p in LookupVisits(pages, root, key) ==> p in live
    ensures var (r, after) := CachedLookup(pages, ancestors, root, key);
            r == Lookup(pages, root, key) && Agrees(after, pages, live)
  {
    hide Agrees, PlainWalk, CachedWalk, Visits;
    if root != 0 {
      CachedWalkAgrees(pages, ancestors, 0, root, None, key, live);
    }
  }

  class PointReadBatch {
    var ancestors: seq<Ancestor>

    constructor ()
      ensures ancestors == []
    {
      ancestors := [];
    }

    /** A node at `depth`, from the cached path if it is there. */
    method WithNode(pages: map<PageId, Page>, depth: nat, id: PageId, expected: Option<nat>) returns (r: Result<Page>)
      modifies this
      ensures (r, ancestors) == CachedNode(pages, old(ancestors), depth, id, expected)
      ensures forall live :: Agrees(old(ancestors), pages, live) && id in live ==> r == NodeAt(pages, id, expected) && Agrees(ancestors, pages, live)
    {
      hide Agrees;
      forall live | Agrees(ancestors, pages, live) && id in live
        ensures var (node, after) := CachedNode(pages, ancestors, depth, id, expected);
                node == NodeAt(pages, id, expected) && Agrees(after, pages, live)
      {
        CachedNodeAgrees(pages, ancestors, depth, id, expected, live);
      }
      if depth < |ancestors| && ancestors[depth].id == id {
        var page := ancestors[depth].page;
        return if LevelOk(page, expected) then Ok(page) else Err(Corruption);
      }
      if depth < |ancestors| {
        ancestors := ancestors[..depth];
      }
      r := NodeAt(pages, id, expected);
      if r.Ok? && r.value.InternalPage? {
        ancestors := ancestors + [Ancestor(id, r.value)];
      }
    }
  }

  lemma {:induction false} NodeFacts(pages: map<PageId, Page>, t: Tree)
    requires Spelled(pages, t) && t.Node? && Shaped(t) && Sorted(Flat(t))
    ensures pages[t.id] == InternalPage(t.level, ParentCells(t.kids)) && t.kids != []
    ensures ShapedAll(t.kids, t.level - 1) && Sorted(FlatAll(t.kids)) && SeparatorsSorted(ParentCells(t.kids))
    ensures forall i :: 0 <= i < |t.kids| ==> Spelled(pages, t.kids[i]) && Height(t.kids[i]) == t.level - 1
    ensures forall i, x :: 0 <= i < |t.kids| && x in PagesOf(t.kids[i]) ==> x in PagesOf(t)
    ensures Flat(t) == FlatAll(t.kids) && t.level > 0
  {
    hide PagesOf;
    SeparatorsIncrease(t.kids, t.level - 1);
    forall i, x | 0 <= i < |t.kids| && x in PagesOf(t.kids[i]) ensures x in PagesOf(t) {
      KidPages(t, i);
      assert PagesOf(t)[x] >= PagesOf(t.kids[i])[x];
    }
  }

  lemma {:induction false} KidPages(t: Tree, i: nat)
    requires t.Node? && i < |t.kids|
    ensures PagesOf(t.kids[i]) <= PagesOf(t)
  {
    KidPagesContained(t.kids, i);
  }

  lemma {:induction false} RootFacts(pages: map<PageId, Page>, t: Tree)
    requires Spelled(pages, t) && (Shaped(t) || t.Leaf?)
    ensures t.id in pages && t.id in PagesOf(t)
    ensures NodeAt(pages, t.id, None) == Ok(pages[t.id]) && NodeAt(pages, t.id, Some(Height(t))) == Ok(pages[t.id])
    ensures t.Leaf? <==> pages[t.id].LeafPage?
    ensures t.Leaf? ==> pages[t.id] == LeafPage(CellsOf(t.entries)) && Flat(t) == t.entries
  {
  }

  lemma {:induction false} PlainStep(pages: map<PageId, Page>, id: PageId, expected: Option<nat>, key: Key)
    ensures var node := NodeAt(pages, id, expected);
            && (node.Err? ==> PlainWalk(pages, id, expected, key) == Err(node.error))
            && (node.Ok? ==> HeaderOk(node.value) && LevelOk(node.value, expected))
            && (node.Ok? && node.value.LeafPage? ==>
                  PlainWalk(pages, id, expected, key) == Ok(LeafProbe(node.value.leafCells, key, 0, |node.value.leafCells|)))
            && (node.Ok? && node.value.InternalPage? ==>
                  PlainWalk(pages, id, expected, key)
                  == PlainWalk(pages, node.value.cells[ChildIndex(node.value.cells, key)].child, Some(node.value.level - 1), key))
  {
    hide LeafProbe, ChildIndex;
  }

  lemma {:induction false} CachedStep(pages: map<PageId, Page>, ancestors: seq<Ancestor>, depth: nat, id: PageId, expected: Option<nat>, key: Key)
    ensures var (node, after) := CachedNode(pages, ancestors, depth, id, expected);
            && (node.Err? ==> CachedWalk(pages, ancestors, depth, id, expected, key) == (Err(node.error), after))
            && (node.Ok? ==> LevelOk(node.value, expected))
            && (node.Ok? && node.value.LeafPage? ==>
                  CachedWalk(pages, ancestors, depth, id, expected, key) == (Ok(LeafProbe(node.value.leafCells, key, 0, |node.value.leafCells|)), after))
            && (node.Ok? && !node.value.LeafPage? && !HeaderOk(node.value) ==>
                  CachedWalk(pages, ancestors, depth, id, expected, key) == (Err(Corruption), after))
            && (node.Ok? && node.value.InternalPage? && HeaderOk(node.value) ==>
                  CachedWalk(pages, ancestors, depth, id, expected, key)
                  == CachedWalk(pages, after, depth + 1, node.value.cells[ChildIndex(node.value.cells, key)].child, Some(node.value.level - 1), key))
  {
    hide LeafProbe, ChildIndex;
  }

  /**
   * Looks `key` up with or without the shared ancestor cache, on any pages, damaged trees
   * included. A cache in agreement changes no result that rests on live pages.
   */
  method LookupCell(pages: map<PageId, Page>, root: PageId, key: Key, batch: PointReadBatch, cached: bool)
    returns (r: Result<Option<LeafCell>>)
    modifies batch
    ensures !cached ==> r == Lookup(pages, root, key) && batch.ancestors == old(batch.ancestors)
    ensures cached ==> (r, batch.ancestors) == CachedLookup(pages, old(batch.ancestors), root, key)
    ensures forall live :: Agrees(old(batch.ancestors), pages, live) && (forall p :: p in LookupVisits(pages, root, key) ==> p in live) ==>
              r == Lookup(pages, root, key) && Agrees(batch.ancestors, pages, live)
  {
    hide LeafProbe, ChildIndex, Agrees, LookupVisits, PlainWalk, CachedWalk, CachedNode, NodeAt;
    forall live | Agrees(batch.ancestors, pages, live) && (forall p :: p in LookupVisits(pages, root, key) ==> p in live)
      ensures var (x, after) := CachedLookup(pages, batch.ancestors, root, key); x == Lookup(pages, root, key) && Agrees(after, pages, live)
    {
      CachedLookupAgrees(pages, batch.ancestors, root, key, live);
    }
    if root == 0 {
      return Ok(None);
    }
    var current: PageId, expected: Option<nat>, depth: nat := root, None, 0;
    while true
      invariant !cached ==> PlainWalk(pages, current, expected, key) == PlainWalk(pages, root, None, key) && batch.ancestors == old(batch.ancestors)
      invariant cached ==> CachedWalk(pages, batch.ancestors, depth, current, expected, key) == CachedWalk(pages, old(batch.ancestors), 0, root, None, key)
      decreases expected.None?, if expected.Some? then expected.value else 0
    {
      PlainStep(pages, current, expected, key);
      CachedStep(pages, batch.ancestors, depth, current, expected, key);
      var node := NodeAt(pages, current, expected);
      if cached {
        node := batch.WithNode(pages, depth, current, expected);
      }
      if node.Err? {
        return Err(node.error);
      }
      if node.value.LeafPage? {
        var found := LookupLeaf(node.value.leafCells, key);
        return Ok(found);
      }
      if node.value.OverflowPage? || node.value.level == 0 || node.value.cells == [] {
        return Err(Corruption);
      }
      var index, child := ChooseChild(node.value.cells, key);
      current, expected, depth := child, Some(node.value.level - 1), depth + 1;
    }
  }

  /** In a well-formed tree a lookup visits only pages of the tree, and finds the cell the tree binds to the key. */
  lemma {:induction false} LookupFinds(pages: map<PageId, Page>, root: PageId, tree: Option<Tree>, key: Key)
    requires WellFormed(pages, root, tree)
    ensures Lookup(pages, root, key) == Ok(Find(EntriesOf(tree), key))
    ensures forall p :: p in LookupVisits(pages, root, key) ==> p in PagesIn(tree)
  {
    hide Spelled, Shaped, Sorted, Flat, PagesOf, Find, PlainWalk, Visits;
    RootPositive(pages, root, tree);
    if root == 0 {
      NothingFound(key);
    } else {
      WalkFinds(pages, tree.value, None, key);
    }
  }

  lemma {:induction false} WalkFinds(pages: map<PageId, Page>, t: Tree, expected: Option<nat>, key: Key)
    requires Spelled(pages, t) && Sorted(Flat(t)) && (Shaped(t) || t.Leaf?)
    requires expected == None || expected == Some(Height(t))
    ensures PlainWalk(pages, t.id, expected, key) == Ok(Find(Flat(t), key))
    ensures forall p :: p in Visits(pages, t.id, expected, key) ==> p in PagesOf(t)
    decreases t
  {
    hide Spelled, Shaped, Sorted, Flat, FlatAll, PagesOf, Find, Less, CellsOf, ParentCells, FirstKey, NodeAt, LeafProbe, ChildIndex, ChildProbe, Chosen;
    RootFacts(pages, t);
    if t.Leaf? {
      LeafProbeFinds(t.entries, key, 0, |t.entries|);
    } else {
      NodeFacts(pages, t);
      var cells := ParentCells(t.kids);
      var index := ChildIndex(cells, key);
      IndexIsChosen(cells, key);
      ChosenHoldsKey(t.kids, t.level - 1, key, index);
      ChildId(t.kids, index);
      KidStaysShaped(t, index);
      WalkFinds(pages, t.kids[index], Some(t.level - 1), key);
    }
  }

  lemma {:induction false} NothingFound(key: Key)
    ensures Find([], key) == None
  {
  }

  lemma {:induction false} RootPositive(pages: map<PageId, Page>, root: PageId, tree: Option<Tree>)
    requires WellFormed(pages, root, tree)
    ensures root == 0 <==> tree.None?
    ensures tree.Some? ==> Shaped(tree.value) || tree.value.Leaf?
  {
    hide Spelled, PagesOf, Flat, Sorted;
  }

  lemma {:induction false} ChildId(kids: seq<Tree>, index: nat)
    requires index < |kids|
    ensures ParentCells(kids)[index].child == kids[index].id
  {
  }

  lemma {:induction false} KidStaysShaped(t: Tree, index: nat)
    requires t.Node? && index < |t.kids| && Shaped(t)
    ensures Shaped(t.kids[index]) && t.kids[index] < t
  {
  }
}
