/** Runs of cells between pages, the ghost parts behind them, and the page ledger. */
module Parts {
  import opened Keys
  import opened Pages
  import opened MergeSpec

  /** Cells not yet packed into pages. */
  datatype Run = LeafRun(cells: seq<LeafCell>) | InternalRun(level: nat, icells: seq<InternalCell>)

  datatype Child = Keep(cell: InternalCell) | Changed(run: Run)

  function RunLevel(r: Run): nat {
    if r.LeafRun? then 0 else r.level
  }

  predicate RunEmpty(r: Run) {
    match r case LeafRun(cells) => cells == [] case InternalRun(_, cells) => cells == []
  }

  function RunCost(r: Run): nat {
    match r case LeafRun(cells) => LeafCost(cells) case InternalRun(_, cells) => InternalCost(cells)
  }

  /** The subtree or run behind a `Child`. */
  datatype Part = Kept(tree: Tree) | LeafPart(entries: seq<Entry>) | InnerPart(level: nat, kids: seq<Tree>)

  function RunOf(p: Part): Run
    requires !p.Kept?
  {
    match p case LeafPart(es) => LeafRun(CellsOf(es)) case InnerPart(level, kids) => InternalRun(level, ParentCells(kids))
  }

  function ChildOf(p: Part): Child {
    if p.Kept? then Keep(ParentCell(p.tree)) else Changed(RunOf(p))
  }

  function ChildrenOf(ps: seq<Part>): (r: seq<Child>)
    ensures |r| == |ps|
  {
    seq(|ps|, i requires 0 <= i < |ps| => ChildOf(ps[i]))
  }

  function PartFlat(p: Part): seq<Entry> {
    match p case Kept(t) => Flat(t) case LeafPart(es) => es case InnerPart(_, kids) => FlatAll(kids)
  }

  function PartPages(p: Part): multiset<PageId> {
    match p case Kept(t) => PagesOf(t) case LeafPart(es) => ChainPages(es) case InnerPart(_, kids) => PagesOfAll(kids)
  }

  function PartsFlat(ps: seq<Part>): seq<Entry> {
    if ps == [] then [] else PartFlat(ps[0]) + PartsFlat(ps[1..])
  }

  function PartsPages(ps: seq<Part>): multiset<PageId> {
    if ps == [] then multiset{} else PartPages(ps[0]) + PartsPages(ps[1..])
  }

  ghost predicate PartShaped(p: Part, height: nat) {
    match p
    case Kept(t) => Shaped(t) && Height(t) == height
    case LeafPart(_) => height == 0
    case InnerPart(level, kids) => level == height && level > 0 && ShapedAll(kids, level - 1)
  }

  ghost predicate PartsShaped(ps: seq<Part>, height: nat) {
    forall i :: 0 <= i < |ps| ==> PartShaped(ps[i], height)
  }

  ghost predicate PartSpelled(pages: map<PageId, Page>, p: Part) {
    match p
    case Kept(t) => Spelled(pages, t)
    case LeafPart(es) => EntriesSpelled(pages, es)
    case InnerPart(_, kids) => SpelledAll(pages, kids)
  }

  lemma {:induction false} PartsFlatAppend(a: seq<Part>, b: seq<Part>)
    ensures PartsFlat(a + b) == PartsFlat(a) + PartsFlat(b)
    decreases |a|
  {
    if a == [] {
      assert a + b == b;
    } else {
      assert (a + b)[1..] == a[1..] + b;
      PartsFlatAppend(a[1..], b);
    }
  }

  lemma {:induction false} PartsPagesAppend(a: seq<Part>, b: seq<Part>)
    ensures PartsPages(a + b) == PartsPages(a) + PartsPages(b)
    decreases |a|
  {
    if a == [] {
      assert a + b == b;
    } else {
      assert (a + b)[1..] == a[1..] + b;
      PartsPagesAppend(a[1..], b);
    }
  }

  lemma {:induction false} PartPagesContained(ps: seq<Part>, i: nat)
    requires i < |ps|
    ensures PartPages(ps[i]) <= PartsPages(ps)
    decreases |ps|
  {
    if i > 0 {
      PartPagesContained(ps[1..], i - 1);
    }
  }

  lemma {:induction false} PartFrame(before: map<PageId, Page>, after: map<PageId, Page>, p: Part)
    requires PartSpelled(before, p)
    requires AgreeOn(before, after, PartPages(p))
    ensures PartSpelled(after, p)
  {
    match p
    case Kept(t) => TreeFrame(before, after, t);
    case LeafPart(es) => EntriesFrame(before, after, es);
    case InnerPart(_, kids) =>
      forall i | 0 <= i < |kids| ensures Spelled(after, kids[i]) {
        KidPagesContained(kids, i);
        TreeFrame(before, after, kids[i]);
      }
  }

  // ---------- the ledger ----------

  /** Pages retired so far and page images emitted so far. */
  datatype Books = Books(freed: multiset<PageId>, emitted: multiset<PageId>)

  /** What `before` referenced and the images emitted since equal what `after` references and the pages freed since. */
  ghost predicate Balanced(before: multiset<PageId>, b0: Books, after: multiset<PageId>, b1: Books) {
    after + b1.freed + b0.emitted == before + b0.freed + b1.emitted
  }

  lemma {:induction false} BalancedTransitive(p: multiset<PageId>, b0: Books, q: multiset<PageId>, b1: Books, r: multiset<PageId>, b2: Books)
    requires Balanced(p, b0, q, b1) && Balanced(q, b1, r, b2)
    ensures Balanced(p, b0, r, b2)
  {
    forall x: PageId ensures (r + b2.freed + b0.emitted)[x] == (p + b0.freed + b2.emitted)[x] {
      assert (q + b1.freed + b0.emitted)[x] == (p + b0.freed + b1.emitted)[x];
      assert (r + b2.freed + b1.emitted)[x] == (q + b1.freed + b2.emitted)[x];
    }
  }

  /** Pages no one touches can be added on both sides. */
  lemma {:induction false} BalancedFrame(x: multiset<PageId>, p: multiset<PageId>, b0: Books, q: multiset<PageId>, b1: Books)
    requires Balanced(p, b0, q, b1)
    ensures Balanced(x + p, b0, x + q, b1)
    ensures Balanced(p + x, b0, q + x, b1)
  {
    forall y: PageId
      ensures (x + q + b1.freed + b0.emitted)[y] == (x + p + b0.freed + b1.emitted)[y]
      ensures (q + x + b1.freed + b0.emitted)[y] == (p + x + b0.freed + b1.emitted)[y]
    {
      assert (q + b1.freed + b0.emitted)[y] == (p + b0.freed + b1.emitted)[y];
    }
    assert x + q + b1.freed + b0.emitted == x + p + b0.freed + b1.emitted;
  }

  lemma {:induction false} BalancedFree(id: PageId, p: multiset<PageId>, b0: Books)
    ensures Balanced(multiset{id} + p, b0, p, Books(b0.freed + multiset{id}, b0.emitted))
  {
  }

  lemma {:induction false} BalancedEmit(ids: multiset<PageId>, p: multiset<PageId>, b0: Books)
    ensures Balanced(p, b0, p + ids, Books(b0.freed, b0.emitted + ids))
  {
  }
}
