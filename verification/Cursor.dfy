/** A cursor over the leaves of a tree, moving in either direction. */
module Cursor {
  import opened Keys
  import opened Pages
  import opened MergeSpec
  import opened Allocator
  import opened Split
  import opened NodeReading
  import opened TreeLookup

  datatype Frame = Frame(pageId: PageId, level: nat, childIndex: nat, childCount: nat)

  datatype Descent = Leftmost | Rightmost | AtKey(key: Key)

  // ---------- leaves in key order ----------

  ghost function LeavesOf(t: Tree): (r: seq<Tree>)
    ensures forall i :: 0 <= i < |r| ==> r[i].Leaf?
    decreases t, 1
  {
    match t
    case Leaf(_, _) => [t]
    case Node(_, _, kids) => LeavesOfAll(kids)
  }

  ghost function LeavesOfAll(ts: seq<Tree>): (r: seq<Tree>)
    ensures forall i :: 0 <= i < |r| ==> r[i].Leaf?
    decreases ts, 0
  {
    if ts == [] then [] else LeavesOf(ts[0]) + LeavesOfAll(ts[1..])
  }

  lemma {:induction false} LeavesAppend(a: seq<Tree>, b: seq<Tree>)
    ensures LeavesOfAll(a + b) == LeavesOfAll(a) + LeavesOfAll(b)
    decreases |a|
  {
    hide LeavesOf;
    if a == [] {
      assert a + b == b;
    } else {
      assert (a + b)[1..] == a[1..] + b;
      LeavesAppend(a[1..], b);
    }
  }

  lemma {:induction false} LeavesSplit(kids: seq<Tree>, i: nat)
    requires i < |kids|
    ensures LeavesOfAll(kids) == LeavesOfAll(kids[..i]) + LeavesOf(kids[i]) + LeavesOfAll(kids[i + 1..])
  {
    hide LeavesOf;
    assert kids == kids[..i] + ([kids[i]] + kids[i + 1..]);
    LeavesAppend(kids[..i], [kids[i]] + kids[i + 1..]);
    assert ([kids[i]] + kids[i + 1..])[1..] == kids[i + 1..];
    hide LeavesOfAll;
    Assoc(LeavesOfAll(kids[..i]), LeavesOf(kids[i]), LeavesOfAll(kids[i + 1..]));
  }

  lemma {:induction false} Assoc(a: seq<Tree>, b: seq<Tree>, c: seq<Tree>)
    ensures a + (b + c) == a + b + c
  {
  }

  /** The leaves hold the entries of the tree, in order. */
  lemma {:induction false} LeavesHoldEntries(t: Tree)
    ensures FlatAll(LeavesOf(t)) == Flat(t)
    decreases t, 1
  {
    match t
    case Leaf(_, es) =>
      assert FlatAll([t]) == es + FlatAll([]);
    case Node(_, _, kids) =>
      LeavesHoldAllEntries(kids);
  }

  lemma {:induction false} LeavesHoldAllEntries(ts: seq<Tree>)
    ensures FlatAll(LeavesOfAll(ts)) == FlatAll(ts)
    decreases ts, 0
  {
    if ts != [] {
      LeavesHoldEntries(ts[0]);
      LeavesHoldAllEntries(ts[1..]);
      hide Flat, LeavesOf;
      FlatAllAppend(LeavesOf(ts[0]), LeavesOfAll(ts[1..]));
    }
  }

  lemma {:induction false} LeavesNonempty(t: Tree)
    requires Shaped(t) || t.Leaf?
    ensures |LeavesOf(t)| > 0
  {
    if t.Node? {
      LeavesNonempty(t.kids[0]);
    }
  }

  // ---------- paths ----------

  ghost predicate FrameOf(f: Frame, t: Tree) {
    t.Node? && f.pageId == t.id && f.level == t.level && f.childCount == |t.kids| && f.childIndex < |t.kids|
  }

  ghost predicate Matches(t: Tree, fs: seq<Frame>)
    decreases |fs|
  {
    fs != [] ==> FrameOf(fs[0], t) && Matches(t.kids[fs[0].childIndex], fs[1..])
  }

  /** The subtree a path leads to. */
  ghost function Sub(t: Tree, fs: seq<Frame>): Tree
    requires Matches(t, fs)
    decreases |fs|
  {
    if fs == [] then t else Sub(t.kids[fs[0].childIndex], fs[1..])
  }

  /** How many leaves lie before that subtree. */
  ghost function Offset(t: Tree, fs: seq<Frame>): nat
    requires Matches(t, fs)
    decreases |fs|
  {
    if fs == [] then 0
    else |LeavesOfAll(t.kids[..fs[0].childIndex])| + Offset(t.kids[fs[0].childIndex], fs[1..])
  }

  lemma {:induction false} PathSnoc(t: Tree, fs: seq<Frame>, f: Frame)
    ensures Matches(t, fs + [f]) <==> Matches(t, fs) && FrameOf(f, Sub(t, fs))
    ensures Matches(t, fs + [f]) ==>
              && Sub(t, fs + [f]) == Sub(t, fs).kids[f.childIndex]
              && Offset(t, fs + [f]) == Offset(t, fs) + |LeavesOfAll(Sub(t, fs).kids[..f.childIndex])|
    decreases |fs|
  {
    hide LeavesOfAll;
    if fs == [] {
      assert fs + [f] == [f] && [f][1..] == [];
    } else {
      assert (fs + [f])[0] == fs[0] && (fs + [f])[1..] == fs[1..] + [f];
      if FrameOf(fs[0], t) {
        PathSnoc(t.kids[fs[0].childIndex], fs[1..], f);
      }
    }
  }

  ghost predicate Readable(pages: map<PageId, Page>, t: Tree) {
    Spelled(pages, t) && (Shaped(t) || t.Leaf?) && Sorted(Flat(t))
  }

  lemma {:induction false} KidReadable(pages: map<PageId, Page>, t: Tree, i: nat)
    requires Readable(pages, t) && t.Node? && i < |t.kids|
    ensures Readable(pages, t.kids[i]) && Shaped(t.kids[i]) && Height(t.kids[i]) == t.level - 1
  {
    hide Sorted, Flat, FlatAll;
    NodeFlat(t);
    SortedKid(t.kids, i);
  }

  lemma {:induction false} NodeFlat(t: Tree)
    requires t.Node?
    ensures Flat(t) == FlatAll(t.kids) && LeavesOf(t) == LeavesOfAll(t.kids)
  {
  }

  /** The subtree at the end of a path is readable and its leaves sit at its offset. */
  lemma {:induction false} SubFacts(pages: map<PageId, Page>, t: Tree, fs: seq<Frame>)
    requires Readable(pages, t) && Matches(t, fs)
    ensures Readable(pages, Sub(t, fs))
    ensures Offset(t, fs) + |LeavesOf(Sub(t, fs))| <= |LeavesOf(t)|
    ensures LeavesOf(t)[Offset(t, fs)..Offset(t, fs) + |LeavesOf(Sub(t, fs))|] == LeavesOf(Sub(t, fs))
    decreases |fs|
  {
    hide Readable, LeavesOf, LeavesOfAll;
    if fs != [] {
      var i := fs[0].childIndex;
      var kid := t.kids[i];
      KidReadable(pages, t, i);
      SubFacts(pages, kid, fs[1..]);
      NodeFlat(t);
      LeavesSplit(t.kids, i);
      Nested(LeavesOfAll(t.kids[..i]), LeavesOf(kid), LeavesOfAll(t.kids[i + 1..]), Offset(kid, fs[1..]), |LeavesOf(Sub(kid, fs[1..]))|);
    }
  }

  lemma {:induction false} Nested(a: seq<Tree>, b: seq<Tree>, c: seq<Tree>, at: nat, n: nat)
    requires at + n <= |b|
    ensures (a + b + c)[|a| + at..|a| + at + n] == b[at..at + n]
  {
  }

  /** Everything strictly left of the leaves from `k` is below `key`, everything from leaf `m` above it. */
  ghost predicate Around(t: Tree, k: nat, m: nat, key: Key) {
    && k <= m <= |LeavesOf(t)|
    && EntriesBefore(FlatAll(LeavesOf(t)[..k]), key)
    && EntriesAfter(FlatAll(LeavesOf(t)[m..]), key)
  }

  /** Where a descent into the subtree at `fs` arrives. */
  ghost predicate Arrives(t: Tree, fs: seq<Frame>, descent: Descent, k: nat)
    requires Matches(t, fs)
  {
    match descent
    case Leftmost => k == Offset(t, fs)
    case Rightmost => k + 1 == Offset(t, fs) + |LeavesOf(Sub(t, fs))|
    case AtKey(key) => k < |LeavesOf(t)| && Around(t, k, k + 1, key)
  }

  /** Still on the way there. */
  ghost predicate OnTheWay(t: Tree, fs0: seq<Frame>, fs: seq<Frame>, descent: Descent)
    requires Matches(t, fs0) && Matches(t, fs)
  {
    match descent
    case Leftmost => Offset(t, fs) == Offset(t, fs0)
    case Rightmost => Offset(t, fs) + |LeavesOf(Sub(t, fs))| == Offset(t, fs0) + |LeavesOf(Sub(t, fs0))|
    case AtKey(key) => Around(t, Offset(t, fs), Offset(t, fs) + |LeavesOf(Sub(t, fs))|, key)
  }

  lemma {:induction false} AroundAll(t: Tree, key: Key)
    ensures Around(t, 0, |LeavesOf(t)|, key)
  {
    hide LeavesOf;
    assert LeavesOf(t)[..0] == [] && LeavesOf(t)[|LeavesOf(t)|..] == [];
    assert FlatAll([]) == [];
  }

  lemma {:induction false} BeforeJoin(a: seq<Entry>, b: seq<Entry>, key: Key)
    requires EntriesBefore(a, key) && EntriesBefore(b, key)
    ensures EntriesBefore(a + b, key)
  {
  }

  lemma {:induction false} AfterJoin(a: seq<Entry>, b: seq<Entry>, key: Key)
    requires EntriesAfter(a, key) && EntriesAfter(b, key)
    ensures EntriesAfter(a + b, key)
  {
  }

  /** Choosing a child narrows the leaves around the key. */
  lemma {:induction false} AroundChosen(pages: map<PageId, Page>, t: Tree, fs: seq<Frame>, key: Key, i: nat)
    requires Readable(pages, t) && Matches(t, fs) && Sub(t, fs).Node? && Chosen(ParentCells(Sub(t, fs).kids), key, i)
    requires Around(t, Offset(t, fs), Offset(t, fs) + |LeavesOf(Sub(t, fs))|, key)
    ensures i < |Sub(t, fs).kids|
    ensures var kids := Sub(t, fs).kids;
            var k := Offset(t, fs) + |LeavesOfAll(kids[..i])|;
            Around(t, k, k + |LeavesOf(kids[i])|, key)
  {
    hide Readable, LeavesOf, LeavesOfAll, FlatAll, Flat, ParentCells, Less, Chosen, Spelled;
    var sub := Sub(t, fs);
    var kids := sub.kids;
    SubFacts(pages, t, fs);
    assert Shaped(sub) && Sorted(FlatAll(kids)) && ShapedAll(kids, sub.level - 1) by { ReadableNode(pages, sub); }
    ChosenBound(kids, key, i);
    NodeFlat(sub);
    LeavesSplit(kids, i);
    var all, off := LeavesOf(t), Offset(t, fs);
    var a, b, c := LeavesOfAll(kids[..i]), LeavesOf(kids[i]), LeavesOfAll(kids[i + 1..]);
    var k := off + |a|;
    var m, end := k + |b|, off + |LeavesOf(sub)|;
    Carved(all, off, a, b, c);
    FlatAllAppend(all[..off], a);
    FlatAllAppend(c, all[end..]);
    LeavesHoldAllEntries(kids[..i]);
    LeavesHoldAllEntries(kids[i + 1..]);
    BeforeChosen(kids, sub.level - 1, key, i);
    AfterChosen(kids, sub.level - 1, key, i);
    BeforeJoin(FlatAll(all[..off]), FlatAll(a), key);
    AfterJoin(FlatAll(c), FlatAll(all[end..]), key);
  }

  lemma {:induction false} ReadableNode(pages: map<PageId, Page>, t: Tree)
    requires Readable(pages, t) && t.Node?
    ensures Shaped(t) && Sorted(FlatAll(t.kids)) && ShapedAll(t.kids, t.level - 1) && t.level > 0
    ensures t.id in pages && pages[t.id] == InternalPage(t.level, ParentCells(t.kids)) && t.kids != []
    ensures SeparatorsSorted(ParentCells(t.kids))
  {
    hide PagesOf;
    NodeFacts(pages, t);
  }

  lemma {:induction false} ChosenBound(kids: seq<Tree>, key: Key, i: nat)
    requires Chosen(ParentCells(kids), key, i)
    ensures i < |kids|
  {
  }

  lemma {:induction false} Carved(all: seq<Tree>, off: nat, a: seq<Tree>, b: seq<Tree>, c: seq<Tree>)
    requires off + |a + b + c| <= |all| && all[off..off + |a + b + c|] == a + b + c
    ensures all[..off + |a|] == all[..off] + a
    ensures all[off + |a| + |b|..] == c + all[off + |a + b + c|..]
  {
    var mid := a + b + c;
    assert all[..off + |a|] == all[..off] + mid[..|a|];
    assert all[off + |a| + |b|..] == mid[|a| + |b|..] + all[off + |mid|..];
  }

  lemma {:induction false} WayStep(pages: map<PageId, Page>, t: Tree, fs0: seq<Frame>, fs: seq<Frame>, descent: Descent, f: Frame)
    requires Readable(pages, t) && Matches(t, fs0) && Matches(t, fs) && OnTheWay(t, fs0, fs, descent) && FrameOf(f, Sub(t, fs))
    requires match descent
             case Leftmost => f.childIndex == 0
             case Rightmost => f.childIndex == f.childCount - 1
             case AtKey(key) => Chosen(ParentCells(Sub(t, fs).kids), key, f.childIndex)
    ensures Matches(t, fs + [f]) && OnTheWay(t, fs0, fs + [f], descent)
  {
    hide Readable, LeavesOf, LeavesOfAll, Around, Chosen, ParentCells;
    PathSnoc(t, fs, f);
    var kids := Sub(t, fs).kids;
    match descent
    case Leftmost =>
      assert kids[..0] == [];
      NoLeaves();
    case Rightmost =>
      LeavesSplit(kids, f.childIndex);
      assert kids[f.childIndex + 1..] == [];
      NoLeaves();
      NodeFlat(Sub(t, fs));
    case AtKey(key) =>
      AroundChosen(pages, t, fs, key, f.childIndex);
  }

  lemma {:induction false} NoLeaves()
    ensures LeavesOfAll([]) == []
  {
  }

  lemma {:induction false} Arrived(pages: map<PageId, Page>, t: Tree, fs0: seq<Frame>, fs: seq<Frame>, descent: Descent)
    requires Readable(pages, t) && Matches(t, fs0) && Matches(t, fs) && OnTheWay(t, fs0, fs, descent) && Sub(t, fs).Leaf?
    ensures Arrives(t, fs0, descent, Offset(t, fs))
  {
    hide Readable, Around, LeavesOf;
    SubFacts(pages, t, fs);
    assert LeavesOf(Sub(t, fs)) == [Sub(t, fs)] by { OneLeaf(Sub(t, fs)); }
  }

  lemma {:induction false} OneLeaf(t: Tree)
    requires t.Leaf?
    ensures LeavesOf(t) == [t]
  {
  }

  // ---------- the cursor ----------

  class LeafCursor {
    const pages: map<PageId, Page>
    ghost const tree: Tree
    var current: PageId
    var stack: seq<Frame>

    /** The cursor stands on leaf number `At()`. */
    ghost predicate Valid()
      reads this
    {
      Readable(pages, tree) && Matches(tree, stack) && Sub(tree, stack).Leaf? && Sub(tree, stack).id == current
    }

    ghost function At(): (k: nat)
      requires Valid()
      reads this
    {
      Offset(tree, stack)
    }

    lemma {:induction false} Here()
      requires Valid()
      ensures At() < |LeavesOf(tree)| && LeavesOf(tree)[At()] == Sub(tree, stack) && LeavesOf(tree)[At()].id == current
      ensures current in pages && pages[current] == LeafPage(CellsOf(LeavesOf(tree)[At()].entries))
    {
      hide Readable, LeavesOf;
      SubFacts(pages, tree, stack);
      var leaf := Sub(tree, stack);
      OneLeaf(leaf);
      var off := Offset(tree, stack);
      assert LeavesOf(tree)[off..off + 1][0] == leaf;
      LeafPageIs(pages, leaf);
    }

    constructor Open(pages: map<PageId, Page>, root: PageId, descent: Descent, ghost t: Tree)
      requires Readable(pages, t) && t.id == root
      ensures Valid() && this.pages == pages && this.tree == t
      ensures Arrives(t, [], descent, At())
    {
      this.pages, this.tree := pages, t;
      this.current, this.stack := root, [];
      new;
      if descent.AtKey? {
        AroundAll(t, descent.key);
      }
      Descend(root, None, descent, t);
    }

    /** Goes down from a subtree to one of its leaves, recording the path. */
    method Descend(from: PageId, expected0: Option<nat>, descent: Descent, ghost sub: Tree)
      requires Readable(pages, tree) && Matches(tree, stack) && Sub(tree, stack) == sub && sub.id == from
      requires expected0.Some? ==> expected0.value == Height(sub)
      requires OnTheWay(tree, stack, stack, descent)
      modifies this`current, this`stack
      ensures Valid() && Arrives(tree, old(stack), descent, At())
    {
      hide Readable, OnTheWay, Arrives, Chosen, ParentCells, Around, LeavesOf;
      ghost var fs0 := stack;
      current := from;
      var expected := expected0;
      ghost var t := sub;
      while true
        invariant Readable(pages, tree) && Matches(tree, stack) && Sub(tree, stack) == t && t.id == current
        invariant expected.Some? ==> expected.value == Height(t)
        invariant OnTheWay(tree, fs0, stack, descent)
        decreases t
      {
        SubFacts(pages, tree, stack);
        ReadablePage(pages, t);
        var page := pages[current];
        if page.LeafPage? {
          Arrived(pages, tree, fs0, stack, descent);
          return;
        }
        ReadableNode(pages, t);
        ParentCount(t.kids);
        var index: nat, child;
        match descent {
          case Leftmost => index, child := 0, page.cells[0].child;
          case Rightmost => index, child := |page.cells| - 1, page.cells[|page.cells| - 1].child;
          case AtKey(key) =>
            index, child := ChooseChild(page.cells, key);
            ChosenBound(t.kids, key, index);
        }
        ChildId(t.kids, index);
        var f := Frame(current, page.level, index, |page.cells|);
        WayStep(pages, tree, fs0, stack, descent, f);
        PathSnoc(tree, stack, f);
        KidReadable(pages, t, index);
        stack := stack + [f];
        current, expected := child, Some(page.level - 1);
        t := t.kids[index];
      }
    }

    /** Moves to the next leaf, or reports that this is the last one. */
    method Advance() returns (moved: bool)
      requires Valid()
      modifies this`current, this`stack
      ensures moved <==> old(At()) + 1 < |LeavesOf(tree)|
      ensures moved ==> Valid() && At() == old(At()) + 1
    {
      hide Readable, LeavesOf, LeavesOfAll;
      ghost var k := At();
      Here();
      OneLeaf(Sub(tree, stack));
      while stack != []
        invariant Readable(pages, tree) && Matches(tree, stack)
        invariant Offset(tree, stack) + |LeavesOf(Sub(tree, stack))| == k + 1
        decreases |stack|
      {
        var frame := stack[|stack| - 1];
        ghost var fs := stack[..|stack| - 1];
        assert stack == fs + [frame];
        PathSnoc(tree, fs, frame);
        stack := stack[..|stack| - 1];
        ghost var t := Sub(tree, fs);
        SubFacts(pages, tree, fs);
        NodeFlat(t);
        LeavesSplit(t.kids, frame.childIndex);
        if frame.childIndex + 1 >= frame.childCount {
          assert t.kids[frame.childIndex + 1..] == [];
          NoLeaves();
          continue;
        }
        ReadableNode(pages, t);
        ParentCount(t.kids);
        var next := Frame(frame.pageId, frame.level, frame.childIndex + 1, frame.childCount);
        var child := pages[next.pageId].cells[next.childIndex].child;
        ChildId(t.kids, next.childIndex);
        PathSnoc(tree, stack, next);
        LeavesUpTo(t.kids, frame.childIndex);
        KidReadable(pages, t, next.childIndex);
        stack := stack + [next];
        SubFacts(pages, tree, stack);
        LeavesNonempty(t.kids[next.childIndex]);
        Descend(child, Some(next.level - 1), Leftmost, t.kids[next.childIndex]);
        return true;
      }
      return false;
    }

    /** Moves to the previous leaf, or reports that this is the first one. */
    method Retreat() returns (moved: bool)
      requires Valid()
      modifies this`current, this`stack
      ensures moved <==> old(At()) > 0
      ensures moved ==> Valid() && At() == old(At()) - 1
    {
      hide Readable, LeavesOf, LeavesOfAll;
      ghost var k := At();
      while stack != []
        invariant Readable(pages, tree) && Matches(tree, stack)
        invariant Offset(tree, stack) == k
        decreases |stack|
      {
        var frame := stack[|stack| - 1];
        ghost var fs := stack[..|stack| - 1];
        assert stack == fs + [frame];
        PathSnoc(tree, fs, frame);
        stack := stack[..|stack| - 1];
        ghost var t := Sub(tree, fs);
        if frame.childIndex == 0 {
          assert t.kids[..0] == [];
          NoLeaves();
          continue;
        }
        SubFacts(pages, tree, fs);
        NodeFlat(t);
        ReadableNode(pages, t);
        ParentCount(t.kids);
        var previous := Frame(frame.pageId, frame.level, frame.childIndex - 1, frame.childCount);
        var child := pages[previous.pageId].cells[previous.childIndex].child;
        ChildId(t.kids, previous.childIndex);
        PathSnoc(tree, stack, previous);
        LeavesUpTo(t.kids, previous.childIndex);
        KidReadable(pages, t, previous.childIndex);
        LeavesNonempty(t.kids[previous.childIndex]);
        stack := stack + [previous];
        Descend(child, Some(previous.level - 1), Rightmost, t.kids[previous.childIndex]);
        return true;
      }
      return false;
    }
  }

  lemma {:induction false} LeafPageIs(pages: map<PageId, Page>, t: Tree)
    requires Readable(pages, t) && t.Leaf?
    ensures t.id in pages && pages[t.id] == LeafPage(CellsOf(t.entries))
  {
  }

  lemma {:induction false} ReadablePage(pages: map<PageId, Page>, t: Tree)
    requires Readable(pages, t)
    ensures t.id in pages && (pages[t.id].LeafPage? <==> t.Leaf?) && (pages[t.id].InternalPage? <==> t.Node?)
    ensures Shaped(t) || t.Leaf?
  {
    hide Shaped, Sorted, Flat;
  }

  lemma {:induction false} ParentCount(kids: seq<Tree>)
    ensures |ParentCells(kids)| == |kids|
  {
  }

  lemma {:induction false} LeavesUpTo(kids: seq<Tree>, i: nat)
    requires i < |kids|
    ensures |LeavesOfAll(kids[..i + 1])| == |LeavesOfAll(kids[..i])| + |LeavesOf(kids[i])|
  {
    hide LeavesOf;
    assert kids[..i + 1] == kids[..i] + [kids[i]];
    LeavesAppend(kids[..i], [kids[i]]);
    assert LeavesOfAll([kids[i]]) == LeavesOf(kids[i]) + LeavesOfAll([]);
  }
}
