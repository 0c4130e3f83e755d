/** Range scans over a tree, forward and in reverse. */
module TreeScan {
  import opened Keys
  import opened Pages
  import opened MergeSpec
  import opened NodeReading
  import opened TreeApply
  import opened TreeLookup
  import opened Cursor

  datatype Limit = Limit(key: Key, inclusive: bool)

  type Bound = Option<Limit>

  predicate AboveLower(key: Key, lower: Bound) {
    lower.None? || Less(lower.value.key, key) || (lower.value.inclusive && key == lower.value.key)
  }

  predicate BelowUpper(key: Key, upper: Bound) {
    upper.None? || Less(key, upper.value.key) || (upper.value.inclusive && key == upper.value.key)
  }

  predicate InRange(key: Key, lower: Bound, upper: Bound) {
    AboveLower(key, lower) && BelowUpper(key, upper)
  }

  /** The cells of a range, in key order. */
  ghost function Selected(es: seq<Entry>, lower: Bound, upper: Bound): seq<LeafCell> {
    if es == [] then []
    else (if InRange(es[0].cell.key, lower, upper) then [es[0].cell] else []) + Selected(es[1..], lower, upper)
  }

  function Reversed(cells: seq<LeafCell>): (r: seq<LeafCell>)
    ensures |r| == |cells|
    ensures forall i :: 0 <= i < |cells| ==> r[i] == cells[|cells| - 1 - i]
  {
    seq(|cells|, i requires 0 <= i < |cells| => cells[|cells| - 1 - i])
  }

  function Ordered(cells: seq<LeafCell>, reverse: bool): seq<LeafCell> {
    if reverse then Reversed(cells) else cells
  }

  lemma {:induction false} SelectedAppend(a: seq<Entry>, b: seq<Entry>, lower: Bound, upper: Bound)
    ensures Selected(a + b, lower, upper) == Selected(a, lower, upper) + Selected(b, lower, upper)
    decreases |a|
  {
    hide InRange;
    if a == [] {
      assert a + b == b;
    } else {
      assert (a + b)[1..] == a[1..] + b;
      SelectedAppend(a[1..], b, lower, upper);
    }
  }

  lemma {:induction false} SelectedNone(es: seq<Entry>, lower: Bound, upper: Bound)
    requires forall i :: 0 <= i < |es| ==> !InRange(es[i].cell.key, lower, upper)
    ensures Selected(es, lower, upper) == []
    decreases |es|
  {
    hide InRange;
    if es != [] {
      assert forall i :: 0 <= i < |es[1..]| ==> es[1..][i] == es[i + 1];
      SelectedNone(es[1..], lower, upper);
    }
  }

  lemma {:induction false} SelectedAllOf(es: seq<Entry>, lower: Bound, upper: Bound)
    requires forall i :: 0 <= i < |es| ==> InRange(es[i].cell.key, lower, upper)
    ensures Selected(es, lower, upper) == CellsOf(es)
    decreases |es|
  {
    hide InRange;
    if es != [] {
      assert forall i :: 0 <= i < |es[1..]| ==> es[1..][i] == es[i + 1];
      SelectedAllOf(es[1..], lower, upper);
      assert CellsOf(es) == [es[0].cell] + CellsOf(es[1..]);
    }
  }

  // ---------- the window of one leaf ----------

  /** `n` counts the leading keys before the limit, those equal to it included if `equal`. */
  ghost predicate Partition(cells: seq<LeafCell>, key: Key, equal: bool, n: nat) {
    && n <= |cells|
    && (forall i :: 0 <= i < n ==> Less(cells[i].key, key) || (equal && cells[i].key == key))
    && (forall i :: n <= i < |cells| ==> !(Less(cells[i].key, key) || (equal && cells[i].key == key)))
  }

  method LeafPartition(cells: seq<LeafCell>, key: Key, equal: bool) returns (n: nat)
    requires KeysIncrease(cells)
    ensures Partition(cells, key, equal, n)
  {
    hide Less;
    KeyOrder();
    var lo: nat, hi: nat := 0, |cells|;
    while lo < hi
      invariant lo <= hi <= |cells|
      invariant forall i :: 0 <= i < lo ==> Less(cells[i].key, key) || (equal && cells[i].key == key)
      invariant forall i :: hi <= i < |cells| ==> !(Less(cells[i].key, key) || (equal && cells[i].key == key))
    {
      var mid := lo + (hi - lo) / 2;
      if Less(cells[mid].key, key) || (equal && cells[mid].key == key) {
        lo := mid + 1;
      } else {
        hi := mid;
      }
    }
    n := lo;
  }

  datatype Window = Window(start: nat, end: nat)

  function Max(a: nat, b: nat): nat {
    if a >= b then a else b
  }

  /** `start` and `end` delimit the cells of the range within a leaf. */
  ghost predicate Delimits(cells: seq<LeafCell>, lower: Bound, upper: Bound, start: nat, end: nat) {
    && start <= |cells| && end <= |cells|
    && (forall i :: 0 <= i < |cells| ==> (i >= start <==> AboveLower(cells[i].key, lower)))
    && (forall i :: 0 <= i < |cells| ==> (i < end <==> BelowUpper(cells[i].key, upper)))
  }

  lemma {:induction false} PieceOutside(es: seq<Entry>, lower: Bound, upper: Bound, start: nat, end: nat, a: nat, b: nat)
    requires Delimits(CellsOf(es), lower, upper, start, end) && a <= b <= |es| && (b <= start || Max(start, end) <= a)
    ensures Selected(es[a..b], lower, upper) == []
  {
    hide AboveLower, BelowUpper, Selected;
    forall i | 0 <= i < b - a ensures !InRange(es[a..b][i].cell.key, lower, upper) {
      assert es[a..b][i].cell == CellsOf(es)[a + i];
    }
    SelectedNone(es[a..b], lower, upper);
  }

  lemma {:induction false} PieceInside(es: seq<Entry>, lower: Bound, upper: Bound, start: nat, end: nat)
    requires Delimits(CellsOf(es), lower, upper, start, end) && start <= end
    ensures Selected(es[start..end], lower, upper) == CellsOf(es)[start..end]
  {
    hide AboveLower, BelowUpper, Selected;
    forall i | 0 <= i < end - start ensures InRange(es[start..end][i].cell.key, lower, upper) {
      assert es[start..end][i].cell == CellsOf(es)[start + i];
    }
    SelectedAllOf(es[start..end], lower, upper);
    assert CellsOf(es[start..end]) == CellsOf(es)[start..end];
  }

  lemma {:induction false} DelimitedIsSelected(es: seq<Entry>, lower: Bound, upper: Bound, start: nat, end: nat)
    requires Delimits(CellsOf(es), lower, upper, start, end)
    ensures Selected(es, lower, upper) == CellsOf(es)[start..Max(start, end)]
  {
    hide Delimits, Selected;
    DelimitsBounds(CellsOf(es), lower, upper, start, end);
    CellCount(es);
    var e := Max(start, end);
    PieceOutside(es, lower, upper, start, end, 0, start);
    PieceOutside(es, lower, upper, start, end, e, |es|);
    if start <= end {
      PieceInside(es, lower, upper, start, end);
    } else {
      assert es[start..e] == [] && CellsOf(es)[start..e] == [];
      NothingSelected(lower, upper);
    }
    assert es == es[0..start] + es[start..e] + es[e..|es|];
    SelectedAppend(es[0..start] + es[start..e], es[e..|es|], lower, upper);
    SelectedAppend(es[0..start], es[start..e], lower, upper);
  }

  lemma {:induction false} NothingSelected(lower: Bound, upper: Bound)
    ensures Selected([], lower, upper) == []
  {
  }

  method FindWindow(cells: seq<LeafCell>, lower: Bound, upper: Bound) returns (start: nat, end: nat)
    requires KeysIncrease(cells)
    ensures Delimits(cells, lower, upper, start, end)
  {
    hide Less;
    KeyOrder();
    start, end := 0, |cells|;
    if lower.Some? {
      start := LeafPartition(cells, lower.value.key, !lower.value.inclusive);
    }
    if upper.Some? {
      end := LeafPartition(cells, upper.value.key, upper.value.inclusive);
    }
  }

  method CopyCells(cells: seq<LeafCell>, start: nat, end: nat, copyStart: nat, copyEnd: nat) returns (pairs: seq<LeafCell>)
    requires start <= copyStart <= copyEnd <= end <= |cells|
    ensures pairs == cells[copyStart..copyEnd]
  {
    pairs := [];
    var index := start;
    while index < end
      invariant start <= index <= end
      invariant index <= copyStart ==> pairs == []
      invariant copyStart <= index <= copyEnd ==> pairs == cells[copyStart..index]
      invariant copyEnd <= index ==> pairs == cells[copyStart..copyEnd]
    {
      if copyStart <= index < copyEnd {
        assert cells[copyStart..index + 1] == cells[copyStart..index] + [cells[index]];
        pairs := pairs + [cells[index]];
      }
      index := index + 1;
    }
  }

  /**
   * Visits every cell of the window and copies up to `limit` of them in scan order; the rest
   * stays behind as a window. `hitBound` reports a cell beyond the far bound.
   */
  method CollectLeafWindow(cells: seq<LeafCell>, lower: Bound, upper: Bound, reverse: bool, limit: Option<nat>)
    returns (ready: seq<LeafCell>, window: Window, hitBound: bool, ghost start: nat, ghost end: nat)
    requires KeysIncrease(cells)
    ensures Delimits(cells, lower, upper, start, end)
    ensures window.start <= window.end <= |cells|
    ensures ready + Ordered(cells[window.start..window.end], reverse) == Ordered(cells[start..Max(start, end)], reverse)
    ensures |ready| == if limit.Some? && limit.value < Max(start, end) - start then limit.value else Max(start, end) - start
    ensures hitBound == if reverse then start > 0 else end < |cells|
  {
    hide Less, Delimits, KeysIncrease;
    var s, e0 := FindWindow(cells, lower, upper);
    start, end := s, e0;
    assert s <= |cells| && e0 <= |cells| by { DelimitsBounds(cells, lower, upper, s, e0); }
    var e := Max(s, e0);
    var buffered := if limit.Some? && limit.value < e - s then limit.value else e - s;
    var copyStart, copyEnd := if reverse then e - buffered else s, if reverse then e else s + buffered;
    var pairs := CopyCells(cells, s, e, copyStart, copyEnd);
    if reverse {
      ready, window, hitBound := Reversed(pairs), Window(s, copyStart), s > 0;
      assert cells[s..e] == cells[s..copyStart] + cells[copyStart..e];
      ReversedAppend(cells[s..copyStart], cells[copyStart..e]);
    } else {
      ready, window, hitBound := pairs, Window(copyEnd, e), e0 < |cells|;
      assert cells[s..e] == cells[s..copyEnd] + cells[copyEnd..e];
    }
  }

  lemma {:induction false} DelimitsBounds(cells: seq<LeafCell>, lower: Bound, upper: Bound, start: nat, end: nat)
    requires Delimits(cells, lower, upper, start, end)
    ensures start <= |cells| && end <= |cells|
  {
    hide AboveLower, BelowUpper;
  }

  lemma {:induction false} ReversedAppend(a: seq<LeafCell>, b: seq<LeafCell>)
    ensures Reversed(a + b) == Reversed(b) + Reversed(a)
  {
  }

  // ---------- what lies beyond a leaf ----------

  ghost function LeafCells(t: Tree, from: nat, to: nat, lower: Bound, upper: Bound): seq<LeafCell>
    requires from <= to <= |LeavesOf(t)|
  {
    Selected(FlatAll(LeavesOf(t)[from..to]), lower, upper)
  }

  lemma {:induction false} LeafCellsSplit(t: Tree, from: nat, mid: nat, to: nat, lower: Bound, upper: Bound)
    requires from <= mid <= to <= |LeavesOf(t)|
    ensures LeafCells(t, from, to, lower, upper) == LeafCells(t, from, mid, lower, upper) + LeafCells(t, mid, to, lower, upper)
  {
    hide Selected, LeavesOf, FlatAll;
    var ls := LeavesOf(t);
    assert ls[from..to] == ls[from..mid] + ls[mid..to];
    FlatAllAppend(ls[from..mid], ls[mid..to]);
    SelectedAppend(FlatAll(ls[from..mid]), FlatAll(ls[mid..to]), lower, upper);
  }

  lemma {:induction false} OneLeafCells(t: Tree, k: nat, lower: Bound, upper: Bound)
    requires k < |LeavesOf(t)|
    ensures LeafCells(t, k, k + 1, lower, upper) == Selected(LeavesOf(t)[k].entries, lower, upper)
  {
    hide Selected, LeavesOf;
    var leaf := LeavesOf(t)[k];
    assert LeavesOf(t)[k..k + 1] == [leaf];
    assert FlatAll([leaf]) == leaf.entries + FlatAll([]) == leaf.entries;
  }

  lemma {:induction false} NoLeafCells(t: Tree, k: nat, lower: Bound, upper: Bound)
    requires k <= |LeavesOf(t)|
    ensures LeafCells(t, k, k, lower, upper) == []
  {
    hide LeavesOf;
    assert LeavesOf(t)[k..k] == [];
  }

  ghost predicate AllLess(a: seq<Entry>, b: seq<Entry>) {
    forall i, j :: 0 <= i < |a| && 0 <= j < |b| ==> Less(a[i].cell.key, b[j].cell.key)
  }

  /** All entries before leaf `k`, of leaf `k`, and after it, in order. */
  lemma {:induction false} LeafSorted(t: Tree, k: nat)
    requires Sorted(Flat(t)) && k < |LeavesOf(t)|
    ensures var ls := LeavesOf(t);
            && Sorted(ls[k].entries)
            && AllLess(FlatAll(ls[..k]), ls[k].entries)
            && AllLess(ls[k].entries, FlatAll(ls[k + 1..]))
  {
    hide LeavesOf, FlatAll, Sorted, Less;
    var ls := LeavesOf(t);
    LeavesHoldEntries(t);
    var a, b, c := FlatAll(ls[..k]), ls[k].entries, FlatAll(ls[k + 1..]);
    KidFlatIsSlice(ls, k);
    LeafFlat(ls[k]);
    SortedAppend(a + b, c);
    SortedAppend(a, b);
    forall i, j | 0 <= i < |b| && 0 <= j < |c| ensures Less(b[i].cell.key, c[j].cell.key) {
      assert (a + b)[|a| + i] == b[i];
    }
  }

  lemma {:induction false} LeafFlat(t: Tree)
    requires t.Leaf?
    ensures Flat(t) == t.entries
  {
  }

  /** A cell beyond the upper bound ends a forward scan. */
  lemma {:induction false} NothingAfter(t: Tree, k: nat, lower: Bound, upper: Bound, start: nat, end: nat)
    requires Sorted(Flat(t)) && k < |LeavesOf(t)|
    requires Delimits(CellsOf(LeavesOf(t)[k].entries), lower, upper, start, end) && end < |LeavesOf(t)[k].entries|
    ensures LeafCells(t, k + 1, |LeavesOf(t)|, lower, upper) == []
  {
    hide LeavesOf, FlatAll, Flat, Sorted, Less, AboveLower;
    LeafSorted(t, k);
    var ls := LeavesOf(t);
    var here, rest := ls[k].entries, FlatAll(ls[k + 1..]);
    assert ls[k + 1..|ls|] == ls[k + 1..];
    assert CellsOf(here)[end] == here[end].cell;
    KeyOrder();
    forall j | 0 <= j < |rest| ensures !InRange(rest[j].cell.key, lower, upper) {
      assert Less(here[end].cell.key, rest[j].cell.key);
    }
    SelectedNone(rest, lower, upper);
  }

  /** A cell below the lower bound ends a reverse scan. */
  lemma {:induction false} NothingBefore(t: Tree, k: nat, lower: Bound, upper: Bound, start: nat, end: nat)
    requires Sorted(Flat(t)) && k < |LeavesOf(t)|
    requires Delimits(CellsOf(LeavesOf(t)[k].entries), lower, upper, start, end) && start > 0
    ensures LeafCells(t, 0, k, lower, upper) == []
  {
    hide LeavesOf, FlatAll, Flat, Sorted, Less, BelowUpper;
    LeafSorted(t, k);
    var ls := LeavesOf(t);
    var here, rest := ls[k].entries, FlatAll(ls[..k]);
    assert ls[0..k] == ls[..k];
    assert CellsOf(here)[0] == here[0].cell;
    KeyOrder();
    forall j | 0 <= j < |rest| ensures !InRange(rest[j].cell.key, lower, upper) {
      assert Less(rest[j].cell.key, here[0].cell.key);
    }
    SelectedNone(rest, lower, upper);
  }

  /** Where a scan starts, nothing of the range is left behind. */
  lemma {:induction false} StartSkipsNothing(t: Tree, k: nat, lower: Bound, upper: Bound, reverse: bool)
    requires k < |LeavesOf(t)| && Arrives(t, [], StartAt(lower, upper, reverse), k)
    ensures !reverse ==> LeafCells(t, 0, k, lower, upper) == []
    ensures reverse ==> LeafCells(t, k + 1, |LeavesOf(t)|, lower, upper) == []
  {
    hide LeavesOf, FlatAll, Less;
    KeyOrder();
    var ls := LeavesOf(t);
    var descent := StartAt(lower, upper, reverse);
    assert ls[0..k] == ls[..k] && ls[k + 1..|ls|] == ls[k + 1..];
    match descent
    case Leftmost =>
      NoLeafCells(t, 0, lower, upper);
    case Rightmost =>
      NoLeafCells(t, |ls|, lower, upper);
    case AtKey(key) =>
      if reverse {
        SelectedNone(FlatAll(ls[k + 1..]), lower, upper);
      } else {
        SelectedNone(FlatAll(ls[..k]), lower, upper);
      }
  }

  function StartAt(lower: Bound, upper: Bound, reverse: bool): Descent {
    if reverse then (if upper.Some? then AtKey(upper.value.key) else Rightmost)
    else (if lower.Some? then AtKey(lower.value.key) else Leftmost)
  }

  // ---------- the state of a scan ----------

  /**
   * Where a scan stands: leaf `k` of the tree, the part of it still to be returned, whether
   * that leaf has been loaded, and whether the scan is known to end with it.
   */
  datatype Spot = Spot(t: Tree, k: nat, window: Option<Window>, loaded: bool, exhausted: bool, lower: Bound, upper: Bound, reverse: bool)

  ghost function CellsAt(p: Spot): seq<LeafCell> {
    if p.k < |LeavesOf(p.t)| then CellsOf(LeavesOf(p.t)[p.k].entries) else []
  }

  ghost function InWindow(p: Spot): seq<LeafCell> {
    if p.window.Some? && p.window.value.start <= p.window.value.end <= |CellsAt(p)|
    then Ordered(CellsAt(p)[p.window.value.start..p.window.value.end], p.reverse)
    else []
  }

  /** The cells of the range in leaves not loaded yet, in scan order. */
  ghost function Beyond(p: Spot): seq<LeafCell> {
    if p.exhausted || p.k >= |LeavesOf(p.t)| then []
    else if p.reverse then Reversed(LeafCells(p.t, 0, if p.loaded then p.k else p.k + 1, p.lower, p.upper))
    else LeafCells(p.t, if p.loaded then p.k + 1 else p.k, |LeavesOf(p.t)|, p.lower, p.upper)
  }

  ghost function Rest(p: Spot): seq<LeafCell> {
    InWindow(p) + Beyond(p)
  }

  lemma {:induction false} TakeForward(p: Spot)
    requires p.window.Some? && p.window.value.start < p.window.value.end <= |CellsAt(p)| && !p.reverse
    ensures Rest(p) == [CellsAt(p)[p.window.value.start]] + Rest(p.(window := Some(Window(p.window.value.start + 1, p.window.value.end))))
  {
    hide LeavesOf, CellsOf, LeafCells, CellsAt, Beyond;
    var p' := p.(window := Some(Window(p.window.value.start + 1, p.window.value.end)));
    assert CellsAt(p') == CellsAt(p) && Beyond(p') == Beyond(p) by { SameLeaf(p, p'); }
  }

  lemma {:induction false} TakeReverse(p: Spot)
    requires p.window.Some? && p.window.value.start < p.window.value.end <= |CellsAt(p)| && p.reverse
    ensures Rest(p) == [CellsAt(p)[p.window.value.end - 1]] + Rest(p.(window := Some(Window(p.window.value.start, p.window.value.end - 1))))
  {
    hide LeavesOf, CellsOf, LeafCells, CellsAt, Beyond;
    var w := p.window.value;
    var p' := p.(window := Some(Window(w.start, w.end - 1)));
    assert CellsAt(p') == CellsAt(p) && Beyond(p') == Beyond(p) by { SameLeaf(p, p'); }
    ReversedLast(CellsAt(p), w.start, w.end);
  }

  lemma {:induction false} ReversedLast(cells: seq<LeafCell>, start: nat, end: nat)
    requires start < end <= |cells|
    ensures Reversed(cells[start..end]) == [cells[end - 1]] + Reversed(cells[start..end - 1])
  {
    assert cells[start..end] == cells[start..end - 1] + [cells[end - 1]];
    ReversedAppend(cells[start..end - 1], [cells[end - 1]]);
    assert Reversed([cells[end - 1]]) == [cells[end - 1]];
  }

  lemma {:induction false} SameLeaf(p: Spot, p': Spot)
    requires p' == p.(window := p'.window)
    ensures CellsAt(p') == CellsAt(p) && Beyond(p') == Beyond(p)
  {
  }

  lemma {:induction false} DropWindow(p: Spot)
    requires p.window.Some? ==> p.window.value.start >= p.window.value.end
    ensures Rest(p) == Rest(p.(window := None))
  {
    hide LeavesOf, CellsOf, LeafCells, CellsAt;
    SameLeaf(p, p.(window := None));
  }

  /** Moving past a loaded leaf. */
  lemma {:induction false} MoveOn(p: Spot)
    requires p.window.None? && p.loaded && !p.exhausted && p.k < |LeavesOf(p.t)|
    ensures !p.reverse && p.k + 1 < |LeavesOf(p.t)| ==> Rest(p) == Rest(p.(k := p.k + 1, loaded := false))
    ensures !p.reverse && p.k + 1 == |LeavesOf(p.t)| ==> Rest(p) == []
    ensures p.reverse && p.k > 0 ==> Rest(p) == Rest(p.(k := p.k - 1, loaded := false))
    ensures p.reverse && p.k == 0 ==> Rest(p) == []
  {
    hide LeavesOf, CellsOf, LeafCells;
    NoLeafCells(p.t, |LeavesOf(p.t)|, p.lower, p.upper);
    NoLeafCells(p.t, 0, p.lower, p.upper);
  }

  /** Loading a leaf splits its part of the range from what lies beyond. */
  lemma {:induction false} LoadLeaf(p: Spot, ready: seq<LeafCell>, w: Window, hit: bool, start: nat, end: nat)
    requires p.window.None? && !p.loaded && !p.exhausted && p.k < |LeavesOf(p.t)| && Sorted(Flat(p.t))
    requires Delimits(CellsAt(p), p.lower, p.upper, start, end) && w.start <= w.end <= |CellsAt(p)|
    requires start <= |CellsAt(p)| && end <= |CellsAt(p)|
    requires ready + Ordered(CellsAt(p)[w.start..w.end], p.reverse) == Ordered(CellsAt(p)[start..Max(start, end)], p.reverse)
    requires hit == if p.reverse then start > 0 else end < |CellsAt(p)|
    ensures Rest(p) == ready + Rest(p.(window := Some(w), loaded := true, exhausted := hit))
  {
    hide LeavesOf, CellsOf, LeafCells, Delimits, Sorted, Flat, Ordered;
    var t, k := p.t, p.k;
    var q := p.(window := Some(w), loaded := true, exhausted := hit);
    LeafSelected(t, k, p.lower, p.upper, start, end);
    SplitAtLeaf(t, k, p.lower, p.upper, p.reverse);
    CellCount(LeavesOf(t)[k].entries);
    if hit {
      if p.reverse {
        NothingBefore(t, k, p.lower, p.upper, start, end);
      } else {
        NothingAfter(t, k, p.lower, p.upper, start, end);
      }
    }
    var here := LeafCells(t, k, k + 1, p.lower, p.upper);
    assert Rest(p) == Ordered(here, p.reverse) + Beyond(q) by { OrderedIs(here, p.reverse); }
    AssocCells(ready, InWindow(q), Beyond(q));
  }

  lemma {:induction false} OrderedIs(cells: seq<LeafCell>, reverse: bool)
    ensures Ordered(cells, reverse) == if reverse then Reversed(cells) else cells
    ensures Reversed([]) == []
  {
  }

  lemma {:induction false} AssocCells(a: seq<LeafCell>, b: seq<LeafCell>, c: seq<LeafCell>)
    ensures (a + b) + c == a + (b + c)
  {
  }

  // ---------- the iterator ----------

  class TreeIter {
    const cursor: LeafCursor?
    const lower: Bound
    const upper: Bound
    const reverse: bool
    const limit: Option<nat>
    var ready: seq<LeafCell>
    var readyAt: nat
    var window: Option<Window>
    var loadedFirst: bool
    var exhausted: bool
    /** The leaf the cursor is on. */
    ghost var k: nat
    /** What the scan has still to return. */
    ghost var remaining: seq<LeafCell>

    ghost function Here(): Spot
      requires cursor != null
      reads this
    {
      Spot(cursor.tree, k, window, loadedFirst, exhausted, lower, upper, reverse)
    }

    ghost predicate Valid()
      reads this, cursor
    {
      && readyAt <= |ready|
      && (cursor == null ==> exhausted && window.None? && remaining == ready[readyAt..])
      && (cursor != null ==> remaining == ready[readyAt..] + Rest(Here()))
      && (window.Some? || !exhausted ==> cursor != null && cursor.Valid() && cursor.At() == k)
      && (window.Some? ==> loadedFirst && window.value.start <= window.value.end <= |CellsAt(Here())|)
    }

    /** Opens a scan of the whole range. */
    constructor (pages: map<PageId, Page>, root: PageId, lower: Bound, upper: Bound, reverse: bool, limited: bool, ghost tree: Option<Tree>)
      requires WellFormed(pages, root, tree)
      ensures Valid() && (cursor == null || fresh(cursor))
      ensures remaining == Ordered(Selected(EntriesOf(tree), lower, upper), reverse)
    {
      hide LeavesOf, LeafCells, Arrives, Spelled, Sorted, Flat, PagesOf, Shaped, Readable, Matches, Selected;
      this.lower, this.upper, this.reverse := lower, upper, reverse;
      this.limit := if limited then Some(1) else None;
      ready, readyAt, window, loadedFirst := [], 0, None, false;
      RootPositive(pages, root, tree);
      if root == 0 {
        NothingSelected(lower, upper);
        this.cursor := null;
        exhausted, k, remaining := true, 0, [];
      } else {
        ReadableRoot(pages, tree.value);
        var c := new LeafCursor.Open(pages, root, StartAt(lower, upper, reverse), tree.value);
        this.cursor := c;
        exhausted, k := false, c.At();
        c.Here();
        remaining := Ordered(Selected(EntriesOf(tree), lower, upper), reverse);
        StartRest(tree.value, c.At(), lower, upper, reverse);
      }
    }

    /** The next cell of the range, or none when the range is used up. */
    method Next() returns (r: Option<LeafCell>)
      requires Valid()
      modifies this, cursor
      ensures Valid()
      ensures r.Some? ==> old(remaining) == [r.value] + remaining
      ensures r.None? ==> old(remaining) == [] && remaining == []
    {
      hide Rest, CellsAt, Matches, Readable, Offset, Sub;
      while true
        invariant Valid() && remaining == old(remaining)
        decreases if exhausted then 0 else 1 + Left()
      {
        if readyAt < |ready| {
          r := Some(ready[readyAt]);
          readyAt := readyAt + 1;
          remaining := remaining[1..];
          return;
        }
        if window.Some? && window.value.start < window.value.end {
          r := TakeFromWindow();
          return;
        }
        if cursor == null {
          return None;
        }
        DropWindow(Here());
        window := None;
        if exhausted {
          NothingLeft(Here());
          return None;
        }
        if loadedFirst {
          var moved := Move();
          if !moved {
            NothingLeft(Here());
            return None;
          }
        }
        Load();
      }
    }

    /** How many leaves are left to load. */
    ghost function Left(): nat
      reads this
    {
      if cursor == null || k >= |LeavesOf(cursor.tree)| then 0
      else if reverse then k + (if loadedFirst then 0 else 1)
      else |LeavesOf(cursor.tree)| - k - (if loadedFirst then 1 else 0)
    }

    method TakeFromWindow() returns (r: Option<LeafCell>)
      requires Valid() && readyAt == |ready| && window.Some? && window.value.start < window.value.end
      modifies this`window, this`remaining
      ensures Valid() && r.Some? && old(remaining) == [r.value] + remaining
    {
      hide Rest, Matches, Readable, Offset, Sub, LeavesOf, CellsOf;
      cursor.Here();
      var w, cells := window.value, cursor.pages[cursor.current].leafCells;
      assert cells == CellsAt(Here());
      if reverse {
        TakeReverse(Here());
        r := Some(cells[w.end - 1]);
        window := Some(Window(w.start, w.end - 1));
      } else {
        TakeForward(Here());
        r := Some(cells[w.start]);
        window := Some(Window(w.start + 1, w.end));
      }
      remaining := Rest(Here());
      assert ready[readyAt..] + Rest(Here()) == Rest(Here());
    }

    /** Moves the cursor to the next leaf in scan order. */
    method Move() returns (moved: bool)
      requires Valid() && readyAt == |ready| && window.None? && !exhausted && loadedFirst
      modifies this`loadedFirst, this`k, this`exhausted, cursor
      ensures Valid() && remaining == old(remaining) && readyAt == |ready|
      ensures moved ==> !loadedFirst && !exhausted && Left() == old(Left())
      ensures !moved ==> exhausted && remaining == []
    {
      hide Rest, CellsAt, Matches, Readable, Offset, Sub, LeavesOf;
      cursor.Here();
      MoveOn(Here());
      if reverse {
        moved := cursor.Retreat();
        if moved {
          k := k - 1;
        }
      } else {
        moved := cursor.Advance();
        if moved {
          k := k + 1;
        }
      }
      if moved {
        loadedFirst := false;
      } else {
        exhausted := true;
        NothingLeft(Here());
      }
    }

    /** Loads the leaf under the cursor. */
    method Load()
      requires Valid() && readyAt == |ready| && window.None? && !exhausted && !loadedFirst
      modifies this`ready, this`readyAt, this`window, this`loadedFirst, this`exhausted
      ensures Valid() && remaining == old(remaining)
      ensures Left() < old(Left())
    {
      hide Rest, LeavesOf, Delimits, KeysIncrease, Ordered, Matches, Readable, Offset, Sub, Max, Sorted, Flat, CellsOf;
      cursor.Here();
      ghost var p := Here();
      var cells := cursor.pages[cursor.current].leafCells;
      assert cells == CellsAt(p);
      LeafKeysIncrease(cursor.pages, cursor.tree, k);
      var pairs, w, hit;
      ghost var start, end;
      pairs, w, hit, start, end := CollectLeafWindow(cells, lower, upper, reverse, limit);
      DelimitsBounds(cells, lower, upper, start, end);
      LoadLeaf(p, pairs, w, hit, start, end);
      ready, readyAt, window, loadedFirst := pairs, 0, Some(w), true;
      exhausted := hit;
      assert ready[readyAt..] == pairs;
    }
  }

  lemma {:induction false} NothingLeft(p: Spot)
    requires p.exhausted && p.window.None?
    ensures Rest(p) == []
  {
  }

  lemma {:induction false} StartRest(t: Tree, k: nat, lower: Bound, upper: Bound, reverse: bool)
    requires k < |LeavesOf(t)| && Arrives(t, [], StartAt(lower, upper, reverse), k)
    ensures Rest(Spot(t, k, None, false, false, lower, upper, reverse)) == Ordered(Selected(Flat(t), lower, upper), reverse)
  {
    hide LeavesOf, LeafCells, Arrives, Selected, Flat;
    StartSkipsNothing(t, k, lower, upper, reverse);
    WholeScan(t, k, lower, upper);
    var a, b := LeafCells(t, 0, k + 1, lower, upper), LeafCells(t, k, |LeavesOf(t)|, lower, upper);
    assert [] + b == b && a + [] == a;
  }

  lemma {:induction false} CellCount(es: seq<Entry>)
    ensures |CellsOf(es)| == |es|
  {
  }

  lemma {:induction false} ReadableRoot(pages: map<PageId, Page>, t: Tree)
    requires Spelled(pages, t) && ShapedRoot(t) && Sorted(Flat(t))
    ensures Readable(pages, t)
  {
    hide Spelled, Sorted, Flat;
  }

  lemma {:induction false} WholeScan(t: Tree, k: nat, lower: Bound, upper: Bound)
    requires k < |LeavesOf(t)|
    ensures Selected(Flat(t), lower, upper) == LeafCells(t, 0, k, lower, upper) + LeafCells(t, k, |LeavesOf(t)|, lower, upper)
    ensures Selected(Flat(t), lower, upper) == LeafCells(t, 0, k + 1, lower, upper) + LeafCells(t, k + 1, |LeavesOf(t)|, lower, upper)
  {
    hide LeavesOf, Selected, Flat, FlatAll;
    LeavesHoldEntries(t);
    assert LeavesOf(t)[0..|LeavesOf(t)|] == LeavesOf(t);
    LeafCellsSplit(t, 0, k, |LeavesOf(t)|, lower, upper);
    LeafCellsSplit(t, 0, k + 1, |LeavesOf(t)|, lower, upper);
  }

  lemma {:induction false} SplitAtLeaf(t: Tree, k: nat, lower: Bound, upper: Bound, reverse: bool)
    requires k < |LeavesOf(t)|
    ensures var here := LeafCells(t, k, k + 1, lower, upper);
            && LeafCells(t, k, |LeavesOf(t)|, lower, upper) == here + LeafCells(t, k + 1, |LeavesOf(t)|, lower, upper)
            && Reversed(LeafCells(t, 0, k + 1, lower, upper)) == Reversed(here) + Reversed(LeafCells(t, 0, k, lower, upper))
  {
    hide LeavesOf, LeafCells;
    LeafCellsSplit(t, k, k + 1, |LeavesOf(t)|, lower, upper);
    LeafCellsSplit(t, 0, k, k + 1, lower, upper);
    ReversedAppend(LeafCells(t, 0, k, lower, upper), LeafCells(t, k, k + 1, lower, upper));
  }

  lemma {:induction false} LeafKeysIncrease(pages: map<PageId, Page>, t: Tree, k: nat)
    requires Readable(pages, t) && k < |LeavesOf(t)|
    ensures KeysIncrease(CellsOf(LeavesOf(t)[k].entries)) && Sorted(Flat(t))
  {
    hide LeavesOf, Spelled, Shaped, Less, Flat;
    LeafSorted(t, k);
  }

  lemma {:induction false} LeafSelected(t: Tree, k: nat, lower: Bound, upper: Bound, start: nat, end: nat)
    requires k < |LeavesOf(t)| && Delimits(CellsOf(LeavesOf(t)[k].entries), lower, upper, start, end)
    ensures start <= |LeavesOf(t)[k].entries| && end <= |LeavesOf(t)[k].entries|
    ensures LeafCells(t, k, k + 1, lower, upper) == CellsOf(LeavesOf(t)[k].entries)[start..Max(start, end)]
  {
    hide LeavesOf, Delimits, LeafCells, Selected;
    OneLeafCells(t, k, lower, upper);
    DelimitsBounds(CellsOf(LeavesOf(t)[k].entries), lower, upper, start, end);
    DelimitedIsSelected(LeavesOf(t)[k].entries, lower, upper, start, end);
  }
}
