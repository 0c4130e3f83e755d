/** Merging underfull siblings and packing children, as steps on writer states. */
module Normalizing {
  import opened Keys
  import opened Pages
  import opened MergeSpec
  import opened Parts
  import opened WriterState
  import opened NodeReading

  /** `after` holds what `before` held, live in the later state, with balanced books. */
  ghost predicate Transformed(s: State, before: seq<Part>, s': State, after: seq<Part>, height: nat) {
    && Apart(s') && Grown(s, s')
    && PartsFlat(after) == PartsFlat(before)
    && PartsShaped(after, height)
    && PartsLive(s', after)
    && Balanced(PartsPages(before), LedgerOf(s), PartsPages(after), LedgerOf(s'))
  }

  lemma {:induction false} TransformedReflexive(s: State, ps: seq<Part>, height: nat)
    requires Apart(s) && PartsShaped(ps, height) && PartsLive(s, ps)
    ensures Transformed(s, ps, s, ps, height)
  {
    hide PartsFlat, PartsPages, PartLive, LedgerOf, PartShaped;
    GrownReflexive(s);
  }

  lemma {:induction false} TransformedTransitive(s: State, a: seq<Part>, s1: State, b: seq<Part>, s2: State, c: seq<Part>, height: nat)
    requires Transformed(s, a, s1, b, height) && Transformed(s1, b, s2, c, height)
    ensures Transformed(s, a, s2, c, height)
  {
    hide PartsFlat, PartsPages, PartsLive, LedgerOf, PartsShaped, Balanced, Grown, Apart;
    GrownTransitive(s, s1, s2);
    BalancedTransitive(PartsPages(a), LedgerOf(s), PartsPages(b), LedgerOf(s1), PartsPages(c), LedgerOf(s2));
  }

  lemma {:induction false} PartsShapedAppend(a: seq<Part>, b: seq<Part>, height: nat)
    ensures PartsShaped(a + b, height) <==> PartsShaped(a, height) && PartsShaped(b, height)
  {
    hide PartShaped;
    assert forall i :: 0 <= i < |b| ==> b[i] == (a + b)[|a| + i];
    assert forall i :: 0 <= i < |a| ==> a[i] == (a + b)[i];
  }

  lemma {:induction false} PartsLiveAppend(s: State, a: seq<Part>, b: seq<Part>)
    ensures PartsLive(s, a + b) <==> PartsLive(s, a) && PartsLive(s, b)
  {
    hide PartLive;
    assert forall i :: 0 <= i < |b| ==> b[i] == (a + b)[|a| + i];
    assert forall i :: 0 <= i < |a| ==> a[i] == (a + b)[i];
  }

  /** A step on some parts leaves those before and after them alone. */
  lemma {:induction false} TransformMiddle(s: State, s': State, pre: seq<Part>, mid: seq<Part>, mid': seq<Part>, post: seq<Part>, height: nat)
    requires Apart(s) && Transformed(s, mid, s', mid', height)
    requires PartsLive(s, pre) && PartsLive(s, post) && PartsShaped(pre, height) && PartsShaped(post, height)
    ensures Transformed(s, pre + mid + post, s', pre + mid' + post, height)
  {
    hide PartsFlat, PartsPages, PartsLive, LedgerOf, PartsShaped, Balanced, Grown, Apart;
    PartsStayLive(s, s', pre);
    PartsStayLive(s, s', post);
    PartsLiveAppend(s', pre, mid');
    PartsLiveAppend(s', pre + mid', post);
    PartsShapedAppend(pre, mid', height);
    PartsShapedAppend(pre + mid', post, height);
    PartsFlatAppend(pre, mid);
    PartsFlatAppend(pre + mid, post);
    PartsFlatAppend(pre, mid');
    PartsFlatAppend(pre + mid', post);
    PartsPagesAppend(pre, mid);
    PartsPagesAppend(pre + mid, post);
    PartsPagesAppend(pre, mid');
    PartsPagesAppend(pre + mid', post);
    BalancedFrame(PartsPages(pre), PartsPages(mid), LedgerOf(s), PartsPages(mid'), LedgerOf(s'));
    BalancedFrame(PartsPages(post), PartsPages(pre) + PartsPages(mid), LedgerOf(s), PartsPages(pre) + PartsPages(mid'), LedgerOf(s'));
  }

  lemma {:induction false} OnePart(p: Part)
    ensures PartsFlat([p]) == PartFlat(p) && PartsPages([p]) == PartPages(p)
  {
    assert PartsFlat([p]) == PartFlat(p) + PartsFlat([]);
    assert PartsPages([p]) == PartPages(p) + PartsPages([]);
  }

  /** Turning a kept page into a run frees exactly that page. */
  lemma {:induction false} DissolveKept(s: State, t: Tree, height: nat)
    requires Apart(s) && PartLive(s, Kept(t)) && PartShaped(Kept(t), height)
    ensures Transformed(s, [Kept(t)], Freeing(s, t.id), [PartUnder(t)], height)
  {
    var s' := Freeing(s, t.id);
    hide PartSpelled, LedgerOf, Balanced, Shaped, ViewOf, Known, PagesOf, PagesOfAll, ChainPages, Flat, FlatAll;
    Dissolve(s, t);
    FreeingBooks(s, t.id);
    PartUnderIs(t);
    OnePart(Kept(t));
    OnePart(PartUnder(t));
    BalancedFree(t.id, PartPages(PartUnder(t)), LedgerOf(s));
    PartStaysLive(s, s', PartUnder(t));
    PartUnderShaped(t);
  }

  lemma {:induction false} PartUnderIs(t: Tree)
    ensures PagesOf(t) == multiset{t.id} + PartPages(PartUnder(t))
    ensures Flat(t) == PartFlat(PartUnder(t))
  {
  }

  lemma {:induction false} PartUnderShaped(t: Tree)
    requires Shaped(t)
    ensures PartShaped(PartUnder(t), Height(t))
  {
  }

  /** Two runs of one level joined. */
  function Joined(a: Part, b: Part): Part {
    if a.LeafPart? && b.LeafPart? then LeafPart(a.entries + b.entries)
    else if a.InnerPart? && b.InnerPart? then InnerPart(a.level, a.kids + b.kids)
    else a
  }

  lemma {:induction false} JoinParts(s: State, a: Part, b: Part, height: nat)
    requires Apart(s) && !a.Kept? && !b.Kept? && PartsShaped([a, b], height) && PartsLive(s, [a, b])
    ensures Transformed(s, [a, b], s, [Joined(a, b)], height)
    ensures RunOf(a).LeafRun? == RunOf(b).LeafRun? && RunLevel(RunOf(a)) == height == RunLevel(RunOf(b))
    ensures !Joined(a, b).Kept? && RunOf(Joined(a, b)) == AppendRuns(RunOf(a), RunOf(b))
  {
    hide PartShaped, PartLive, LedgerOf, PartFlat, PartPages, PartsFlat, PartsPages, Apart, Joined, AppendRuns, RunOf;
    var j := Joined(a, b);
    assert PartShaped([a, b][0], height) && PartShaped([a, b][1], height);
    assert PartLive(s, [a, b][0]) && PartLive(s, [a, b][1]);
    JoinLive(s, a, b, height);
    JoinFlat(a, b, height);
    RunLevels(a, height);
    RunLevels(b, height);
    GrownReflexive(s);
    OnePart(j);
    assert [a, b] == [a] + [b];
    PartsFlatAppend([a], [b]);
    PartsPagesAppend([a], [b]);
    OnePart(a);
    OnePart(b);
  }

  lemma {:induction false} RunLevels(p: Part, height: nat)
    requires !p.Kept? && PartShaped(p, height)
    ensures RunLevel(RunOf(p)) == height && RunOf(p).LeafRun? == (height == 0)
  {
  }

  function AppendRuns(a: Run, b: Run): Run
    requires a.LeafRun? == b.LeafRun?
  {
    if a.LeafRun? then LeafRun(a.cells + b.cells) else InternalRun(a.level, a.icells + b.icells)
  }

  lemma {:induction false} JoinFlat(a: Part, b: Part, height: nat)
    requires !a.Kept? && !b.Kept? && PartShaped(a, height) && PartShaped(b, height)
    ensures RunOf(a).LeafRun? == RunOf(b).LeafRun?
    ensures PartFlat(Joined(a, b)) == PartFlat(a) + PartFlat(b)
    ensures PartPages(Joined(a, b)) == PartPages(a) + PartPages(b)
    ensures !Joined(a, b).Kept? && RunOf(Joined(a, b)) == AppendRuns(RunOf(a), RunOf(b))
  {
    hide ShapedAll, FlatAll, PagesOfAll, ChainPages;
    if a.LeafPart? {
      ChainPagesAppend(a.entries, b.entries);
      assert CellsOf(a.entries + b.entries) == CellsOf(a.entries) + CellsOf(b.entries);
    } else {
      FlatAllAppend(a.kids, b.kids);
      PagesOfAllAppend(a.kids, b.kids);
      assert ParentCells(a.kids + b.kids) == ParentCells(a.kids) + ParentCells(b.kids);
    }
  }

  lemma {:induction false} JoinLive(s: State, a: Part, b: Part, height: nat)
    requires !a.Kept? && !b.Kept? && PartShaped(a, height) && PartShaped(b, height)
    requires PartLive(s, a) && PartLive(s, b)
    ensures PartLive(s, Joined(a, b)) && PartShaped(Joined(a, b), height)
  {
    hide EntrySpelled, Spelled, ViewOf, Known, Shaped, PagesOfAll, ChainPages;
    JoinFlat(a, b, height);
    forall x | x in PartPages(Joined(a, b)) ensures Known(s, x) {
      assert x in PartPages(a) || x in PartPages(b);
    }
    if a.InnerPart? {
      ShapedAllAppend(a.kids, b.kids, height - 1);
    }
  }

  /** Parts that hold nothing can be dropped. */
  lemma {:induction false} DropEmpty(p: Part)
    requires !p.Kept? && RunEmpty(RunOf(p))
    ensures PartFlat(p) == [] && PartPages(p) == multiset{}
  {
    match p
    case LeafPart(es) =>
      assert |CellsOf(es)| == |es|;
    case InnerPart(_, kids) =>
      assert |ParentCells(kids)| == |kids|;
  }

  // ---------- packing all children ----------

  /** `ts` are the pages that hold `parts`. */
  ghost predicate PackedAll(s: State, parts: seq<Part>, s': State, ts: seq<Tree>, height: nat) {
    && Apart(s') && Grown(s, s')
    && FlatAll(ts) == PartsFlat(parts)
    && ShapedAll(ts, height)
    && PartLive(s', InnerPart(height + 1, ts))
    && Balanced(PartsPages(parts), LedgerOf(s), PagesOfAll(ts), LedgerOf(s'))
  }

  lemma {:induction false} PackedNone(s: State, height: nat)
    requires Apart(s)
    ensures PackedAll(s, [], s, [], height) && ParentCells([]) == []
  {
    GrownReflexive(s);
  }

  lemma {:induction false} TreesLiveAppend(s: State, level: nat, a: seq<Tree>, b: seq<Tree>)
    requires PartLive(s, InnerPart(level, a)) && PartLive(s, InnerPart(level, b))
    ensures PartLive(s, InnerPart(level, a + b))
  {
    hide Spelled, ViewOf, Known, PagesOfAll;
    PagesOfAllAppend(a, b);
    forall x | x in PagesOfAll(a + b) ensures Known(s, x) {
      assert x in PagesOfAll(a) || x in PagesOfAll(b);
    }
  }

  lemma {:induction false} PackedAllBooks(parts: multiset<PageId>, p: multiset<PageId>, l: Books, ts: multiset<PageId>, l1: Books, us: multiset<PageId>, l2: Books)
    requires Balanced(parts, l, ts, l1) && Balanced(p, l1, us, l2)
    ensures Balanced(parts + p, l, ts + us, l2)
  {
    hide Balanced;
    BalancedFrame(p, parts, l, ts, l1);
    BalancedFrame(ts, p, l1, us, l2);
    BalancedTransitive(parts + p, l, ts + p, l1, ts + us, l2);
  }

  /** One more child packed into `us`. */
  lemma {:induction false} PackedAllStep(s: State, parts: seq<Part>, s1: State, ts: seq<Tree>, p: Part, s2: State, us: seq<Tree>, height: nat)
    requires Apart(s1) && PackedAll(s, parts, s1, ts, height) && Packed(s1, p, s2, us, height)
    ensures PackedAll(s, parts + [p], s2, ts + us, height)
  {
    hide PartsFlat, PartsPages, PartLive, LedgerOf, Balanced, Grown, Apart, FlatAll, PagesOfAll, ShapedAll;
    GrownTransitive(s, s1, s2);
    PartStaysLive(s1, s2, InnerPart(height + 1, ts));
    TreesLiveAppend(s2, height + 1, ts, us);
    ShapedAllAppend(ts, us, height);
    FlatAllAppend(ts, us);
    PagesOfAllAppend(ts, us);
    PartsFlatAppend(parts, [p]);
    PartsPagesAppend(parts, [p]);
    OnePart(p);
    PackedAllBooks(PartsPages(parts), PartPages(p), LedgerOf(s), PagesOfAll(ts), LedgerOf(s1), PagesOfAll(us), LedgerOf(s2));
  }

  /** A kept child is already packed. */
  lemma {:induction false} KeptIsPacked(s: State, t: Tree, height: nat)
    requires Apart(s) && PartLive(s, Kept(t)) && PartShaped(Kept(t), height)
    ensures Packed(s, Kept(t), s, [t], height)
  {
    hide Shaped, Spelled, Known, Apart, ViewOf, LedgerOf, FlatAll, PagesOfAll, PagesOf, Flat, Committed;
    GrownReflexive(s);
    OneTree(t);
    assert [t][0] == t;
  }

  lemma {:induction false} OneTree(t: Tree)
    ensures FlatAll([t]) == Flat(t) && PagesOfAll([t]) == PagesOf(t)
  {
    assert FlatAll([t]) == Flat(t) + FlatAll([]);
    assert PagesOfAll([t]) == PagesOf(t) + PagesOfAll([]);
  }

  lemma {:induction false} EmptyIsPacked(s: State, p: Part, height: nat)
    requires Apart(s) && !p.Kept? && RunEmpty(RunOf(p))
    ensures Packed(s, p, s, [], height)
  {
    DropEmpty(p);
    GrownReflexive(s);
  }

  predicate Underfull(c: Child) {
    c.Changed? && RunCost(c.run) < MIN_NODE_FILL
  }

  lemma {:induction false} ChildAt(parts: seq<Part>, i: nat)
    requires i < |parts|
    ensures ChildrenOf(parts)[i] == ChildOf(parts[i])
  {
  }

  lemma {:induction false} SortedPart(parts: seq<Part>, i: nat)
    requires i < |parts| && Sorted(PartsFlat(parts))
    ensures Sorted(PartFlat(parts[i]))
  {
    hide PartsFlat, PartFlat, Sorted;
    assert parts == parts[..i] + ([parts[i]] + parts[i + 1..]);
    PartsFlatAppend(parts[..i], [parts[i]] + parts[i + 1..]);
    PartsFlatAppend([parts[i]], parts[i + 1..]);
    OnePart(parts[i]);
    SortedAppend(PartsFlat(parts[..i]), PartFlat(parts[i]) + PartsFlat(parts[i + 1..]));
    SortedAppend(PartFlat(parts[i]), PartsFlat(parts[i + 1..]));
  }

  /** Parts with the pair at `low` replaced by `p`. */
  function Replacing(parts: seq<Part>, low: nat, p: Part): seq<Part>
    requires low + 1 < |parts|
  {
    parts[..low] + [p] + parts[low + 2..]
  }

  lemma {:induction false} ReplacingItems(parts: seq<Part>, low: nat, p: Part)
    requires low + 1 < |parts|
    ensures ChildrenOf(Replacing(parts, low, p)) == ChildrenOf(parts)[..low] + [ChildOf(p)] + ChildrenOf(parts)[low + 2..]
  {
  }

  lemma {:induction false} ReplacingTransforms(s: State, s': State, parts: seq<Part>, low: nat, p: Part, height: nat)
    requires low + 1 < |parts| && Apart(s) && PartsShaped(parts, height) && PartsLive(s, parts)
    requires Transformed(s, [parts[low], parts[low + 1]], s', [p], height)
    ensures Transformed(s, parts, s', Replacing(parts, low, p), height)
  {
    hide Transformed, PartLive, PartShaped;
    var pre, mid, post := parts[..low], [parts[low], parts[low + 1]], parts[low + 2..];
    assert parts == pre + mid + post;
    TransformMiddle(s, s', pre, mid, [p], post, height);
  }

  /** Dissolving the left then the right of a pair. */
  lemma {:induction false} PairDissolved(s: State, a: Part, s1: State, a': Part, b: Part, s2: State, b': Part, height: nat)
    requires Apart(s) && PartsShaped([a, b], height) && PartsLive(s, [a, b])
    requires Transformed(s, [a], s1, [a'], height) && Transformed(s1, [b], s2, [b'], height)
    ensures Transformed(s, [a, b], s2, [a', b'], height)
  {
    hide PartLive, PartShaped, PartsFlat, PartsPages, LedgerOf, Balanced, Grown, Apart;
    assert PartLive(s, [a, b][0]) && PartLive(s, [a, b][1]);
    assert PartShaped([a, b][0], height) && PartShaped([a, b][1], height);
    TransformMiddle(s, s1, [], [a], [a'], [b], height);
    assert [] + [a] + [b] == [a, b] && [] + [a'] + [b] == [a', b];
    TransformMiddle(s1, s2, [a'], [b], [b'], [], height);
    assert [a'] + [b] + [] == [a', b] && [a'] + [b'] + [] == [a', b'];
    TransformedTransitive(s, [a, b], s1, [a', b], s2, [a', b'], height);
  }

  lemma {:induction false} DropTransforms(s: State, parts: seq<Part>, s': State, kept: seq<Part>, p: Part, height: nat)
    requires Transformed(s, parts, s', kept, height) && !p.Kept? && RunEmpty(RunOf(p))
    ensures Transformed(s, parts + [p], s', kept, height)
  {
    hide PartsLive, LedgerOf, Grown, Apart, PartsShaped, PartsFlat, PartsPages, PartFlat, PartPages;
    DropEmpty(p);
    OnePart(p);
    PartsFlatAppend(parts, [p]);
    PartsPagesAppend(parts, [p]);
  }

  lemma {:induction false} TakeTransforms(s: State, parts: seq<Part>, kept: seq<Part>, p: Part, height: nat)
    requires Apart(s) && Transformed(s, parts, s, kept, height) && PartLive(s, p) && PartShaped(p, height)
    requires PartsLive(s, parts) && PartsShaped(parts, height)
    ensures Transformed(s, parts + [p], s, kept + [p], height)
  {
    hide PartLive, PartShaped, PartsFlat, PartsPages, LedgerOf, Balanced, Grown, Apart;
    TransformMiddle(s, s, [], parts, kept, [p], height);
    assert [] + parts + [p] == parts + [p] && [] + kept + [p] == kept + [p];
  }

  lemma {:induction false} TransformedFacts(s: State, before: seq<Part>, s': State, after: seq<Part>, height: nat)
    requires Transformed(s, before, s', after, height)
    ensures Apart(s') && Grown(s, s') && PartsFlat(after) == PartsFlat(before) && PartsShaped(after, height) && PartsLive(s', after)
  {
  }

  lemma {:induction false} PartsAt(s: State, parts: seq<Part>, i: nat, height: nat)
    requires i < |parts| && PartsLive(s, parts) && PartsShaped(parts, height)
    ensures PartLive(s, parts[i]) && PartShaped(parts[i], height)
  {
  }

  lemma {:induction false} PartsPair(s: State, parts: seq<Part>, i: nat, height: nat)
    requires i + 1 < |parts| && PartsLive(s, parts) && PartsShaped(parts, height)
    ensures PartsLive(s, [parts[i], parts[i + 1]]) && PartsShaped([parts[i], parts[i + 1]], height)
  {
  }

  lemma {:induction false} PackedAllThen(s: State, before: seq<Part>, s1: State, after: seq<Part>, s2: State, ts: seq<Tree>, height: nat)
    requires Transformed(s, before, s1, after, height) && PackedAll(s1, after, s2, ts, height)
    ensures PackedAll(s, before, s2, ts, height)
  {
    hide PartsFlat, PartsPages, PartLive, PartsLive, LedgerOf, Balanced, Grown, Apart, FlatAll, PagesOfAll, ShapedAll, PartsShaped;
    GrownTransitive(s, s1, s2);
    BalancedTransitive(PartsPages(before), LedgerOf(s), PartsPages(after), LedgerOf(s1), PagesOfAll(ts), LedgerOf(s2));
  }
}
