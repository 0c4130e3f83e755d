/** How full the pages are that rewriting leaves: which siblings are merged, and what is packed into one page. */
module NodeFilling {
  import opened Keys
  import opened Pages
  import opened MergeSpec
  import opened Parts
  import opened WriterState
  import opened Normalizing
  import opened PathCopying

  /** The children of which anything is left. */
  ghost function NonEmpty(parts: seq<Part>): seq<Part> {
    if parts == [] then []
    else
      var n := |parts| - 1;
      NonEmpty(parts[..n]) + if PartFlat(parts[n]) != [] then [parts[n]] else []
  }

  /** `p` is what two neighbours are merged into because one of them is underfull. */
  ghost predicate JoinedOf(a: Part, b: Part, p: Part) {
    (Underfull(ChildOf(a)) || Underfull(ChildOf(b))) && !p.Kept? && PartFlat(p) == PartFlat(a) + PartFlat(b)
  }

  /** `p` is one child, or what such merges, one after the other, made of several. */
  ghost predicate Joins(parts: seq<Part>, p: Part)
    decreases |parts|
  {
    || (|parts| == 1 && p == parts[0])
    || exists k: nat, a: Part, b: Part :: 0 < k < |parts| && Joins(parts[..k], a) && Joins(parts[k..], b) && JoinedOf(a, b, p)
  }

  ghost predicate JoinsAt(parts: seq<Part>, runs: seq<Part>, cuts: seq<nat>, i: nat)
    requires i < |runs| && i + 1 < |cuts|
  {
    cuts[i] < cuts[i + 1] <= |parts| && Joins(parts[cuts[i]..cuts[i + 1]], runs[i])
  }

  /** Each of the `runs` is made of its own range of the children, and the ranges are all of them. */
  ghost predicate JoinsAll(parts: seq<Part>, runs: seq<Part>, cuts: seq<nat>) {
    && |cuts| == |runs| + 1 && cuts[0] == 0 && cuts[|runs|] == |parts|
    && forall i :: 0 <= i < |runs| ==> JoinsAt(parts, runs, cuts, i)
  }

  /** A kept child stays where it is, and what fits one page goes into one page. */
  ghost predicate PackedOne(p: Part, ts: seq<Tree>) {
    if p.Kept? then ts == [p.tree]
    else RunCost(RunOf(p)) <= NODE_CAPACITY && PartFlat(p) != [] ==> |ts| == 1 && PartUnder(ts[0]) == p
  }

  ghost function Concat(packs: seq<seq<Tree>>): seq<Tree> {
    if packs == [] then [] else Concat(packs[..|packs| - 1]) + packs[|packs| - 1]
  }

  ghost predicate Filled(runs: seq<Part>, packs: seq<seq<Tree>>, ts: seq<Tree>) {
    |packs| == |runs| && ts == Concat(packs) && forall i :: 0 <= i < |runs| ==> PackedOne(runs[i], packs[i])
  }

  /** No two children are left of which one could have been merged because it is underfull. */
  ghost predicate TidiedBy(parts: seq<Part>, ts: seq<Tree>, runs: seq<Part>, cuts: seq<nat>, packs: seq<seq<Tree>>) {
    && JoinsAll(NonEmpty(parts), runs, cuts) && Filled(runs, packs, ts)
    && (|runs| < 2 || forall i :: 0 <= i < |runs| ==> !Underfull(ChildOf(runs[i])))
  }

  ghost predicate Tidied(parts: seq<Part>, ts: seq<Tree>) {
    exists runs, cuts, packs :: TidiedBy(parts, ts, runs, cuts, packs)
  }

  /** The children of a rewritten page: each overridden by its own mutations, then tidied. */
  ghost predicate Settled(t: Tree, muts: seq<Mutation>, ps: seq<Planned>, part: Part) {
    t.Node? ==> part.InnerPart? && exists at, parts :: KidsRouted(t.kids, muts, ps, at, parts, |t.kids|) && Tidied(parts, part.kids)
  }

  // ---------- merging ----------

  ghost function UpTo(n: nat): (r: seq<nat>)
    ensures |r| == n + 1 && forall i :: 0 <= i <= n ==> r[i] == i
  {
    seq(n + 1, i => i)
  }

  lemma {:induction false} JoinsStart(parts: seq<Part>)
    ensures JoinsAll(parts, parts, UpTo(|parts|))
  {
    forall i | 0 <= i < |parts| ensures JoinsAt(parts, parts, UpTo(|parts|), i) {
      assert parts[i..i + 1] == [parts[i]];
    }
  }

  lemma {:induction false} JoinMore(parts: seq<Part>, runs: seq<Part>, cuts: seq<nat>, low: nat, p: Part)
    requires JoinsAll(parts, runs, cuts) && low + 1 < |runs| && JoinedOf(runs[low], runs[low + 1], p)
    ensures |cuts| == |runs| + 1 && JoinsAll(parts, Replacing(runs, low, p), cuts[..low + 1] + cuts[low + 2..])
  {
    hide Joins, JoinedOf;
    assert JoinsAt(parts, runs, cuts, low) && JoinsAt(parts, runs, cuts, low + 1);
    PairJoins(parts, cuts[low], cuts[low + 1], cuts[low + 2], runs[low], runs[low + 1], p);
    var after, cuts' := Replacing(runs, low, p), cuts[..low + 1] + cuts[low + 2..];
    forall i | 0 <= i < |after| ensures JoinsAt(parts, after, cuts', i) {
      if i != low {
        assert JoinsAt(parts, runs, cuts, if i < low then i else i + 1);
      }
    }
  }

  lemma {:induction false} PairJoins(parts: seq<Part>, a: nat, b: nat, c: nat, p: Part, q: Part, j: Part)
    requires a < b < c <= |parts| && Joins(parts[a..b], p) && Joins(parts[b..c], q) && JoinedOf(p, q, j)
    ensures Joins(parts[a..c], j)
  {
    hide JoinedOf;
    var all := parts[a..c];
    assert all[..b - a] == parts[a..b] && all[b - a..] == parts[b..c];
  }

  // ---------- packing ----------

  lemma {:induction false} FilledMore(runs: seq<Part>, i: nat, packs: seq<seq<Tree>>, ts: seq<Tree>, us: seq<Tree>)
    requires i < |runs| && Filled(runs[..i], packs, ts) && PackedOne(runs[i], us)
    ensures Filled(runs[..i + 1], packs + [us], ts + us)
  {
    hide PackedOne;
    assert (packs + [us])[..|packs|] == packs;
    assert runs[..i + 1] == runs[..i] + [runs[i]];
  }

  lemma {:induction false} NonEmptyMore(parts: seq<Part>, i: nat)
    requires i < |parts|
    ensures NonEmpty(parts[..i + 1]) == NonEmpty(parts[..i]) + if PartFlat(parts[i]) != [] then [parts[i]] else []
  {
    hide PartFlat;
    assert parts[..i + 1][..i] == parts[..i];
  }

  // ---------- how full pages are ----------

  function PageCost(t: Tree): nat {
    match t case Leaf(_, es) => LeafCost(CellsOf(es)) case Node(_, _, kids) => InternalCost(ParentCells(kids))
  }

  /**
   * Of a rewritten page's children none is a new page less than minimally filled, unless it is
   * the only one or was split off a run too large for a page.
   */
  lemma {:induction false} NewPagesAreFilled(parts: seq<Part>, ts: seq<Tree>, runs: seq<Part>, cuts: seq<nat>, packs: seq<seq<Tree>>, i: nat)
    requires TidiedBy(parts, ts, runs, cuts, packs) && 2 <= |runs| && i < |runs| && !runs[i].Kept? && PartFlat(runs[i]) != []
    ensures RunCost(RunOf(runs[i])) <= NODE_CAPACITY ==> |packs[i]| == 1 && MIN_NODE_FILL <= PageCost(packs[i][0]) <= NODE_CAPACITY
  {
    hide Joins, LeafCost, InternalCost, PartFlat, Concat, CellsOf, ParentCells;
    assert !Underfull(ChildOf(runs[i]));
    if RunCost(RunOf(runs[i])) <= NODE_CAPACITY {
      assert PackedOne(runs[i], packs[i]);
      PageOfRun(packs[i][0]);
    }
  }

  lemma {:induction false} PageOfRun(t: Tree)
    ensures !PartUnder(t).Kept? && RunCost(RunOf(PartUnder(t))) == PageCost(t)
  {
  }
}
