/** Splitting an oversized run into pages, and routing sorted mutations to children. */
module Split {
  import opened Keys
  import opened Pages
  import opened MergeSpec

  function Sum(xs: seq<nat>): nat {
    if xs == [] then 0 else xs[0] + Sum(xs[1..])
  }

  lemma {:induction false} SumAppend(a: seq<nat>, b: seq<nat>)
    ensures Sum(a + b) == Sum(a) + Sum(b)
    decreases |a|
  {
    if a == [] {
      assert a + b == b;
    } else {
      assert (a + b)[1..] == a[1..] + b;
      SumAppend(a[1..], b);
    }
  }

  ghost predicate EachFits(costs: seq<nat>) {
    forall i :: 0 <= i < |costs| ==> costs[i] <= NODE_CAPACITY
  }

  /** `groups` cuts `costs` into consecutive nonempty groups; if `fit`, each group fits a page. */
  ghost predicate Cuts(costs: seq<nat>, groups: seq<nat>, fit: bool) {
    if groups == [] then costs == []
    else
      && 0 < groups[0] <= |costs|
      && (fit ==> Sum(costs[..groups[0]]) <= NODE_CAPACITY)
      && Cuts(costs[groups[0]..], groups[1..], fit)
  }

  lemma {:induction false} CutsSnoc(costs: seq<nat>, groups: seq<nat>, tail: seq<nat>, fit: bool)
    requires Cuts(costs, groups, fit)
    requires |tail| > 0 && (fit ==> Sum(tail) <= NODE_CAPACITY)
    ensures Cuts(costs + tail, groups + [|tail|], fit)
    decreases |groups|
  {
    if groups == [] {
      assert costs + tail == tail;
      assert tail[..|tail|] == tail && tail[|tail|..] == [];
      assert (groups + [|tail|])[1..] == [];
    } else {
      var g := groups[0];
      CutsSnoc(costs[g..], groups[1..], tail, fit);
      assert (costs + tail)[..g] == costs[..g];
      assert (costs + tail)[g..] == costs[g..] + tail;
      assert (groups + [|tail|])[1..] == groups[1..] + [|tail|];
    }
  }

  function Pow2(n: nat): nat {
    if n == 0 then 1 else 2 * Pow2(n - 1)
  }

  function DivCeil(a: nat, b: nat): nat
    requires b > 0
  {
    (a + b - 1) / b
  }

  lemma {:induction false} CutsEmpty(fit: bool)
    ensures Cuts([], [], fit) && Sum([]) == 0
  {
  }

  lemma {:induction false} SumSnoc(costs: seq<nat>, from: nat, to: nat)
    requires from <= to < |costs|
    ensures Sum(costs[from..to + 1]) == Sum(costs[from..to]) + costs[to]
  {
    SumAppend(costs[from..to], [costs[to]]);
    assert costs[from..to] + [costs[to]] == costs[from..to + 1];
    assert Sum([costs[to]]) == costs[to] + Sum([]);
  }

  lemma {:induction false} PagesPositive(total: nat)
    requires total > NODE_CAPACITY
    ensures DivCeil(total, NODE_CAPACITY) > 0
  {
  }

  /** Cells of which three fit a page. */
  ghost predicate EachSmall(costs: seq<nat>) {
    forall i :: 0 <= i < |costs| ==> costs[i] <= NODE_CAPACITY / 3
  }

  /** The target that splitting aims at is more than half a page. */
  lemma {:induction false} TargetIsLarge(total: nat, pages: nat, target: nat)
    requires total > NODE_CAPACITY && pages == DivCeil(total, NODE_CAPACITY) && pages > 0 && target == DivCeil(total, pages)
    ensures 2 * target > NODE_CAPACITY
  {
    assert pages * NODE_CAPACITY < total + NODE_CAPACITY;
    var rounded := total + pages - 1;
    assert target == rounded / pages;
    DivRemainder(rounded, pages);
    assert target * pages >= total;
    assert 2 * target * pages == 2 * (target * pages);
    if 2 * target <= NODE_CAPACITY {
      TimesAtMost(2 * target, NODE_CAPACITY, pages);
    }
  }

  lemma {:induction false} DivRemainder(a: nat, b: nat)
    requires b > 0
    ensures (a / b) * b > a - b
  {
    assert a == (a / b) * b + a % b;
  }

  lemma {:induction false} TimesAtMost(a: nat, b: nat, c: nat)
    requires a <= b
    ensures a * c <= b * c
  {
  }

  /** Every group fits a page as long as every single cell does, and small cells go at least two to a group but the last. */
  method SplitGroups(costs: seq<nat>) returns (groups: seq<nat>)
    requires costs != []
    ensures Cuts(costs, groups, EachFits(costs))
    ensures EachSmall(costs) ==> 2 * |groups| <= |costs| + 1
    ensures Sum(costs) <= NODE_CAPACITY ==> groups == [|costs|]
  {
    hide Sum, Cuts, DivCeil;
    var total := Total(costs);
    CutsEmpty(EachFits(costs));
    if total <= NODE_CAPACITY {
      CutsSnoc([], [], costs, EachFits(costs));
      assert [] + costs == costs && [] + [|costs|] == [|costs|];
      return [|costs|];
    }
    var pages := DivCeil(total, NODE_CAPACITY);
    assert pages > 0 by { PagesPositive(total); }
    var target := DivCeil(total, pages);
    TargetIsLarge(total, pages, target);
    ghost var small := EachSmall(costs);
    groups := [];
    ghost var done := 0;
    var current, count, index := 0, 0, 0;
    ghost var fit := EachFits(costs);
    assert costs[..0] == [] && costs[0..0] == [];
    while index < |costs|
      invariant done + count == index <= |costs|
      invariant count == 0 ==> index == 0 && current == 0
      invariant current == Sum(costs[done..index])
      invariant Cuts(costs[..done], groups, fit)
      invariant fit ==> current <= NODE_CAPACITY
      invariant small ==> 2 * |groups| <= done && (count == 1 ==> current <= NODE_CAPACITY / 3)
    {
      var cost := costs[index];
      if count > 0 && (current + cost > NODE_CAPACITY || current + cost / 2 > target) {
        CutsSnoc(costs[..done], groups, costs[done..index], fit);
        assert costs[..done] + costs[done..index] == costs[..index];
        groups := groups + [count];
        done := index;
        current, count := 0, 0;
        assert costs[done..index] == [];
      }
      SumSnoc(costs, done, index);
      current, count, index := current + cost, count + 1, index + 1;
    }
    if count > 0 {
      CutsSnoc(costs[..done], groups, costs[done..index], fit);
      assert costs[..done] + costs[done..index] == costs;
      groups := groups + [count];
    }
  }

  method Total(costs: seq<nat>) returns (total: nat)
    ensures total == Sum(costs)
  {
    total := 0;
    var i := 0;
    while i < |costs|
      invariant i <= |costs| && total == Sum(costs[..i])
    {
      SumSnoc(costs, 0, i);
      total, i := total + costs[i], i + 1;
    }
    assert costs[..i] == costs;
  }

  function LeafCosts(cells: seq<LeafCell>): (r: seq<nat>)
    ensures |r| == |cells|
  {
    seq(|cells|, i requires 0 <= i < |cells| => LeafCellCost(cells[i]))
  }

  function InternalCosts(cells: seq<InternalCell>): (r: seq<nat>)
    ensures |r| == |cells|
  {
    seq(|cells|, i requires 0 <= i < |cells| => InternalCellCost(cells[i]))
  }

  lemma {:induction false} LeafCostIsSum(cells: seq<LeafCell>)
    ensures LeafCost(cells) == Sum(LeafCosts(cells))
    decreases |cells|
  {
    if cells != [] {
      LeafCostIsSum(cells[1..]);
      assert LeafCosts(cells)[1..] == LeafCosts(cells[1..]);
    }
  }

  lemma {:induction false} InternalCostIsSum(cells: seq<InternalCell>)
    ensures InternalCost(cells) == Sum(InternalCosts(cells))
    decreases |cells|
  {
    if cells != [] {
      InternalCostIsSum(cells[1..]);
      assert InternalCosts(cells)[1..] == InternalCosts(cells[1..]);
    }
  }

  // ---------- routing ----------

  /** First mutation at or after `start` whose key is not below `separator`. */
  method PartitionPoint(muts: seq<Mutation>, start: nat, separator: Key) returns (r: nat)
    requires start <= |muts| && MutationsSorted(muts)
    ensures start <= r <= |muts|
    ensures forall i :: start <= i < r ==> Less(muts[i].key, separator)
    ensures forall i :: r <= i < |muts| ==> !Less(muts[i].key, separator)
  {
    var lo, hi := start, |muts|;
    while lo < hi
      invariant start <= lo <= hi <= |muts|
      invariant forall i :: start <= i < lo ==> Less(muts[i].key, separator)
      invariant forall i :: hi <= i < |muts| ==> !Less(muts[i].key, separator)
    {
      var mid := lo + (hi - lo) / 2;
      if Less(muts[mid].key, separator) {
        forall i | start <= i <= mid ensures Less(muts[i].key, separator) {
          if i < mid { LessTransitive(muts[i].key, muts[mid].key, separator); }
        }
        lo := mid + 1;
      } else {
        forall i | mid <= i < |muts| ensures !Less(muts[i].key, separator) {
          if i > mid && Less(muts[i].key, separator) { LessTransitive(muts[mid].key, muts[i].key, separator); }
        }
        hi := mid;
      }
    }
    r := lo;
  }

  /**
   * `ends` cuts the mutations among the children: child `i` takes the keys from its
   * own separator (the first child takes everything below too) up to the next one.
   */
  ghost predicate Routes(cells: seq<InternalCell>, muts: seq<Mutation>, ends: seq<nat>) {
    && |ends| == |cells|
    && (forall i :: 0 <= i < |ends| ==> ends[i] <= |muts|)
    && (forall i, j :: 0 <= i < j < |ends| ==> ends[i] <= ends[j])
    && (|ends| > 0 ==> ends[|ends| - 1] == |muts|)
    && (forall i, m :: 0 <= i < |ends| - 1 && 0 <= m < ends[i] ==> Less(muts[m].key, cells[i + 1].separator))
    && (forall i, m :: 0 <= i < |ends| - 1 && ends[i] <= m < |muts| ==> !Less(muts[m].key, cells[i + 1].separator))
  }

  ghost predicate SeparatorsSorted(cells: seq<InternalCell>) {
    forall i, j :: 0 <= i < j < |cells| ==> Less(cells[i].separator, cells[j].separator)
  }

  method RouteMutations(cells: seq<InternalCell>, muts: seq<Mutation>) returns (ends: seq<nat>)
    requires MutationsSorted(muts) && SeparatorsSorted(cells)
    ensures Routes(cells, muts, ends)
  {
    hide Less;
    ends := [];
    var start := 0;
    while |ends| < |cells|
      invariant |ends| <= |cells| && start <= |muts|
      invariant start == if ends == [] then 0 else ends[|ends| - 1]
      invariant |ends| == |cells| && |ends| > 0 ==> start == |muts|
      invariant forall i :: 0 <= i < |ends| ==> ends[i] <= start
      invariant forall i, j :: 0 <= i < j < |ends| ==> ends[i] <= ends[j]
      invariant forall i, m :: 0 <= i < |ends| && i + 1 < |cells| && 0 <= m < ends[i] ==> Less(muts[m].key, cells[i + 1].separator)
      invariant forall i, m :: 0 <= i < |ends| && i + 1 < |cells| && ends[i] <= m < |muts| ==> !Less(muts[m].key, cells[i + 1].separator)
    {
      var index := |ends|;
      var end := |muts|;
      if index + 1 < |cells| {
        end := PartitionPoint(muts, start, cells[index + 1].separator);
        forall m | 0 <= m < end ensures Less(muts[m].key, cells[index + 1].separator) {
          if m < start {
            assert Less(muts[m].key, cells[index].separator);
            LessTransitive(muts[m].key, cells[index].separator, cells[index + 1].separator);
          }
        }
      }
      ends := ends + [end];
      start := end;
    }
  }
}
