/** The sorted merge that a mutation batch means, and its reading as a map override. */
module MergeSpec {
  import opened Keys
  import opened Pages

  /** A mutation whose new cell, if any, has been written out. */
  datatype Planned = Planned(key: Key, entry: Option<Entry>)

  ghost predicate WellKeyed(p: Planned) {
    p.entry.Some? ==> p.entry.value.cell.key == p.key
  }

  ghost predicate PlannedSorted(ps: seq<Planned>) {
    && (forall i :: 0 <= i < |ps| ==> WellKeyed(ps[i]))
    && (forall i, j :: 0 <= i < j < |ps| ==> Less(ps[i].key, ps[j].key))
  }

  ghost predicate MutationsSorted(ms: seq<Mutation>) {
    forall i, j :: 0 <= i < j < |ms| ==> Less(ms[i].key, ms[j].key)
  }

  /** Values a cell can hold. */
  predicate Storable(m: Mutation) {
    m.value.Some? && m.value.value.Stored? ==> |m.value.value.bytes| <= MAX_STORED_VALUE_BYTES
  }

  ghost predicate AllStorable(ms: seq<Mutation>) {
    forall i :: 0 <= i < |ms| ==> Storable(ms[i])
  }

  /** What the cell of a mutation takes up: long values leave the page, bodies by reference stay out of it. */
  function MutationCost(m: Mutation): nat {
    match m.value
    case None => 0
    case Some(Stored(bytes)) => 20 + |m.key| + (if |bytes| <= INLINE_VALUE_LIMIT then |bytes| else 0) + 2
    case Some(ByReference(_, prefix)) => 20 + |m.key| + 8 + |prefix| + 2
  }

  /** The cell that a value is written as: of its cost, and external exactly for a reference. */
  predicate Written(c: LeafCell, m: Mutation) {
    && LeafCellCost(c) == MutationCost(m)
    && (m.value.Some? && m.value.value.ByReference? ==> c.External? && c.reference == m.value.value.reference)
    && (m.value.Some? && m.value.value.Stored? ==> !c.External?)
  }

  /** `ps` plans `ms` one by one: same keys, same values, cells that go with them. */
  ghost predicate Plans(ps: seq<Planned>, ms: seq<Mutation>) {
    && |ps| == |ms|
    && forall i :: 0 <= i < |ps| ==>
         && ps[i].key == ms[i].key
         && (ps[i].entry.Some? <==> ms[i].value.Some?)
         && (ps[i].entry.Some? ==> ps[i].entry.value.val == ms[i].value.value && Written(ps[i].entry.value.cell, ms[i]))
  }

  function PutOf(p: Planned): seq<Entry> {
    if p.entry.Some? then [p.entry.value] else []
  }

  /** Overrides sorted entries by sorted planned mutations. */
  function Merge(es: seq<Entry>, ps: seq<Planned>): seq<Entry>
    decreases |es| + |ps|
  {
    if ps == [] then es
    else if es == [] then PutOf(ps[0]) + Merge([], ps[1..])
    else if Less(es[0].cell.key, ps[0].key) then [es[0]] + Merge(es[1..], ps)
    else if es[0].cell.key == ps[0].key then PutOf(ps[0]) + Merge(es[1..], ps[1..])
    else PutOf(ps[0]) + Merge(es, ps[1..])
  }

  /** The entries that a merge replaces or deletes. */
  function Replaced(es: seq<Entry>, ps: seq<Planned>): seq<Entry>
    decreases |es| + |ps|
  {
    if ps == [] || es == [] then []
    else if Less(es[0].cell.key, ps[0].key) then Replaced(es[1..], ps)
    else if es[0].cell.key == ps[0].key then [es[0]] + Replaced(es[1..], ps[1..])
    else Replaced(es, ps[1..])
  }

  function Puts(ps: seq<Planned>): seq<Entry> {
    if ps == [] then [] else PutOf(ps[0]) + Puts(ps[1..])
  }

  // ---------- splitting a merge at a key ----------

  ghost predicate EntriesBefore(entries: seq<Entry>, k: Key) {
    forall i :: 0 <= i < |entries| ==> Less(entries[i].cell.key, k)
  }

  ghost predicate EntriesFrom(entries: seq<Entry>, k: Key) {
    forall i :: 0 <= i < |entries| ==> !Less(entries[i].cell.key, k)
  }

  ghost predicate PlannedBefore(ps: seq<Planned>, k: Key) {
    forall i :: 0 <= i < |ps| ==> Less(ps[i].key, k)
  }

  ghost predicate PlannedFrom(ps: seq<Planned>, k: Key) {
    forall i :: 0 <= i < |ps| ==> !Less(ps[i].key, k)
  }

  lemma {:induction false} Separated(x: Key, k: Key, y: Key)
    requires Less(x, k) && !Less(y, k)
    ensures Less(x, y) && !Less(y, x) && x != y
  {
    KeyOrder();
  }

  lemma {:induction false} MergeKeep(e: Entry, es: seq<Entry>, ps: seq<Planned>)
    requires ps != [] ==> Less(e.cell.key, ps[0].key)
    ensures Merge([e] + es, ps) == [e] + Merge(es, ps)
    ensures Replaced([e] + es, ps) == Replaced(es, ps)
  {
    assert ([e] + es)[1..] == es;
  }

  lemma {:induction false} MergeReplace(e: Entry, es: seq<Entry>, p: Planned, ps: seq<Planned>)
    requires e.cell.key == p.key
    ensures Merge([e] + es, [p] + ps) == PutOf(p) + Merge(es, ps)
    ensures Replaced([e] + es, [p] + ps) == [e] + Replaced(es, ps)
  {
    LessIrreflexive(p.key);
    assert ([e] + es)[1..] == es && ([p] + ps)[1..] == ps;
  }

  lemma {:induction false} MergeInsert(es: seq<Entry>, p: Planned, ps: seq<Planned>)
    requires es != [] ==> !Less(es[0].cell.key, p.key) && es[0].cell.key != p.key
    ensures Merge(es, [p] + ps) == PutOf(p) + Merge(es, ps)
    ensures Replaced(es, [p] + ps) == Replaced(es, ps)
  {
    assert ([p] + ps)[1..] == ps;
  }

  /** A merge splits at any key that splits both of its arguments. */
  lemma {:induction false} MergeSplits(a: seq<Entry>, b: seq<Entry>, p: seq<Planned>, q: seq<Planned>, k: Key)
    requires EntriesBefore(a, k) && EntriesFrom(b, k)
    requires PlannedBefore(p, k) && PlannedFrom(q, k)
    ensures Merge(a + b, p + q) == Merge(a, p) + Merge(b, q)
    ensures Replaced(a + b, p + q) == Replaced(a, p) + Replaced(b, q)
    decreases |a| + |p|
  {
    hide Less, Merge, Replaced, PutOf;
    if p == [] {
      assert p + q == q;
      MergeSplitsEntries(a, b, q, k);
    } else {
      var p0, p' := p[0], p[1..];
      assert p == [p0] + p' && p + q == [p0] + (p' + q);
      if a == [] {
        assert a + b == b;
        MergeSplits(a, b, p', q, k);
        if b != [] {
          Separated(p0.key, k, b[0].cell.key);
        }
        MergeInsert(b, p0, p' + q);
        MergeInsert(a, p0, p');
      } else {
        var a0, a' := a[0], a[1..];
        assert a == [a0] + a' && a + b == [a0] + (a' + b);
        if Less(a0.cell.key, p0.key) {
          MergeSplits(a', b, p, q, k);
          MergeKeep(a0, a' + b, p + q);
          MergeKeep(a0, a', p);
        } else if a0.cell.key == p0.key {
          MergeSplits(a', b, p', q, k);
          MergeReplace(a0, a' + b, p0, p' + q);
          MergeReplace(a0, a', p0, p');
        } else {
          MergeSplits(a, b, p', q, k);
          MergeInsert(a + b, p0, p' + q);
          MergeInsert(a, p0, p');
        }
      }
    }
  }

  /** Entries below every planned key pass through unchanged. */
  lemma {:induction false} MergeSplitsEntries(a: seq<Entry>, b: seq<Entry>, q: seq<Planned>, k: Key)
    requires EntriesBefore(a, k) && PlannedFrom(q, k)
    ensures Merge(a + b, q) == Merge(a, []) + Merge(b, q)
    ensures Replaced(a + b, q) == Replaced(a, []) + Replaced(b, q)
    decreases |a|
  {
    assert Merge(a, []) == a && Replaced(a, []) == [];
    hide Less, Merge, Replaced;
    if a == [] {
      assert a + b == b;
    } else {
      var a0, a' := a[0], a[1..];
      assert a + b == [a0] + (a' + b);
      if q != [] {
        Separated(a0.cell.key, k, q[0].key);
      }
      MergeSplitsEntries(a', b, q, k);
      MergeNothing(a');
      MergeKeep(a0, a' + b, q);
    }
  }

  lemma {:induction false} MergeNothing(es: seq<Entry>)
    ensures Merge(es, []) == es && Replaced(es, []) == []
  {
  }

  // ---------- what a merge leaves ----------

  lemma {:induction false} MergeKeysFrom(es: seq<Entry>, ps: seq<Planned>, k: Key)
    requires forall i :: 0 <= i < |es| ==> Less(k, es[i].cell.key)
    requires forall i :: 0 <= i < |ps| ==> Less(k, ps[i].key) && WellKeyed(ps[i])
    ensures forall i :: 0 <= i < |Merge(es, ps)| ==> Less(k, Merge(es, ps)[i].cell.key)
    decreases |es| + |ps|
  {
    if ps == [] {
    } else if es == [] {
      MergeKeysFrom([], ps[1..], k);
    } else if Less(es[0].cell.key, ps[0].key) {
      MergeKeysFrom(es[1..], ps, k);
    } else if es[0].cell.key == ps[0].key {
      MergeKeysFrom(es[1..], ps[1..], k);
    } else {
      MergeKeysFrom(es, ps[1..], k);
    }
  }

  lemma {:induction false} ConsSorted(e: Entry, rest: seq<Entry>)
    requires Sorted(rest)
    requires forall i :: 0 <= i < |rest| ==> Less(e.cell.key, rest[i].cell.key)
    ensures Sorted([e] + rest)
  {
  }

  lemma {:induction false} MergeSorted(es: seq<Entry>, ps: seq<Planned>)
    requires Sorted(es) && PlannedSorted(ps)
    ensures Sorted(Merge(es, ps))
    decreases |es| + |ps|
  {
    KeyOrder();
    if ps == [] {
    } else if es == [] {
      MergeSorted([], ps[1..]);
      MergeKeysFrom([], ps[1..], ps[0].key);
      MergeStepSorted(ps[0], Merge([], ps[1..]));
    } else if Less(es[0].cell.key, ps[0].key) {
      MergeSorted(es[1..], ps);
      MergeKeysFrom(es[1..], ps, es[0].cell.key);
      ConsSorted(es[0], Merge(es[1..], ps));
    } else if es[0].cell.key == ps[0].key {
      MergeSorted(es[1..], ps[1..]);
      MergeKeysFrom(es[1..], ps[1..], ps[0].key);
      MergeStepSorted(ps[0], Merge(es[1..], ps[1..]));
    } else {
      MergeSorted(es, ps[1..]);
      MergeKeysFrom(es, ps[1..], ps[0].key);
      MergeStepSorted(ps[0], Merge(es, ps[1..]));
    }
  }

  lemma {:induction false} MergeStepSorted(p: Planned, rest: seq<Entry>)
    requires WellKeyed(p) && Sorted(rest)
    requires forall i :: 0 <= i < |rest| ==> Less(p.key, rest[i].cell.key)
    ensures Sorted(PutOf(p) + rest)
  {
    if p.entry.Some? {
      ConsSorted(p.entry.value, rest);
    }
  }

  lemma {:induction false} Balance(x: multiset<PageId>, a: multiset<PageId>, b: multiset<PageId>, c: multiset<PageId>, d: multiset<PageId>)
    requires a + b == c + d
    ensures (x + a) + b == (x + c) + d
    ensures (x + a) + b == c + (x + d)
    ensures a + (x + b) == (x + c) + d
  {
    forall p: PageId
      ensures ((x + a) + b)[p] == ((x + c) + d)[p] == (c + (x + d))[p] == (a + (x + b))[p]
    {
      assert (a + b)[p] == (c + d)[p];
    }
  }

  /** Overflow pages balance: merged plus replaced equals old plus new. */
  lemma {:induction false} MergeConservesChains(es: seq<Entry>, ps: seq<Planned>)
    ensures ChainPages(Merge(es, ps)) + ChainPages(Replaced(es, ps)) == ChainPages(es) + ChainPages(Puts(ps))
    decreases |es| + |ps|
  {
    if ps != [] {
      var rest := ps[1..];
      var put := ChainPages(PutOf(ps[0]));
      ChainPagesAppend(PutOf(ps[0]), Puts(rest));
      if es == [] {
        MergeConservesChains(es, rest);
        ChainPagesAppend(PutOf(ps[0]), Merge(es, rest));
        assert Replaced(es, ps) == [] && Replaced(es, rest) == [];
        Balance(put, ChainPages(Merge(es, rest)), ChainPages([]), ChainPages(es), ChainPages(Puts(rest)));
      } else {
        var chain, tail := multiset(es[0].chain), es[1..];
        assert ChainPages([es[0]]) == chain;
        if Less(es[0].cell.key, ps[0].key) {
          MergeConservesChains(tail, ps);
          ChainPagesAppend([es[0]], Merge(tail, ps));
          Balance(chain, ChainPages(Merge(tail, ps)), ChainPages(Replaced(tail, ps)), ChainPages(tail), ChainPages(Puts(ps)));
        } else if es[0].cell.key == ps[0].key {
          MergeConservesChains(tail, rest);
          ChainPagesAppend(PutOf(ps[0]), Merge(tail, rest));
          ChainPagesAppend([es[0]], Replaced(tail, rest));
          var m, r, o, n := ChainPages(Merge(tail, rest)), ChainPages(Replaced(tail, rest)), ChainPages(tail), ChainPages(Puts(rest));
          Balance(put, m, r, o, n);
          Balance(chain, put + m, r, o, put + n);
        } else {
          MergeConservesChains(es, rest);
          ChainPagesAppend(PutOf(ps[0]), Merge(es, rest));
          Balance(put, ChainPages(Merge(es, rest)), ChainPages(Replaced(es, rest)), ChainPages(es), ChainPages(Puts(rest)));
        }
      }
    }
  }

  // ---------- entries as a map ----------

  /** The map that sorted entries denote. */
  function MapOf(entries: seq<Entry>): (m: map<Key, Value>)
    ensures forall k :: k in m <==> exists i :: 0 <= i < |entries| && entries[i].cell.key == k
  {
    if entries == [] then map[]
    else
      var m := MapOf(entries[1..])[entries[0].cell.key := entries[0].val];
      assert forall i :: 1 <= i < |entries| ==> entries[i] == entries[1..][i - 1];
      m
  }

  /** Override of a map by mutations, the last binding of a key winning. */
  function Override(m: map<Key, Value>, ms: seq<Mutation>): map<Key, Value> {
    if ms == [] then m
    else
      var last := ms[|ms| - 1];
      var rest := Override(m, ms[..|ms| - 1]);
      if last.value.Some? then rest[last.key := last.value.value] else rest - {last.key}
  }

  lemma {:induction false} MapOfAt(entries: seq<Entry>, i: nat)
    requires Sorted(entries) && i < |entries|
    ensures entries[i].cell.key in MapOf(entries) && MapOf(entries)[entries[i].cell.key] == entries[i].val
    decreases |entries|
  {
    KeyOrder();
    if i > 0 {
      MapOfAt(entries[1..], i - 1);
    }
  }

  lemma {:induction false} OverrideAt(m: map<Key, Value>, ms: seq<Mutation>, k: Key)
    requires MutationsSorted(ms)
    ensures (forall i :: 0 <= i < |ms| ==> ms[i].key != k) ==>
              (k in Override(m, ms) <==> k in m) && (k in m ==> Override(m, ms)[k] == m[k])
    ensures forall i :: 0 <= i < |ms| && ms[i].key == k ==>
              (k in Override(m, ms) <==> ms[i].value.Some?) &&
              (ms[i].value.Some? ==> Override(m, ms)[k] == ms[i].value.value)
    decreases |ms|
  {
    hide Less;
    KeyOrder();
    if ms != [] {
      OverrideAt(m, ms[..|ms| - 1], k);
    }
  }

  /** Every entry of a merge is a planned put or an untouched old entry. */
  ghost predicate MergeSource(es: seq<Entry>, ps: seq<Planned>, e: Entry) {
    || (exists i :: 0 <= i < |ps| && ps[i].entry == Some(e))
    || (e in es && forall i :: 0 <= i < |ps| ==> ps[i].key != e.cell.key)
  }

  lemma {:induction false} MergeEntries(es: seq<Entry>, ps: seq<Planned>, e: Entry)
    requires Sorted(es) && PlannedSorted(ps)
    ensures e in Merge(es, ps) <==> MergeSource(es, ps, e)
    decreases |es| + |ps|
  {
    KeyOrder();
    if ps == [] {
    } else if es == [] {
      MergeEntries([], ps[1..], e);
      PlannedStep(ps, e);
    } else if Less(es[0].cell.key, ps[0].key) {
      MergeEntries(es[1..], ps, e);
      assert e in es <==> e == es[0] || e in es[1..];
    } else if es[0].cell.key == ps[0].key {
      MergeEntries(es[1..], ps[1..], e);
      PlannedStep(ps, e);
      assert e in es <==> e == es[0] || e in es[1..];
    } else {
      MergeEntries(es, ps[1..], e);
      PlannedStep(ps, e);
    }
  }

  lemma {:induction false} PlannedStep(ps: seq<Planned>, e: Entry)
    requires ps != []
    ensures (exists i :: 0 <= i < |ps| && ps[i].entry == Some(e)) <==>
            e in PutOf(ps[0]) || (exists i :: 0 <= i < |ps[1..]| && ps[1..][i].entry == Some(e))
    ensures (forall i :: 0 <= i < |ps| ==> ps[i].key != e.cell.key) <==>
            ps[0].key != e.cell.key && (forall i :: 0 <= i < |ps[1..]| ==> ps[1..][i].key != e.cell.key)
  {
    assert forall i :: 1 <= i < |ps| ==> ps[i] == ps[1..][i - 1];
  }

  /** Merging sorted entries is overriding the map they denote. */
  lemma {:induction false} MergeIsOverride(es: seq<Entry>, ps: seq<Planned>, ms: seq<Mutation>)
    requires Sorted(es) && PlannedSorted(ps) && MutationsSorted(ms) && Plans(ps, ms)
    ensures MapOf(Merge(es, ps)) == Override(MapOf(es), ms)
  {
    var merged := Merge(es, ps);
    MergeSorted(es, ps);
    forall k: Key
      ensures k in MapOf(merged) <==> k in Override(MapOf(es), ms)
      ensures k in MapOf(merged) ==> MapOf(merged)[k] == Override(MapOf(es), ms)[k]
    {
      OverrideAt(MapOf(es), ms, k);
      MergeAtKey(es, ps, ms, k);
    }
  }

  lemma {:induction false} MergeAtKey(es: seq<Entry>, ps: seq<Planned>, ms: seq<Mutation>, k: Key)
    requires Sorted(es) && PlannedSorted(ps) && MutationsSorted(ms) && Plans(ps, ms)
    requires Sorted(Merge(es, ps))
    ensures (forall i :: 0 <= i < |ms| ==> ms[i].key != k) ==>
              (k in MapOf(Merge(es, ps)) <==> k in MapOf(es)) &&
              (k in MapOf(es) ==> MapOf(Merge(es, ps))[k] == MapOf(es)[k])
    ensures forall i :: 0 <= i < |ms| && ms[i].key == k ==>
              (k in MapOf(Merge(es, ps)) <==> ms[i].value.Some?) &&
              (ms[i].value.Some? ==> MapOf(Merge(es, ps))[k] == ms[i].value.value)
  {
    hide Less, Merge, MapOf;
    var merged := Merge(es, ps);
    KeyOrder();
    if k in MapOf(merged) {
      var j :| 0 <= j < |merged| && merged[j].cell.key == k;
      MapOfAt(merged, j);
      MergeEntries(es, ps, merged[j]);
      if merged[j] in es {
        var n :| 0 <= n < |es| && es[n] == merged[j];
        MapOfAt(es, n);
      }
    }
    if k in MapOf(es) {
      var n :| 0 <= n < |es| && es[n].cell.key == k;
      MergeEntries(es, ps, es[n]);
      if es[n] in merged {
        var j :| 0 <= j < |merged| && merged[j] == es[n];
        MapOfAt(merged, j);
        MapOfAt(es, n);
      }
    }
    forall i | 0 <= i < |ms| && ms[i].key == k && ms[i].value.Some?
      ensures k in MapOf(merged) && MapOf(merged)[k] == ms[i].value.value
    {
      MergeEntries(es, ps, ps[i].entry.value);
      var j :| 0 <= j < |merged| && merged[j] == ps[i].entry.value;
      MapOfAt(merged, j);
    }
  }
}
