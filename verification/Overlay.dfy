/** Scanning a store through the staged writes of a transaction. */
module Overlay {
  import opened Keys
  import opened Pages

  datatype StoredValue = StoredValue(payload: Bytes, expiresAt: Option<nat>)

  datatype MutationValue = Put(stored: StoredValue) | Delete

  datatype Row = Row(key: Key, stored: StoredValue)

  /** One entry of the ordered map of staged mutations. */
  datatype Staged = Staged(key: Key, mutation: MutationValue)

  predicate Expired(v: StoredValue, now: nat) {
    v.expiresAt.Some? && now >= v.expiresAt.value
  }

  /** Key order in the direction of a scan. */
  predicate Before(a: Key, b: Key, reverse: bool) {
    if reverse then Less(b, a) else Less(a, b)
  }

  ghost predicate RowsInOrder(rows: seq<Row>, reverse: bool) {
    forall i, j :: 0 <= i < j < |rows| ==> Before(rows[i].key, rows[j].key, reverse)
  }

  ghost predicate StagedInOrder(staged: seq<Staged>, reverse: bool) {
    forall i, j :: 0 <= i < j < |staged| ==> Before(staged[i].key, staged[j].key, reverse)
  }

  lemma {:induction false} ScanOrder(reverse: bool)
    ensures forall a: Key :: !Before(a, a, reverse)
    ensures forall a: Key, b: Key :: a == b || Before(a, b, reverse) || Before(b, a, reverse)
    ensures forall a: Key, b: Key, c: Key :: Before(a, b, reverse) && Before(b, c, reverse) ==> Before(a, c, reverse)
  {
    hide Less;
    KeyOrder();
  }

  // ---------- what the transaction sees ----------

  function LookupStaged(staged: seq<Staged>, key: Key): Option<MutationValue> {
    if staged == [] then None else if staged[0].key == key then Some(staged[0].mutation) else LookupStaged(staged[1..], key)
  }

  function LookupRow(rows: seq<Row>, key: Key): Option<StoredValue> {
    if rows == [] then None else if rows[0].key == key then Some(rows[0].stored) else LookupRow(rows[1..], key)
  }

  function Unexpired(v: Option<StoredValue>, now: nat): Option<StoredValue> {
    if v.Some? && !Expired(v.value, now) then v else None
  }

  /** The committed value overridden by the staged mutation, unless it has expired. */
  function Seen(base: Option<StoredValue>, staged: Option<MutationValue>, now: nat): Option<StoredValue> {
    match staged
    case Some(Put(v)) => Unexpired(Some(v), now)
    case Some(Delete) => None
    case None => Unexpired(base, now)
  }

  // ---------- the merge ----------

  function LiveRow(row: Row, now: nat): seq<Row> {
    if Expired(row.stored, now) then [] else [row]
  }

  function LivePut(s: Staged, now: nat): seq<Row> {
    if s.mutation.Put? then LiveRow(Row(s.key, s.mutation.stored), now) else []
  }

  /** Live rows of `base` under `staged`, both in scan order. */
  function Overlaid(base: seq<Row>, staged: seq<Staged>, now: nat, reverse: bool): seq<Row>
    decreases |base| + |staged|
  {
    if base == [] && staged == [] then []
    else if staged == [] || (base != [] && Before(base[0].key, staged[0].key, reverse)) then
      LiveRow(base[0], now) + Overlaid(base[1..], staged, now, reverse)
    else
      LivePut(staged[0], now) + Overlaid(if base != [] && base[0].key == staged[0].key then base[1..] else base, staged[1..], now, reverse)
  }

  ghost predicate AllAfter(rows: seq<Row>, key: Key, reverse: bool) {
    forall i :: 0 <= i < |rows| ==> Before(key, rows[i].key, reverse)
  }

  lemma {:induction false} RowsTail(rows: seq<Row>, reverse: bool)
    requires RowsInOrder(rows, reverse) && rows != []
    ensures RowsInOrder(rows[1..], reverse) && AllAfter(rows[1..], rows[0].key, reverse)
  {
    hide Before;
    assert forall i :: 0 <= i < |rows[1..]| ==> rows[1..][i] == rows[i + 1];
  }

  lemma {:induction false} StagedTail(staged: seq<Staged>, reverse: bool)
    requires StagedInOrder(staged, reverse) && staged != []
    ensures StagedInOrder(staged[1..], reverse)
    ensures forall i :: 0 <= i < |staged[1..]| ==> Before(staged[0].key, staged[1..][i].key, reverse)
  {
    hide Before;
    assert forall i :: 0 <= i < |staged[1..]| ==> staged[1..][i] == staged[i + 1];
  }

  lemma {:induction false} ConsInOrder(a: seq<Row>, b: seq<Row>, reverse: bool)
    requires RowsInOrder(a, reverse) && RowsInOrder(b, reverse)
    requires forall i :: 0 <= i < |a| ==> AllAfter(b, a[i].key, reverse)
    ensures RowsInOrder(a + b, reverse)
  {
    hide Before;
    forall i, j | 0 <= i < j < |a + b| ensures Before((a + b)[i].key, (a + b)[j].key, reverse) {
      if i < |a| <= j {
        assert AllAfter(b, a[i].key, reverse);
      }
    }
  }

  /** Keys of a merge come after any key that both inputs come after. */
  lemma {:induction false} OverlaidAfter(base: seq<Row>, staged: seq<Staged>, now: nat, reverse: bool, key: Key)
    requires AllAfter(base, key, reverse) && forall i :: 0 <= i < |staged| ==> Before(key, staged[i].key, reverse)
    ensures AllAfter(Overlaid(base, staged, now, reverse), key, reverse)
    decreases |base| + |staged|
  {
    hide Before;
    if base == [] && staged == [] {
    } else if staged == [] || (base != [] && Before(base[0].key, staged[0].key, reverse)) {
      assert forall i :: 0 <= i < |base[1..]| ==> base[1..][i] == base[i + 1];
      OverlaidAfter(base[1..], staged, now, reverse, key);
    } else {
      var rest := if base != [] && base[0].key == staged[0].key then base[1..] else base;
      assert forall i :: 0 <= i < |base| - 1 ==> base[1..][i] == base[i + 1];
      assert forall i :: 0 <= i < |staged[1..]| ==> staged[1..][i] == staged[i + 1];
      OverlaidAfter(rest, staged[1..], now, reverse, key);
    }
  }

  /** Emission is in scan order. */
  lemma {:induction false} OverlaidInOrder(base: seq<Row>, staged: seq<Staged>, now: nat, reverse: bool)
    requires RowsInOrder(base, reverse) && StagedInOrder(staged, reverse)
    ensures RowsInOrder(Overlaid(base, staged, now, reverse), reverse)
    decreases |base| + |staged|
  {
    hide Before;
    ScanOrder(reverse);
    if base == [] && staged == [] {
    } else if staged == [] || (base != [] && Before(base[0].key, staged[0].key, reverse)) {
      RowsTail(base, reverse);
      OverlaidInOrder(base[1..], staged, now, reverse);
      OverlaidAfter(base[1..], staged, now, reverse, base[0].key);
      ConsInOrder(LiveRow(base[0], now), Overlaid(base[1..], staged, now, reverse), reverse);
    } else {
      var rest := if base != [] && base[0].key == staged[0].key then base[1..] else base;
      StagedTail(staged, reverse);
      if base != [] {
        RowsTail(base, reverse);
        assert AllAfter(rest, staged[0].key, reverse);
      }
      OverlaidInOrder(rest, staged[1..], now, reverse);
      OverlaidAfter(rest, staged[1..], now, reverse, staged[0].key);
      ConsInOrder(LivePut(staged[0], now), Overlaid(rest, staged[1..], now, reverse), reverse);
    }
  }

  lemma {:induction false} AbsentRow(rows: seq<Row>, key: Key)
    requires forall i :: 0 <= i < |rows| ==> rows[i].key != key
    ensures LookupRow(rows, key) == None
    decreases |rows|
  {
    if rows != [] {
      assert forall i :: 0 <= i < |rows[1..]| ==> rows[1..][i] == rows[i + 1];
      AbsentRow(rows[1..], key);
    }
  }

  lemma {:induction false} AbsentStaged(staged: seq<Staged>, key: Key)
    requires forall i :: 0 <= i < |staged| ==> staged[i].key != key
    ensures LookupStaged(staged, key) == None
    decreases |staged|
  {
    if staged != [] {
      assert forall i :: 0 <= i < |staged[1..]| ==> staged[1..][i] == staged[i + 1];
      AbsentStaged(staged[1..], key);
    }
  }

  lemma {:induction false} LookupJoin(a: seq<Row>, b: seq<Row>, key: Key)
    ensures LookupRow(a + b, key) == if LookupRow(a, key).Some? then LookupRow(a, key) else LookupRow(b, key)
    decreases |a|
  {
    if a == [] {
      assert a + b == b;
    } else {
      assert (a + b)[1..] == a[1..] + b;
      LookupJoin(a[1..], b, key);
    }
  }

  /** The merge holds exactly what the transaction sees, key by key. */
  lemma {:induction false} OverlaidIsView(base: seq<Row>, staged: seq<Staged>, now: nat, reverse: bool, key: Key)
    requires RowsInOrder(base, reverse) && StagedInOrder(staged, reverse)
    ensures LookupRow(Overlaid(base, staged, now, reverse), key) == Seen(LookupRow(base, key), LookupStaged(staged, key), now)
    decreases |base| + |staged|
  {
    hide Before;
    ScanOrder(reverse);
    if base == [] && staged == [] {
    } else if staged == [] || (base != [] && Before(base[0].key, staged[0].key, reverse)) {
      RowsTail(base, reverse);
      OverlaidIsView(base[1..], staged, now, reverse, key);
      OneRow(base[0], now, key);
      LookupJoin(LiveRow(base[0], now), Overlaid(base[1..], staged, now, reverse), key);
      if key == base[0].key {
        AbsentRow(base[1..], key);
        AbsentStaged(staged, key);
      }
    } else {
      var rest := if base != [] && base[0].key == staged[0].key then base[1..] else base;
      StagedTail(staged, reverse);
      if base != [] {
        RowsTail(base, reverse);
        assert AllAfter(rest, staged[0].key, reverse);
      }
      OverlaidIsView(rest, staged[1..], now, reverse, key);
      LookupJoin(LivePut(staged[0], now), Overlaid(rest, staged[1..], now, reverse), key);
      OnePut(staged[0], now, key);
      if key == staged[0].key {
        AbsentRow(rest, key);
        AbsentStaged(staged[1..], key);
      }
    }
  }

  lemma {:induction false} OneRow(row: Row, now: nat, key: Key)
    ensures LookupRow(LiveRow(row, now), key) == if row.key == key then Unexpired(Some(row.stored), now) else None
  {
    assert LookupRow([row][1..], key) == None;
  }

  lemma {:induction false} OnePut(s: Staged, now: nat, key: Key)
    ensures LookupRow(LivePut(s, now), key) == if s.key == key && s.mutation.Put? then Unexpired(Some(s.mutation.stored), now) else None
  {
    if s.mutation.Put? {
      OneRow(Row(s.key, s.mutation.stored), now, key);
    }
  }

  // ---------- the scan loop ----------

  /** What the receiver of rows says to the next one: take it, stop before it, or fail. */
  datatype Answer = Take | Stop | Fail

  type Receiver = (seq<Row>, Row) -> Answer

  predicate Reached(limit: Option<nat>, n: nat) {
    limit.Some? && n >= limit.value
  }

  /** The receiver takes exactly the first `n` of the rows before the limit or its own refusal. */
  ghost predicate TakesExactly(full: seq<Row>, limit: Option<nat>, receive: Receiver, n: nat) {
    && n <= |full| && (limit.Some? ==> n <= limit.value)
    && (forall i :: 0 <= i < n ==> receive(full[..i], full[i]) == Take)
    && (n < |full| && !Reached(limit, n) ==> receive(full[..n], full[n]) == Stop)
  }

  /** A row is rejected before the limit is reached. */
  ghost predicate Fails(full: seq<Row>, limit: Option<nat>, receive: Receiver) {
    exists n :: 0 <= n < |full| && !Reached(limit, n) && receive(full[..n], full[n]) == Fail && forall i :: 0 <= i < n ==> receive(full[..i], full[i]) == Take
  }

  datatype ScanResult = Scanned(rows: seq<Row>, exhausted: bool) | Rejected

  ghost predicate ScannedKeys(base: seq<Row>, keys: seq<Key>, now: nat) {
    forall i :: 0 <= i < |keys| ==> exists j :: 0 <= j < |base| && base[j].key == keys[i] && Expired(base[j].stored, now)
  }

  ghost predicate ScannedStaged(staged: seq<Staged>, keys: seq<Key>, now: nat) {
    forall i :: 0 <= i < |keys| ==>
      exists j :: 0 <= j < |staged| && staged[j].key == keys[i] && staged[j].mutation.Put? && Expired(staged[j].mutation.stored, now)
  }

  lemma {:induction false} Prefix(full: seq<Row>, rows: seq<Row>, rest: seq<Row>)
    requires full == rows + rest
    ensures rows == full[..|rows|] && (rest != [] ==> |rows| < |full| && full[|rows|] == rest[0])
  {
  }

  lemma {:induction false} Regroup(a: seq<Row>, b: seq<Row>, c: seq<Row>)
    ensures a + (b + c) == (a + b) + c
  {
  }

  /** What the merge does next with base row `i` and staged entry `j`. */
  datatype Choice =
    | Done
    | Emit(row: Row, i: nat, j: nat)
    | DropBase(key: Key, i: nat, j: nat)
    | DropStaged(key: Key, i: nat, j: nat)
    | Hide(i: nat, j: nat)

  function Choose(base: seq<Row>, staged: seq<Staged>, now: nat, reverse: bool, i: nat, j: nat): Choice
    requires i <= |base| && j <= |staged|
  {
    if i == |base| && j == |staged| then Done
    else if j == |staged| || (i < |base| && Before(base[i].key, staged[j].key, reverse)) then
      if Expired(base[i].stored, now) then DropBase(base[i].key, i + 1, j) else Emit(base[i], i + 1, j)
    else
      var i' := if i < |base| && base[i].key == staged[j].key then i + 1 else i;
      match staged[j].mutation
      case Delete => Hide(i', j + 1)
      case Put(v) => if Expired(v, now) then DropStaged(staged[j].key, i', j + 1) else Emit(Row(staged[j].key, v), i', j + 1)
  }

  lemma {:induction false} ChoiceIs(base: seq<Row>, staged: seq<Staged>, now: nat, reverse: bool, i: nat, j: nat)
    requires i <= |base| && j <= |staged|
    ensures var c := Choose(base, staged, now, reverse, i, j);
            var here := Overlaid(base[i..], staged[j..], now, reverse);
            && (c.Done? ==> here == [])
            && (!c.Done? ==> i <= c.i <= |base| && j <= c.j <= |staged| && i + j < c.i + c.j
                             && here == (if c.Emit? then [c.row] else []) + Overlaid(base[c.i..], staged[c.j..], now, reverse))
            && (c.DropBase? ==> i < |base| && c.key == base[i].key && Expired(base[i].stored, now))
            && (c.DropStaged? ==> j < |staged| && c.key == staged[j].key && staged[j].mutation.Put? && Expired(staged[j].mutation.stored, now))
  {
    hide Before, Overlaid;
    OverlaidStep(base, staged, now, reverse, i, j);
  }

  /** The merge has handed over `rows` and stands at `i` and `j`. */
  ghost predicate Progress(base: seq<Row>, staged: seq<Staged>, now: nat, reverse: bool, limit: Option<nat>, receive: Receiver, i: nat, j: nat, rows: seq<Row>) {
    && i <= |base| && j <= |staged| && (limit.Some? ==> |rows| <= limit.value)
    && var full := Overlaid(base, staged, now, reverse);
    && full == rows + Overlaid(base[i..], staged[j..], now, reverse)
    && forall n :: 0 <= n < |rows| ==> receive(full[..n], full[n]) == Take
  }

  lemma {:induction false} ProgressEmits(base: seq<Row>, staged: seq<Staged>, now: nat, reverse: bool, limit: Option<nat>, receive: Receiver, i: nat, j: nat, rows: seq<Row>)
    requires Progress(base, staged, now, reverse, limit, receive, i, j, rows) && !Reached(limit, |rows|)
    requires Choose(base, staged, now, reverse, i, j).Emit?
    ensures var full := Overlaid(base, staged, now, reverse);
            var c := Choose(base, staged, now, reverse, i, j);
            && |rows| < |full| && rows == full[..|rows|] && full[|rows|] == c.row
            && (receive(rows, c.row) == Take ==> Progress(base, staged, now, reverse, limit, receive, c.i, c.j, rows + [c.row]))
            && (receive(rows, c.row) == Fail ==> Fails(full, limit, receive))
            && (receive(rows, c.row) == Stop ==> !Fails(full, limit, receive) && TakesExactly(full, limit, receive, |rows|))
  {
    hide Overlaid, Choose, Fails, TakesExactly;
    ChoiceIs(base, staged, now, reverse, i, j);
    var full, c := Overlaid(base, staged, now, reverse), Choose(base, staged, now, reverse, i, j);
    var after := Overlaid(base[c.i..], staged[c.j..], now, reverse);
    Prefix(full, rows, [c.row] + after);
    Regroup(rows, [c.row], after);
    var answer := receive(rows, c.row);
    if answer == Fail {
      FailsHere(full, limit, receive, |rows|);
    } else if answer == Stop {
      Accepted(full, limit, receive, |rows|);
    }
  }

  lemma {:induction false} ProgressSkips(base: seq<Row>, staged: seq<Staged>, now: nat, reverse: bool, limit: Option<nat>, receive: Receiver, i: nat, j: nat, rows: seq<Row>)
    requires Progress(base, staged, now, reverse, limit, receive, i, j, rows)
    requires var c := Choose(base, staged, now, reverse, i, j); !c.Done? && !c.Emit?
    ensures var c := Choose(base, staged, now, reverse, i, j);
            Progress(base, staged, now, reverse, limit, receive, c.i, c.j, rows)
  {
    hide Overlaid, Choose;
    ChoiceIs(base, staged, now, reverse, i, j);
    var c := Choose(base, staged, now, reverse, i, j);
    assert [] + Overlaid(base[c.i..], staged[c.j..], now, reverse) == Overlaid(base[c.i..], staged[c.j..], now, reverse);
  }

  lemma {:induction false} ProgressEnds(base: seq<Row>, staged: seq<Staged>, now: nat, reverse: bool, limit: Option<nat>, receive: Receiver, i: nat, j: nat, rows: seq<Row>)
    requires Progress(base, staged, now, reverse, limit, receive, i, j, rows)
    ensures rows <= Overlaid(base, staged, now, reverse)
    ensures Choose(base, staged, now, reverse, i, j).Done? ==> rows == Overlaid(base, staged, now, reverse)
    ensures Choose(base, staged, now, reverse, i, j).Done? || Reached(limit, |rows|) ==>
              !Fails(Overlaid(base, staged, now, reverse), limit, receive) && TakesExactly(Overlaid(base, staged, now, reverse), limit, receive, |rows|)
  {
    hide Overlaid, Choose, Fails, TakesExactly;
    ChoiceIs(base, staged, now, reverse, i, j);
    var full := Overlaid(base, staged, now, reverse);
    Prefix(full, rows, Overlaid(base[i..], staged[j..], now, reverse));
    if Choose(base, staged, now, reverse, i, j).Done? || Reached(limit, |rows|) {
      Accepted(full, limit, receive, |rows|);
    }
  }

  /** Merges committed and staged rows until the limit, a refusal, or the end. */
  method VisitMerged(base: seq<Row>, staged: seq<Staged>, now: nat, reverse: bool, limit: Option<nat>, receive: Receiver)
    returns (r: ScanResult, expiredBase: seq<Key>, expiredStaged: seq<Key>)
    requires !Reached(limit, 0)
    ensures var full := Overlaid(base, staged, now, reverse);
            && (r.Rejected? <==> Fails(full, limit, receive))
            && (r.Scanned? ==> r.rows <= full && TakesExactly(full, limit, receive, |r.rows|)
                               && (r.exhausted <==> r.rows == full && !Reached(limit, |full|)))
    ensures ScannedKeys(base, expiredBase, now) && ScannedStaged(staged, expiredStaged, now)
  {
    hide Overlaid, Fails, Progress, Choose, TakesExactly;
    var rows: seq<Row> := [];
    var i: nat, j: nat := 0, 0;
    expiredBase, expiredStaged := [], [];
    assert Progress(base, staged, now, reverse, limit, receive, 0, 0, []) by { ProgressStarts(base, staged, now, reverse, limit, receive); }
    while true
      invariant !Reached(limit, |rows|) && i <= |base| && j <= |staged|
      invariant Progress(base, staged, now, reverse, limit, receive, i, j, rows)
      invariant ScannedKeys(base, expiredBase, now) && ScannedStaged(staged, expiredStaged, now)
      decreases |base| + |staged| - i - j
    {
      ChoiceIs(base, staged, now, reverse, i, j);
      ProgressEnds(base, staged, now, reverse, limit, receive, i, j, rows);
      var choice := Choose(base, staged, now, reverse, i, j);
      match choice {
        case Done =>
          return Scanned(rows, true), expiredBase, expiredStaged;
        case Emit(row, _, _) =>
          ProgressEmits(base, staged, now, reverse, limit, receive, i, j, rows);
          var answer := receive(rows, row);
          if answer == Fail {
            return Rejected, expiredBase, expiredStaged;
          }
          if answer == Stop {
            return Scanned(rows, false), expiredBase, expiredStaged;
          }
          rows := rows + [row];
          if Reached(limit, |rows|) {
            ProgressEnds(base, staged, now, reverse, limit, receive, choice.i, choice.j, rows);
            return Scanned(rows, false), expiredBase, expiredStaged;
          }
        case DropBase(key, _, _) =>
          ProgressSkips(base, staged, now, reverse, limit, receive, i, j, rows);
          expiredBase := expiredBase + [key];
        case DropStaged(key, _, _) =>
          ProgressSkips(base, staged, now, reverse, limit, receive, i, j, rows);
          expiredStaged := expiredStaged + [key];
        case Hide(_, _) =>
          ProgressSkips(base, staged, now, reverse, limit, receive, i, j, rows);
      }
      i, j := choice.i, choice.j;
    }
  }

  lemma {:induction false} ProgressStarts(base: seq<Row>, staged: seq<Staged>, now: nat, reverse: bool, limit: Option<nat>, receive: Receiver)
    ensures Progress(base, staged, now, reverse, limit, receive, 0, 0, [])
  {
    hide Overlaid;
    assert base[0..] == base && staged[0..] == staged;
    assert [] + Overlaid(base, staged, now, reverse) == Overlaid(base, staged, now, reverse);
  }

  lemma {:induction false} OverlaidStep(base: seq<Row>, staged: seq<Staged>, now: nat, reverse: bool, i: nat, j: nat)
    requires i <= |base| && j <= |staged|
    ensures i == |base| && j == |staged| ==> Overlaid(base[i..], staged[j..], now, reverse) == []
    ensures (i < |base| || j < |staged|) && (j == |staged| || (i < |base| && Before(base[i].key, staged[j].key, reverse))) ==>
              i < |base| && Overlaid(base[i..], staged[j..], now, reverse) == LiveRow(base[i], now) + Overlaid(base[i + 1..], staged[j..], now, reverse)
    ensures j < |staged| && !(i < |base| && Before(base[i].key, staged[j].key, reverse)) ==>
              Overlaid(base[i..], staged[j..], now, reverse) ==
              LivePut(staged[j], now) + Overlaid(base[if i < |base| && base[i].key == staged[j].key then i + 1 else i..], staged[j + 1..], now, reverse)
  {
    hide Before;
    if i < |base| {
      assert base[i..][0] == base[i] && base[i..][1..] == base[i + 1..];
    }
    if j < |staged| {
      assert staged[j..][0] == staged[j] && staged[j..][1..] == staged[j + 1..];
    }
  }

  lemma {:induction false} Accepted(full: seq<Row>, limit: Option<nat>, receive: Receiver, n: nat)
    requires n <= |full| && (forall i :: 0 <= i < n ==> receive(full[..i], full[i]) == Take)
    requires n < |full| && !Reached(limit, n) ==> receive(full[..n], full[n]) == Stop
    requires limit.Some? ==> n <= limit.value
    ensures !Fails(full, limit, receive) && TakesExactly(full, limit, receive, n)
  {
    assert n < |full| && !Reached(limit, n) ==> receive(full[..n], full[n]) == Stop;
    forall m | 0 <= m < |full| && !Reached(limit, m) && (forall i :: 0 <= i < m ==> receive(full[..i], full[i]) == Take)
      ensures receive(full[..m], full[m]) != Fail
    {
    }
  }

  lemma {:induction false} FailsHere(full: seq<Row>, limit: Option<nat>, receive: Receiver, n: nat)
    requires n < |full| && !Reached(limit, n) && receive(full[..n], full[n]) == Fail
    requires forall i :: 0 <= i < n ==> receive(full[..i], full[i]) == Take
    ensures Fails(full, limit, receive)
  {
  }
}
