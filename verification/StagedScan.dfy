/** A transaction's staged store, and range scans through it. */
module StagedScan {
  import opened Keys
  import opened Numbers
  import opened Pages
  import opened TreeScan
  import opened Overlay

  // ---------- ordered maps of staged mutations ----------

  function Insert(staged: seq<Staged>, key: Key, m: MutationValue): seq<Staged> {
    if staged == [] then [Staged(key, m)]
    else if Less(staged[0].key, key) then [staged[0]] + Insert(staged[1..], key, m)
    else if staged[0].key == key then [Staged(key, m)] + staged[1..]
    else [Staged(key, m)] + staged
  }

  lemma {:induction false} InsertKeeps(staged: seq<Staged>, key: Key, m: MutationValue)
    requires StagedInOrder(staged, false)
    ensures StagedInOrder(Insert(staged, key, m), false)
    ensures forall x :: x in Insert(staged, key, m) ==> x == Staged(key, m) || x in staged
    decreases |staged|
  {
    hide Less;
    KeyOrder();
    if staged != [] {
      StagedTail(staged, false);
      if Less(staged[0].key, key) {
        InsertKeeps(staged[1..], key, m);
        var rest := Insert(staged[1..], key, m);
        forall i | 0 <= i < |rest| ensures Less(staged[0].key, rest[i].key) {
          assert rest[i] in rest;
        }
      }
    }
  }

  lemma {:induction false} LookupInsert(staged: seq<Staged>, key: Key, m: MutationValue, k: Key)
    requires StagedInOrder(staged, false)
    ensures LookupStaged(Insert(staged, key, m), k) == if k == key then Some(m) else LookupStaged(staged, k)
    decreases |staged|
  {
    hide Less;
    KeyOrder();
    if staged == [] {
      assert LookupStaged([Staged(key, m)][1..], k) == None;
    } else {
      StagedTail(staged, false);
      if Less(staged[0].key, key) {
        var rest := Insert(staged[1..], key, m);
        LookupInsert(staged[1..], key, m, k);
        assert ([staged[0]] + rest)[1..] == rest;
      } else if staged[0].key == key {
        assert ([Staged(key, m)] + staged[1..])[1..] == staged[1..];
      } else {
        assert ([Staged(key, m)] + staged)[1..] == staged;
      }
    }
  }

  // ---------- ranges in scan order ----------

  function StagedIn(staged: seq<Staged>, lower: Bound, upper: Bound): seq<Staged> {
    if staged == [] then []
    else (if InRange(staged[0].key, lower, upper) then [staged[0]] else []) + StagedIn(staged[1..], lower, upper)
  }

  function RowsIn(rows: seq<Row>, lower: Bound, upper: Bound): seq<Row> {
    if rows == [] then []
    else (if InRange(rows[0].key, lower, upper) then [rows[0]] else []) + RowsIn(rows[1..], lower, upper)
  }

  function ReverseStaged(s: seq<Staged>): (r: seq<Staged>)
    ensures |r| == |s| && forall i :: 0 <= i < |s| ==> r[i] == s[|s| - 1 - i]
  {
    seq(|s|, i requires 0 <= i < |s| => s[|s| - 1 - i])
  }

  function ReverseRows(s: seq<Row>): (r: seq<Row>)
    ensures |r| == |s| && forall i :: 0 <= i < |s| ==> r[i] == s[|s| - 1 - i]
  {
    seq(|s|, i requires 0 <= i < |s| => s[|s| - 1 - i])
  }

  function ScanStaged(staged: seq<Staged>, lower: Bound, upper: Bound, reverse: bool): seq<Staged> {
    if reverse then ReverseStaged(StagedIn(staged, lower, upper)) else StagedIn(staged, lower, upper)
  }

  function ScanRows(rows: seq<Row>, lower: Bound, upper: Bound, reverse: bool): seq<Row> {
    if reverse then ReverseRows(RowsIn(rows, lower, upper)) else RowsIn(rows, lower, upper)
  }

  lemma {:induction false} StagedCons(head: Staged, rest: seq<Staged>)
    requires StagedInOrder(rest, false) && forall x :: x in rest ==> Less(head.key, x.key)
    ensures StagedInOrder([head] + rest, false)
  {
    hide Less;
    assert forall i :: 0 <= i < |rest| ==> rest[i] in rest;
  }

  lemma {:induction false} StagedInFacts(staged: seq<Staged>, lower: Bound, upper: Bound)
    requires StagedInOrder(staged, false)
    ensures StagedInOrder(StagedIn(staged, lower, upper), false)
    ensures forall x :: x in StagedIn(staged, lower, upper) <==> x in staged && InRange(x.key, lower, upper)
    decreases |staged|
  {
    hide Less, InRange;
    if staged != [] {
      StagedTail(staged, false);
      StagedInFacts(staged[1..], lower, upper);
      var rest := StagedIn(staged[1..], lower, upper);
      forall x | x in rest ensures Less(staged[0].key, x.key) {
        var i :| 0 <= i < |staged[1..]| && staged[1..][i] == x;
      }
      StagedCons(staged[0], rest);
      hide StagedInOrder;
      assert staged == [staged[0]] + staged[1..];
    }
  }

  lemma {:induction false} RowsInFacts(rows: seq<Row>, lower: Bound, upper: Bound)
    requires RowsInOrder(rows, false)
    ensures RowsInOrder(RowsIn(rows, lower, upper), false)
    ensures forall x :: x in RowsIn(rows, lower, upper) <==> x in rows && InRange(x.key, lower, upper)
    decreases |rows|
  {
    hide Less, InRange;
    if rows != [] {
      RowsTail(rows, false);
      RowsInFacts(rows[1..], lower, upper);
      var head, rest := if InRange(rows[0].key, lower, upper) then [rows[0]] else [], RowsIn(rows[1..], lower, upper);
      forall i | 0 <= i < |rest| ensures Less(rows[0].key, rest[i].key) {
        assert rest[i] in rest;
        assert rest[i] in rows[1..];
      }
      ConsInOrder(head, rest, false);
      hide RowsInOrder, AllAfter;
      assert rows == [rows[0]] + rows[1..];
    }
  }

  lemma {:induction false} ScanInOrder(rows: seq<Row>, staged: seq<Staged>, lower: Bound, upper: Bound, reverse: bool)
    requires RowsInOrder(rows, false) && StagedInOrder(staged, false)
    ensures RowsInOrder(ScanRows(rows, lower, upper, reverse), reverse)
    ensures StagedInOrder(ScanStaged(staged, lower, upper, reverse), reverse)
  {
    hide InRange, Less;
    RowsInFacts(rows, lower, upper);
    StagedInFacts(staged, lower, upper);
  }

  lemma {:induction false} FoundRow(rows: seq<Row>, key: Key)
    ensures LookupRow(rows, key).Some? ==> Row(key, LookupRow(rows, key).value) in rows
    ensures LookupRow(rows, key).None? ==> forall x :: x in rows ==> x.key != key
    decreases |rows|
  {
    if rows != [] && rows[0].key != key {
      FoundRow(rows[1..], key);
    }
  }

  lemma {:induction false} FoundStaged(staged: seq<Staged>, key: Key)
    ensures LookupStaged(staged, key).Some? ==> Staged(key, LookupStaged(staged, key).value) in staged
    ensures LookupStaged(staged, key).None? ==> forall x :: x in staged ==> x.key != key
    decreases |staged|
  {
    if staged != [] && staged[0].key != key {
      FoundStaged(staged[1..], key);
    }
  }

  lemma {:induction false} UniqueRow(rows: seq<Row>, reverse: bool, a: Row, b: Row)
    requires RowsInOrder(rows, reverse) && a in rows && b in rows && a.key == b.key
    ensures a == b
  {
    hide Before;
    ScanOrder(reverse);
    var i :| 0 <= i < |rows| && rows[i] == a;
    var j :| 0 <= j < |rows| && rows[j] == b;
  }

  lemma {:induction false} UniqueStaged(staged: seq<Staged>, reverse: bool, a: Staged, b: Staged)
    requires StagedInOrder(staged, reverse) && a in staged && b in staged && a.key == b.key
    ensures a == b
  {
    hide Before;
    ScanOrder(reverse);
    var i :| 0 <= i < |staged| && staged[i] == a;
    var j :| 0 <= j < |staged| && staged[j] == b;
  }

  /** Restricting to a range and reversing change no lookup inside the range. */
  lemma {:induction false} ScanLookups(rows: seq<Row>, staged: seq<Staged>, lower: Bound, upper: Bound, reverse: bool, key: Key)
    requires RowsInOrder(rows, false) && StagedInOrder(staged, false)
    ensures LookupRow(ScanRows(rows, lower, upper, reverse), key) == if InRange(key, lower, upper) then LookupRow(rows, key) else None
    ensures LookupStaged(ScanStaged(staged, lower, upper, reverse), key) == if InRange(key, lower, upper) then LookupStaged(staged, key) else None
  {
    hide InRange, Before;
    RowsInFacts(rows, lower, upper);
    StagedInFacts(staged, lower, upper);
    var rs, ss := ScanRows(rows, lower, upper, reverse), ScanStaged(staged, lower, upper, reverse);
    ScanMembers(rows, staged, lower, upper, reverse);
    FoundRow(rows, key);
    FoundRow(rs, key);
    FoundStaged(staged, key);
    FoundStaged(ss, key);
    if LookupRow(rs, key).Some? && LookupRow(rows, key).Some? {
      UniqueRow(rows, false, Row(key, LookupRow(rs, key).value), Row(key, LookupRow(rows, key).value));
    }
    if LookupStaged(ss, key).Some? && LookupStaged(staged, key).Some? {
      UniqueStaged(staged, false, Staged(key, LookupStaged(ss, key).value), Staged(key, LookupStaged(staged, key).value));
    }
  }

  lemma {:induction false} ScanMembers(rows: seq<Row>, staged: seq<Staged>, lower: Bound, upper: Bound, reverse: bool)
    ensures forall x :: x in ScanRows(rows, lower, upper, reverse) <==> x in RowsIn(rows, lower, upper)
    ensures forall x :: x in ScanStaged(staged, lower, upper, reverse) <==> x in StagedIn(staged, lower, upper)
  {
    hide RowsIn, StagedIn;
    var a, b := RowsIn(rows, lower, upper), StagedIn(staged, lower, upper);
    forall x | x in a ensures x in ReverseRows(a) {
      var i :| 0 <= i < |a| && a[i] == x;
      assert ReverseRows(a)[|a| - 1 - i] == x;
    }
    forall x | x in b ensures x in ReverseStaged(b) {
      var i :| 0 <= i < |b| && b[i] == x;
      assert ReverseStaged(b)[|b| - 1 - i] == x;
    }
  }

  // ---------- the staged store ----------

  datatype PutOutcome = WasPut(replaced: bool) | ExpiryOverflow | NoStore

  datatype Outcome = Found(rows: seq<Row>, exhausted: bool) | StoreNotFound | RowRejected

  ghost predicate NoExpiringPut(staged: seq<Staged>) {
    forall i :: 0 <= i < |staged| && staged[i].mutation.Put? ==> staged[i].mutation.stored.expiresAt.None?
  }

  class StagedStore {
    var mutations: seq<Staged>
    var created: bool
    var dropped: bool
    var cleared: bool
    var hasExpiring: Option<bool>

    ghost predicate Valid()
      reads this
    {
      StagedInOrder(mutations, false) && (hasExpiring == Some(false) ==> NoExpiringPut(mutations))
    }

    constructor ()
      ensures Valid() && mutations == [] && !created && !dropped && !cleared
    {
      mutations, created, dropped, cleared, hasExpiring := [], false, false, false, None;
    }

    function BaseRows(committed: seq<Row>): seq<Row>
      reads this
    {
      if created || cleared then [] else committed
    }

    /** What the transaction sees of a key at a time. */
    ghost function Visible(committed: seq<Row>, key: Key, now: nat): Option<StoredValue>
      reads this
    {
      Seen(LookupRow(BaseRows(committed), key), LookupStaged(mutations, key), now)
    }

    /** What the store holds under a key, at whatever time: the staged put, or the committed row if nothing is staged. */
    ghost function Held(committed: seq<Row>, key: Key): Option<StoredValue>
      reads this
    {
      match LookupStaged(mutations, key)
      case Some(Put(v)) => Some(v)
      case Some(Delete) => None
      case None => LookupRow(BaseRows(committed), key)
    }

    /** Stages a value, to live for the given time if one is given, and reports whether it replaces a live one. */
    method Put(key: Key, payload: Bytes, ttl: Option<nat>, now: nat, committed: seq<Row>) returns (r: PutOutcome)
      requires Valid()
      modifies this`mutations, this`hasExpiring
      ensures Valid()
      ensures r.ExpiryOverflow? <==> ttl.Some? && now + ttl.value >= U64
      ensures r.NoStore? <==> !r.ExpiryOverflow? && dropped
      ensures !r.WasPut? ==> mutations == old(mutations)
      ensures r.WasPut? ==> (r.replaced <==> old(Visible(committed, key, now)).Some?)
      ensures r.WasPut? ==> Held(committed, key) == Some(StoredValue(payload, if ttl.Some? then Some(now + ttl.value) else None))
      ensures r.WasPut? ==> forall k :: k != key ==> Held(committed, k) == old(Held(committed, k))
    {
      hide Less, LookupStaged, LookupRow, StagedInOrder, NoExpiringPut;
      if ttl.Some? && now + ttl.value >= U64 {
        return ExpiryOverflow;
      }
      if dropped {
        return NoStore;
      }
      var replaced := Seen(LookupRow(BaseRows(committed), key), LookupStaged(mutations, key), now).Some?;
      var m := MutationValue.Put(StoredValue(payload, if ttl.Some? then Some(now + ttl.value) else None));
      InsertKeeps(mutations, key, m);
      if hasExpiring == Some(false) && ttl.None? {
        PlainPutKeeps(mutations, key, m);
      }
      forall k ensures LookupStaged(Insert(mutations, key, m), k) == if k == key then Some(m) else LookupStaged(mutations, k) {
        LookupInsert(mutations, key, m, k);
      }
      mutations := Insert(mutations, key, m);
      if ttl.Some? {
        hasExpiring := Some(true);
      }
      return WasPut(replaced);
    }

    /** Reads a key; one that turns out to have expired is deleted. */
    method Get(key: Key, now: nat, committed: seq<Row>) returns (found: bool, value: Option<StoredValue>)
      requires Valid()
      modifies this`mutations
      ensures Valid() && (found <==> !dropped)
      ensures value.Some? <==>
        && found && old(Held(committed, key)).Some?
        && (old(Held(committed, key)).value.expiresAt.Some? ==> now < old(Held(committed, key)).value.expiresAt.value)
      ensures value.Some? ==> value == old(Held(committed, key)) && mutations == old(mutations)
      ensures found ==> Held(committed, key) == value
      ensures forall k :: k != key ==> Held(committed, k) == old(Held(committed, k))
      ensures forall k, later :: later >= now ==> Visible(committed, k, later) == old(Visible(committed, k, later))
    {
      hide Less, LookupStaged, LookupRow, StagedInOrder, NoExpiringPut;
      if dropped {
        return false, None;
      }
      var base, staged := LookupRow(BaseRows(committed), key), LookupStaged(mutations, key);
      value := match staged case Some(Put(v)) => Some(v) case Some(Delete) => None case None => base;
      if value.Some? && Expired(value.value, now) {
        HiddenStaysHidden(base, staged, now);
        SetDelete(key);
        value := None;
      }
      return true, value;
    }

    /** Deletes a key, and reports whether it had a live value. */
    method Remove(key: Key, now: nat, committed: seq<Row>) returns (found: bool, existed: bool)
      requires Valid()
      modifies this`mutations
      ensures Valid() && (found <==> !dropped)
      ensures existed <==> found && old(Visible(committed, key, now)).Some?
      ensures found ==> Held(committed, key).None?
      ensures forall k :: k != key ==> Held(committed, k) == old(Held(committed, k))
    {
      hide Less, LookupStaged, LookupRow, StagedInOrder, NoExpiringPut;
      var value;
      found, value := Get(key, now, committed);
      existed := value.Some?;
      if existed {
        SetDelete(key);
      }
    }

    /** Forgets everything, staged and committed. */
    method Clear(ghost committed: seq<Row>) returns (found: bool)
      requires Valid()
      modifies this`mutations, this`hasExpiring, this`cleared
      ensures Valid() && (found <==> !dropped)
      ensures found ==> forall k :: Held(committed, k).None?
      ensures found ==> forall k, now :: Visible(committed, k, now).None?
      ensures !found ==> mutations == old(mutations) && cleared == old(cleared)
    {
      if dropped {
        return false;
      }
      mutations, hasExpiring, cleared := [], Some(false), true;
      return true;
    }

    /** Staged puts that have expired become deletes. */
    method NormalizeExpired(now: nat, ghost committed: seq<Row>)
      requires Valid()
      modifies this`mutations, this`hasExpiring
      ensures Valid()
      ensures forall k, later :: later >= now ==> Visible(committed, k, later) == old(Visible(committed, k, later))
    {
      hide Less, LookupStaged, LookupRow;
      if hasExpiring == Some(false) {
        return;
      }
      ghost var before := mutations;
      var out: seq<Staged> := [];
      var any := false;
      while |out| < |mutations|
        invariant mutations == before && |out| <= |before|
        invariant out == Normalized(before[..|out|], now)
        invariant !any ==> NoExpiringPut(out)
      {
        var s := mutations[|out|];
        ghost var done := |out|;
        assert before[..done + 1] == before[..done] + [s];
        any := any || (s.mutation.Put? && !Expired(s.mutation.stored, now) && s.mutation.stored.expiresAt.Some?);
        out := out + [NormalizedOne(s, now)];
      }
      assert before[..|before|] == before;
      mutations, hasExpiring := out, Some(any);
      NormalizedOrder(before, now);
      forall k, later | later >= now ensures Visible(committed, k, later) == old(Visible(committed, k, later)) {
        NormalizedLookup(before, now, later, k);
      }
    }

    /** A committed value found expired is deleted, unless it is already overridden. */
    method MarkKeyExpired(key: Key)
      requires Valid()
      modifies this`mutations
      ensures Valid()
      ensures forall k :: LookupStaged(mutations, k) == if k == key && old(LookupStaged(mutations, k)).None? then Some(Delete) else old(LookupStaged(mutations, k))
    {
      hide Less, LookupStaged;
      if LookupStaged(mutations, key).None? {
        SetDelete(key);
      }
    }

    method SetDelete(key: Key)
      requires Valid()
      modifies this`mutations
      ensures Valid()
      ensures forall k :: LookupStaged(mutations, k) == if k == key then Some(Delete) else old(LookupStaged(mutations, k))
    {
      hide Less, LookupStaged;
      InsertKeeps(mutations, key, Delete);
      forall k ensures LookupStaged(Insert(mutations, key, Delete), k) == if k == key then Some(Delete) else LookupStaged(mutations, k) {
        LookupInsert(mutations, key, Delete, k);
      }
      if hasExpiring == Some(false) {
        forall i | 0 <= i < |Insert(mutations, key, Delete)| && Insert(mutations, key, Delete)[i].mutation.Put?
          ensures Insert(mutations, key, Delete)[i].mutation.stored.expiresAt.None?
        {
          assert Insert(mutations, key, Delete)[i] in Insert(mutations, key, Delete);
        }
      }
      mutations := Insert(mutations, key, Delete);
    }

    /** Deletes what a scan found expired; nothing visible then or later changes. */
    method CleanUp(expiredBase: seq<Key>, expiredStaged: seq<Key>, now: nat, ghost committed: seq<Row>)
      requires Valid()
      requires forall i :: 0 <= i < |expiredBase| ==> Unexpired(LookupRow(BaseRows(committed), expiredBase[i]), now).None?
      requires forall i :: 0 <= i < |expiredStaged| ==> Visible(committed, expiredStaged[i], now).None?
      modifies this`mutations
      ensures Valid()
      ensures forall k, later :: later >= now ==> Visible(committed, k, later) == old(Visible(committed, k, later))
    {
      hide LookupStaged, LookupRow, StagedInOrder, NoExpiringPut, Seen, Unexpired;
      var i: nat := 0;
      while i < |expiredBase|
        invariant i <= |expiredBase| && Valid()
        invariant forall k, later :: later >= now ==> Visible(committed, k, later) == old(Visible(committed, k, later))
      {
        ghost var base, staged := LookupRow(BaseRows(committed), expiredBase[i]), LookupStaged(mutations, expiredBase[i]);
        MarkKeyExpired(expiredBase[i]);
        MarkedStaysHidden(base, staged, now);
        i := i + 1;
      }
      i := 0;
      while i < |expiredStaged|
        invariant i <= |expiredStaged| && Valid()
        invariant forall k, later :: later >= now ==> Visible(committed, k, later) == old(Visible(committed, k, later))
      {
        assert Visible(committed, expiredStaged[i], now).None?;
        HiddenStaysHidden(LookupRow(BaseRows(committed), expiredStaged[i]), LookupStaged(mutations, expiredStaged[i]), now);
        SetDelete(expiredStaged[i]);
        i := i + 1;
      }
    }

    /**
     * Scans a range through the staged writes. The rows are, in scan order, the live entries
     * of the committed map overridden by the staged mutations, as many as the limit and the
     * receiver allow; the scan reports exhaustion only when nothing of the limited range is left.
     */
    method Visit(committed: seq<Row>, lower: Bound, upper: Bound, reverse: bool, limit: Option<nat>, now: nat, normalizeAll: bool, receive: Receiver)
      returns (r: Outcome, ghost full: seq<Row>)
      requires Valid() && RowsInOrder(committed, false)
      modifies this`mutations, this`hasExpiring
      ensures Valid()
      ensures r.StoreNotFound? <==> dropped
      ensures forall k, later :: later >= now ==> Visible(committed, k, later) == old(Visible(committed, k, later))
      ensures RowsInOrder(full, reverse)
      ensures forall x :: x in full <==>
        InRange(x.key, lower, upper) && old(Held(committed, x.key)) == Some(x.stored) && (x.stored.expiresAt.Some? ==> now < x.stored.expiresAt.value)
      ensures forall k :: LookupRow(full, k) == if InRange(k, lower, upper) then old(Visible(committed, k, now)) else None
      ensures r.RowRejected? ==> Fails(full, limit, receive)
      ensures r.Found? ==> r.rows <= full && TakesExactly(full, limit, receive, |r.rows|)
      ensures r.Found? ==> (r.exhausted <==> limit == Some(0) || (r.rows == full && !Reached(limit, |full|)))
    {
      hide Less, InRange, Overlaid, LookupRow, LookupStaged, Fails, RowsInOrder, StagedInOrder, NoExpiringPut, RowsIn, StagedIn, Before, Expired;
      ghost var before := mutations;
      if normalizeAll && !dropped {
        NormalizeExpired(now, committed);
      }
      var base, staged := ScanRows(BaseRows(committed), lower, upper, reverse), ScanStaged(mutations, lower, upper, reverse);
      full := Overlaid(base, staged, now, reverse);
      FullIsView(BaseRows(committed), mutations, lower, upper, reverse, now, committed);
      forall x ensures x in full <==> InRange(x.key, lower, upper) && old(Held(committed, x.key)) == Some(x.stored) && (x.stored.expiresAt.Some? ==> now < x.stored.expiresAt.value) {
        assert Visible(committed, x.key, now) == Seen(LookupRow(BaseRows(committed), x.key), LookupStaged(before, x.key), now);
        RowsByTime(full, reverse, x, old(Held(committed, x.key)), LookupRow(BaseRows(committed), x.key), LookupStaged(before, x.key), InRange(x.key, lower, upper), now);
      }
      if dropped {
        return StoreNotFound, full;
      }
      if limit == Some(0) {
        return Found([], true), full;
      }
      var scan, expiredBase, expiredStaged := VisitMerged(base, staged, now, reverse, limit, receive);
      if scan.Rejected? {
        return RowRejected, full;
      }
      BaseKeysExpired(BaseRows(committed), mutations, lower, upper, reverse, now, expiredBase, committed);
      StagedKeysExpired(BaseRows(committed), mutations, lower, upper, reverse, now, expiredStaged);
      CleanUp(expiredBase, expiredStaged, now, committed);
      return Found(scan.rows, scan.exhausted), full;
    }
  }

  /**
   * Exactly when a reported exhaustion, as `Visit` decides it, means that the whole range has
   * been returned: unless the limit is zero and the range holds something.
   */
  lemma {:induction false} ExhaustionIsHonest(full: seq<Row>, limit: Option<nat>, receive: Receiver, n: nat, exhausted: bool)
    requires TakesExactly(full, limit, receive, n)
    requires exhausted <==> limit == Some(0) || (n == |full| && !Reached(limit, |full|))
    ensures (exhausted ==> n == |full|) <==> !(limit == Some(0) && full != [])
  {
  }

  function NormalizedOne(s: Staged, now: nat): Staged {
    if s.mutation.Put? && Expired(s.mutation.stored, now) then Staged(s.key, Delete) else s
  }

  function Normalized(staged: seq<Staged>, now: nat): (r: seq<Staged>)
    ensures |r| == |staged|
  {
    seq(|staged|, i requires 0 <= i < |staged| => NormalizedOne(staged[i], now))
  }

  lemma {:induction false} NormalizedOrder(staged: seq<Staged>, now: nat)
    requires StagedInOrder(staged, false)
    ensures StagedInOrder(Normalized(staged, now), false)
  {
    hide Less;
  }

  lemma {:induction false} NormalizedLookup(staged: seq<Staged>, now: nat, later: nat, key: Key)
    requires later >= now
    ensures forall base :: Seen(base, LookupStaged(Normalized(staged, now), key), later) == Seen(base, LookupStaged(staged, key), later)
    decreases |staged|
  {
    if staged != [] {
      assert Normalized(staged, now)[1..] == Normalized(staged[1..], now);
      NormalizedLookup(staged[1..], now, later, key);
    }
  }

  /** What is hidden, by a delete or by its age, stays hidden. */
  lemma {:induction false} HiddenStaysHidden(base: Option<StoredValue>, staged: Option<MutationValue>, now: nat)
    requires Seen(base, staged, now).None?
    ensures forall later :: later >= now ==> Seen(base, staged, later).None?
    ensures forall later :: Seen(base, Some(Delete), later).None?
  {
  }

  lemma {:induction false} MarkedStaysHidden(base: Option<StoredValue>, staged: Option<MutationValue>, now: nat)
    requires Unexpired(base, now).None?
    ensures forall later :: later >= now ==> Seen(base, if staged.None? then Some(Delete) else staged, later) == Seen(base, staged, later)
  {
  }

  lemma {:induction false} PlainPutKeeps(staged: seq<Staged>, key: Key, m: MutationValue)
    requires NoExpiringPut(staged) && StagedInOrder(staged, false) && (m.Put? ==> m.stored.expiresAt.None?)
    ensures NoExpiringPut(Insert(staged, key, m))
  {
    hide Less;
    InsertKeeps(staged, key, m);
    var after := Insert(staged, key, m);
    forall i | 0 <= i < |after| && after[i].mutation.Put? ensures after[i].mutation.stored.expiresAt.None? {
      assert after[i] in after;
    }
  }

  /** Rows that the view of a time holds are those held by then and not expired. */
  lemma {:induction false} RowsByTime(full: seq<Row>, reverse: bool, x: Row, held: Option<StoredValue>, base: Option<StoredValue>, staged: Option<MutationValue>, inside: bool, now: nat)
    requires RowsInOrder(full, reverse) && LookupRow(full, x.key) == if inside then Seen(base, staged, now) else None
    requires held == match staged case Some(Put(v)) => Some(v) case Some(Delete) => None case None => base
    ensures x in full <==> inside && held == Some(x.stored) && (x.stored.expiresAt.Some? ==> now < x.stored.expiresAt.value)
  {
    hide RowsInOrder, LookupRow;
    FoundRow(full, x.key);
    if x in full && LookupRow(full, x.key).Some? {
      UniqueRow(full, reverse, x, Row(x.key, LookupRow(full, x.key).value));
    }
  }

  /**
   * A value put at one time with a time to live is returned by scans of its key at every time
   * before the two together, and at no time from then on; without a time to live it always is.
   */
  method PutThenScan(store: StagedStore, committed: seq<Row>, key: Key, payload: Bytes, ttl: Option<nat>, at: nat, now: nat, reverse: bool, receive: Receiver)
    returns (put: PutOutcome, scan: Outcome, ghost full: seq<Row>)
    requires store.Valid() && RowsInOrder(committed, false)
    modifies store
    ensures put.WasPut? && scan.Found? ==> scan.rows <= full && TakesExactly(full, None, receive, |scan.rows|)
    ensures put.WasPut? ==>
      var x := Row(key, StoredValue(payload, if ttl.Some? then Some(at + ttl.value) else None));
      && (x in full <==> ttl.None? || now < at + ttl.value)
      && forall other :: other in full && other.key == key ==> other == x
  {
    hide Less, InRange, RowsInOrder, Fails;
    put := store.Put(key, payload, ttl, at, committed);
    full := [];
    if !put.WasPut? {
      return put, StoreNotFound, [];
    }
    var bound := Some(Limit(key, true));
    assert InRange(key, bound, bound) by { OnlyKey(key); }
    scan, full := store.Visit(committed, bound, bound, reverse, None, now, false, receive);
  }

  lemma {:induction false} OnlyKey(key: Key)
    ensures InRange(key, Some(Limit(key, true)), Some(Limit(key, true)))
  {
  }

  lemma {:induction false} FullIsView(rows: seq<Row>, staged: seq<Staged>, lower: Bound, upper: Bound, reverse: bool, now: nat, committed: seq<Row>)
    requires (rows == committed || rows == []) && RowsInOrder(committed, false) && StagedInOrder(staged, false)
    ensures var full := Overlaid(ScanRows(rows, lower, upper, reverse), ScanStaged(staged, lower, upper, reverse), now, reverse);
            && RowsInOrder(full, reverse)
            && forall k :: LookupRow(full, k) == if InRange(k, lower, upper) then Seen(LookupRow(rows, k), LookupStaged(staged, k), now) else None
  {
    hide InRange, Overlaid, LookupRow, LookupStaged, Before, ScanRows, ScanStaged;
    assert RowsInOrder(rows, false);
    ScanInOrder(rows, staged, lower, upper, reverse);
    var base, mutations := ScanRows(rows, lower, upper, reverse), ScanStaged(staged, lower, upper, reverse);
    OverlaidInOrder(base, mutations, now, reverse);
    forall k ensures LookupRow(Overlaid(base, mutations, now, reverse), k) == if InRange(k, lower, upper) then Seen(LookupRow(rows, k), LookupStaged(staged, k), now) else None {
      OverlaidIsView(base, mutations, now, reverse, k);
      ScanLookups(rows, staged, lower, upper, reverse, k);
    }
  }

  lemma {:induction false} BaseKeysExpired(rows: seq<Row>, staged: seq<Staged>, lower: Bound, upper: Bound, reverse: bool, now: nat, keys: seq<Key>, committed: seq<Row>)
    requires (rows == committed || rows == []) && RowsInOrder(committed, false) && ScannedKeys(ScanRows(rows, lower, upper, reverse), keys, now)
    ensures forall i :: 0 <= i < |keys| ==> Unexpired(LookupRow(rows, keys[i]), now).None?
  {
    hide InRange, LookupRow, Before, ScanRows;
    var base := ScanRows(rows, lower, upper, reverse);
    forall i | 0 <= i < |keys| ensures Unexpired(LookupRow(rows, keys[i]), now).None? {
      var j :| 0 <= j < |base| && base[j].key == keys[i] && Expired(base[j].stored, now);
      assert base[j] in base;
      RowInScan(rows, lower, upper, reverse, base[j], committed);
      FoundRow(rows, keys[i]);
      if LookupRow(rows, keys[i]).Some? {
        UniqueRow(rows, false, base[j], Row(keys[i], LookupRow(rows, keys[i]).value));
      }
    }
  }

  lemma {:induction false} RowInScan(rows: seq<Row>, lower: Bound, upper: Bound, reverse: bool, x: Row, committed: seq<Row>)
    requires (rows == committed || rows == []) && RowsInOrder(committed, false) && x in ScanRows(rows, lower, upper, reverse)
    ensures x in rows && RowsInOrder(rows, false)
  {
    hide InRange, Before;
    assert RowsInOrder(rows, false);
    RowsInFacts(rows, lower, upper);
    ScanMembers(rows, [], lower, upper, reverse);
  }

  lemma {:induction false} StagedKeysExpired(rows: seq<Row>, staged: seq<Staged>, lower: Bound, upper: Bound, reverse: bool, now: nat, keys: seq<Key>)
    requires StagedInOrder(staged, false) && ScannedStaged(ScanStaged(staged, lower, upper, reverse), keys, now)
    ensures forall i :: 0 <= i < |keys| ==> Seen(LookupRow(rows, keys[i]), LookupStaged(staged, keys[i]), now).None?
  {
    hide InRange, LookupRow, LookupStaged, Before, StagedIn, ScanStaged, Expired;
    var mutations := ScanStaged(staged, lower, upper, reverse);
    StagedInFacts(staged, lower, upper);
    ScanMembers([], staged, lower, upper, reverse);
    assert ScannedStaged(mutations, keys, now);
    forall i | 0 <= i < |keys| ensures Seen(LookupRow(rows, keys[i]), LookupStaged(staged, keys[i]), now).None? {
      var j :| 0 <= j < |mutations| && mutations[j].key == keys[i] && mutations[j].mutation.Put? && Expired(mutations[j].mutation.stored, now);
      assert mutations[j] in mutations;
      FoundStaged(staged, keys[i]);
      UniqueStaged(staged, false, mutations[j], Staged(keys[i], LookupStaged(staged, keys[i]).value));
    }
  }
}
