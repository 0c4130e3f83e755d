/** Resumable paging: byte-budgeted packets and the bookmark that continues a scan. */
module Paging {
  import opened Keys
  import opened Numbers
  import opened Pages
  import opened TreeScan
  import opened Overlay
  import opened StagedScan

  datatype RangeSpec = RangeSpec(gt: Option<Key>, gte: Option<Key>, lt: Option<Key>, lte: Option<Key>, reverse: bool, limit: Option<nat>)

  function Exclusive(k: Option<Key>): Bound {
    if k.Some? then Some(Limit(k.value, false)) else None
  }

  function Inclusive(k: Option<Key>): Bound {
    if k.Some? then Some(Limit(k.value, true)) else None
  }

  function LowerBound(r: RangeSpec): Bound {
    if r.gt.Some? then Exclusive(r.gt) else Inclusive(r.gte)
  }

  function UpperBound(r: RangeSpec): Bound {
    if r.lt.Some? then Exclusive(r.lt) else Inclusive(r.lte)
  }

  /** What `validate` accepts. */
  predicate ValidRange(r: RangeSpec) {
    && !(r.gt.Some? && r.gte.Some?)
    && !(r.lt.Some? && r.lte.Some?)
    && (LowerBound(r).Some? && UpperBound(r).Some? ==>
          var a, b := LowerBound(r).value, UpperBound(r).value;
          Less(a.key, b.key) || (a.key == b.key && a.inclusive && b.inclusive))
  }

  // ---------- packets ----------

  const ROW_HEADER_LEN := 8

  /** The bytes of a row that count against the budget. */
  function RowCost(row: Row, keysOnly: bool, decoded: StoredValue -> nat): nat {
    ROW_HEADER_LEN + |row.key| + (if keysOnly then 0 else Max(|row.stored.payload|, decoded(row.stored)))
  }

  function Budget(rows: seq<Row>, keysOnly: bool, decoded: StoredValue -> nat): nat
    decreases |rows|
  {
    if rows == [] then 4 else Budget(rows[..|rows| - 1], keysOnly, decoded) + RowCost(rows[|rows| - 1], keysOnly, decoded)
  }

  function EncodedRow(row: Row, keysOnly: bool): Bytes {
    var value := if keysOnly then [] else row.stored.payload;
    Le(|row.key|, 4) + Le(|value|, 4) + row.key + value
  }

  function EncodedRows(rows: seq<Row>, keysOnly: bool): Bytes
    decreases |rows|
  {
    if rows == [] then [] else EncodedRows(rows[..|rows| - 1], keysOnly) + EncodedRow(rows[|rows| - 1], keysOnly)
  }

  /** A row that does not fit ends the page, unless it is the first one. */
  function PacketAnswer(maxBytes: nat, keysOnly: bool, decoded: StoredValue -> nat, rows: seq<Row>, row: Row): Answer {
    if Budget(rows, keysOnly, decoded) + RowCost(row, keysOnly, decoded) > maxBytes then (if rows == [] then Fail else Stop) else Take
  }

  lemma {:induction false} RowAppended(before: Bytes, a: Bytes, b: Bytes, c: Bytes, d: Bytes)
    requires |before| >= 4
    ensures (before + a + b + c + d)[4..] == before[4..] + (a + b + c + d)
  {
  }

  lemma {:induction false} RowTaken(taken: seq<Row>, row: Row, keysOnly: bool, decoded: StoredValue -> nat)
    ensures EncodedRows(taken + [row], keysOnly) == EncodedRows(taken, keysOnly) + EncodedRow(row, keysOnly)
    ensures Budget(taken + [row], keysOnly, decoded) == Budget(taken, keysOnly, decoded) + RowCost(row, keysOnly, decoded)
  {
    assert (taken + [row])[..|taken|] == taken;
  }

  class ScanPacket {
    var bytes: Bytes
    var rows: nat
    var lastKey: Option<Key>
    var budgetBytes: nat
    const maxBytes: nat
    const keysOnly: bool
    ghost const decoded: StoredValue -> nat
    ghost var taken: seq<Row>

    ghost predicate Valid()
      reads this
    {
      && rows == |taken|
      && lastKey == (if taken == [] then None else Some(taken[|taken| - 1].key))
      && budgetBytes == Budget(taken, keysOnly, decoded) <= maxBytes
      && 4 <= |bytes| <= budgetBytes
      && bytes[4..] == EncodedRows(taken, keysOnly)
    }

    constructor (maxBytes: nat, keysOnly: bool, ghost decoded: StoredValue -> nat)
      requires maxBytes >= 4
      ensures Valid() && taken == [] && this.maxBytes == maxBytes && this.keysOnly == keysOnly && this.decoded == decoded
    {
      bytes, rows, lastKey, budgetBytes := [0, 0, 0, 0], 0, None, 4;
      this.maxBytes, this.keysOnly, this.decoded, this.taken := maxBytes, keysOnly, decoded, [];
    }

    /** Appends a row if it fits the byte budget. */
    method Append(row: Row, decodedLen: nat) returns (answer: Answer)
      requires Valid() && decodedLen == decoded(row.stored)
      modifies this
      ensures Valid()
      ensures answer == PacketAnswer(maxBytes, keysOnly, decoded, old(taken), row)
      ensures taken == if answer == Take then old(taken) + [row] else old(taken)
    {
      hide Le, EncodedRows, Budget;
      var valueLen := if keysOnly then 0 else |row.stored.payload|;
      var end := budgetBytes + 8 + |row.key| + Max(valueLen, if keysOnly then 0 else decodedLen);
      if end > maxBytes {
        return if rows == 0 then Fail else Stop;
      }
      budgetBytes := end;
      var value := if keysOnly then [] else row.stored.payload;
      ghost var before := bytes;
      bytes := bytes + Le(|row.key|, 4) + Le(|value|, 4) + row.key + value;
      RowAppended(before, Le(|row.key|, 4), Le(|value|, 4), row.key, value);
      RowTaken(taken, row, keysOnly, decoded);
      rows := rows + 1;
      lastKey := Some(row.key);
      taken := taken + [row];
      return Take;
    }

    /** The finished packet: the row count, then the rows, within the budget. */
    method Finish() returns (packet: Bytes)
      requires Valid()
      ensures |packet| <= maxBytes && packet == Le(|taken|, 4) + EncodedRows(taken, keysOnly)
    {
      hide Le;
      packet := Le(rows, 4) + bytes[4..];
    }
  }

  // ---------- pages of a scan ----------

  datatype ScanPage = ScanPage(rows: seq<Row>, exhausted: bool)

  function Bounded(limit: Option<nat>, maxRows: nat): nat {
    if limit.Some? && limit.value < maxRows then limit.value else maxRows
  }

  ghost function FullScan(all: seq<Row>, r: RangeSpec): seq<Row> {
    ScanRows(all, LowerBound(r), UpperBound(r), r.reverse)
  }

  /** A page as `Visit` produces it for a receiver that never stops before the first row. */
  ghost predicate IsPage(page: ScanPage, all: seq<Row>, r: RangeSpec, maxRows: nat, receive: Receiver) {
    var full, limit := FullScan(all, r), Some(Bounded(r.limit, maxRows));
    && maxRows > 0
    && page.rows <= full && TakesExactly(full, limit, receive, |page.rows|)
    && (page.exhausted <==> limit == Some(0) || (page.rows == full && !Reached(limit, |full|)))
    && forall row :: receive([], row) != Stop
  }

  class ScanBookmark {
    var range: RangeSpec
    var exhausted: bool

    constructor (range: RangeSpec)
      ensures this.range == range && !exhausted
    {
      this.range, exhausted := range, false;
    }

    /** Continues after a page. */
    method Advance(page: ScanPage)
      modifies this
      ensures Bookmark(range, exhausted) == Advanced(Bookmark(old(range), old(exhausted)), page)
    {
      exhausted := exhausted || page.exhausted;
      if range.limit.Some? {
        var rest := if range.limit.value <= |page.rows| then 0 else range.limit.value - |page.rows|;
        range := range.(limit := Some(rest));
        exhausted := exhausted || rest == 0;
      }
      if page.rows == [] {
        return;
      }
      var key := page.rows[|page.rows| - 1].key;
      if range.reverse {
        exhausted := exhausted || (LowerBound(range).Some? && !Less(LowerBound(range).value.key, key));
        if !exhausted {
          range := range.(lt := Some(key), lte := None);
        }
      } else {
        exhausted := exhausted || (UpperBound(range).Some? && !Less(key, UpperBound(range).value.key));
        if !exhausted {
          range := range.(gt := Some(key), gte := None);
        }
      }
    }
  }

  datatype Bookmark = Bookmark(range: RangeSpec, exhausted: bool)

  function LimitAfter(limit: Option<nat>, n: nat): Option<nat> {
    if limit.None? then None else Some(if limit.value <= n then 0 else limit.value - n)
  }

  /** Whether no key after `key` can be in the range. */
  predicate AtFarBound(r: RangeSpec, key: Key) {
    if r.reverse then LowerBound(r).Some? && !Less(LowerBound(r).value.key, key)
    else UpperBound(r).Some? && !Less(key, UpperBound(r).value.key)
  }

  function StartingAfter(r: RangeSpec, key: Key): RangeSpec {
    if r.reverse then r.(lt := Some(key), lte := None) else r.(gt := Some(key), gte := None)
  }

  function Advanced(b: Bookmark, page: ScanPage): Bookmark {
    var r := b.range.(limit := LimitAfter(b.range.limit, |page.rows|));
    var spent := b.exhausted || page.exhausted || r.limit == Some(0);
    if page.rows == [] then Bookmark(r, spent)
    else
      var key := page.rows[|page.rows| - 1].key;
      if spent || AtFarBound(r, key) then Bookmark(r, true) else Bookmark(StartingAfter(r, key), false)
  }

  /** What a bookmark has still to return. */
  ghost function Remaining(b: Bookmark, all: seq<Row>): seq<Row> {
    var full := FullScan(all, b.range);
    if b.exhausted then [] else if b.range.limit.Some? && b.range.limit.value < |full| then full[..b.range.limit.value] else full
  }

  // ---------- resuming ----------

  /** Ordered rows are determined by their members. */
  lemma {:induction false} SameRows(a: seq<Row>, b: seq<Row>, reverse: bool)
    requires RowsInOrder(a, reverse) && RowsInOrder(b, reverse) && forall x :: x in a <==> x in b
    ensures a == b
    decreases |a|
  {
    hide Before;
    ScanOrder(reverse);
    assert (|a| > 0 ==> a[0] in a) && (|b| > 0 ==> b[0] in b);
    if a != [] {
      FirstRow(a, b, reverse);
      RowsTail(a, reverse);
      RowsTail(b, reverse);
      forall x ensures x in a[1..] <==> x in b[1..] {
        TailMember(a, reverse, x);
        TailMember(b, reverse, x);
      }
      SameRows(a[1..], b[1..], reverse);
      assert a == [a[0]] + a[1..] && b == [b[0]] + b[1..];
    }
  }

  lemma {:induction false} FirstRow(a: seq<Row>, b: seq<Row>, reverse: bool)
    requires RowsInOrder(a, reverse) && RowsInOrder(b, reverse) && a != [] && b != [] && a[0] in b && b[0] in a
    ensures a[0] == b[0]
  {
    hide Before;
    ScanOrder(reverse);
    var i :| 0 <= i < |a| && a[i] == b[0];
    var j :| 0 <= j < |b| && b[j] == a[0];
    if i > 0 {
      assert Before(a[0].key, a[i].key, reverse);
    }
    if j > 0 {
      assert Before(b[0].key, b[j].key, reverse);
    }
  }

  lemma {:induction false} TailMember(a: seq<Row>, reverse: bool, x: Row)
    requires RowsInOrder(a, reverse) && a != []
    ensures x in a[1..] <==> x in a && x != a[0]
  {
    hide Before;
    ScanOrder(reverse);
    RowsTail(a, reverse);
    assert a == [a[0]] + a[1..];
  }

  lemma {:induction false} FullScanFacts(all: seq<Row>, r: RangeSpec)
    requires RowsInOrder(all, false)
    ensures RowsInOrder(FullScan(all, r), r.reverse)
    ensures forall x :: x in FullScan(all, r) <==> x in all && InRange(x.key, LowerBound(r), UpperBound(r))
  {
    hide InRange, Before, RowsIn;
    ScanInOrder(all, [], LowerBound(r), UpperBound(r), r.reverse);
    ScanMembers(all, [], LowerBound(r), UpperBound(r), r.reverse);
    RowsInFacts(all, LowerBound(r), UpperBound(r));
  }

  /** A scan holds exactly the rows within the bounds that are set: `gt` and `lt` are exclusive, `gte` and `lte` inclusive. */
  lemma {:induction false} FullScanRows(all: seq<Row>, r: RangeSpec, x: Row)
    requires RowsInOrder(all, false) && ValidRange(r)
    ensures x in FullScan(all, r) <==>
            && x in all
            && (r.gt.Some? ==> Less(r.gt.value, x.key)) && (r.gte.Some? ==> r.gte.value == x.key || Less(r.gte.value, x.key))
            && (r.lt.Some? ==> Less(x.key, r.lt.value)) && (r.lte.Some? ==> x.key == r.lte.value || Less(x.key, r.lte.value))
  {
    hide FullScan, RowsInOrder, Less;
    KeyOrder();
    FullScanFacts(all, r);
  }

  lemma {:induction false} SuffixMembers(full: seq<Row>, reverse: bool, n: nat, x: Row)
    requires RowsInOrder(full, reverse) && 0 < n <= |full|
    ensures x in full[n..] <==> x in full && Before(full[n - 1].key, x.key, reverse)
  {
    hide Before;
    ScanOrder(reverse);
    if x in full && Before(full[n - 1].key, x.key, reverse) {
      var i :| 0 <= i < |full| && full[i] == x;
      assert i >= n;
      assert full[n..][i - n] == x;
    }
    if x in full[n..] {
      var i :| 0 <= i < |full[n..]| && full[n..][i] == x;
      assert full[n + i] == x;
    }
  }

  /** Starting exclusively after the last returned key continues exactly where the page ended. */
  lemma {:induction false} ResumeIsSuffix(all: seq<Row>, r: RangeSpec, n: nat)
    requires RowsInOrder(all, false) && ValidRange(r) && 0 < n <= |FullScan(all, r)|
    ensures FullScan(all, StartingAfter(r, FullScan(all, r)[n - 1].key)) == FullScan(all, r)[n..]
  {
    hide FullScan, RowsInOrder, Less;
    KeyOrder();
    var full := FullScan(all, r);
    var key := full[n - 1].key;
    var next := FullScan(all, StartingAfter(r, key));
    FullScanFacts(all, r);
    FullScanFacts(all, StartingAfter(r, key));
    assert full[n - 1] in full;
    forall x ensures x in next <==> x in full[n..] {
      SuffixMembers(full, r.reverse, n, x);
    }
    SuffixOrder(full, r.reverse, n);
    SameRows(next, full[n..], r.reverse);
  }

  lemma {:induction false} SuffixOrder(full: seq<Row>, reverse: bool, n: nat)
    requires RowsInOrder(full, reverse) && n <= |full|
    ensures RowsInOrder(full[n..], reverse)
  {
    hide Before;
  }

  /** A row with a successor is not at the far bound. */
  lemma {:induction false} SuccessorBeforeFarBound(all: seq<Row>, r: RangeSpec, n: nat)
    requires RowsInOrder(all, false) && 0 < n < |FullScan(all, r)|
    ensures !AtFarBound(r, FullScan(all, r)[n - 1].key)
  {
    hide FullScan, Less;
    KeyOrder();
    var full := FullScan(all, r);
    FullScanFacts(all, r);
    assert full[n] in full && full[n - 1] in full;
    assert Before(full[n - 1].key, full[n].key, r.reverse);
  }

  /** The advanced range is again valid. */
  lemma {:induction false} ResumeIsValid(r: RangeSpec, key: Key)
    requires ValidRange(r) && !AtFarBound(r, key)
    ensures ValidRange(StartingAfter(r, key))
  {
  }

  /**
   * One page and what the advanced bookmark still returns are together what was left; the
   * range stays valid until the scan is exhausted, and a page that is not the last has rows.
   */
  lemma {:induction false} PageThenRest(all: seq<Row>, b: Bookmark, page: ScanPage, maxRows: nat, receive: Receiver)
    requires RowsInOrder(all, false) && ValidRange(b.range) && !b.exhausted && IsPage(page, all, b.range, maxRows, receive)
    ensures Remaining(b, all) == page.rows + Remaining(Advanced(b, page), all)
    ensures !Advanced(b, page).exhausted ==> ValidRange(Advanced(b, page).range) && page.rows != []
  {
    hide FullScan, Less, RowsInOrder, ValidRange, AtFarBound;
    var full, n := FullScan(all, b.range), |page.rows|;
    var r := b.range.(limit := LimitAfter(b.range.limit, n));
    assert FullScan(all, r) == full by { LimitIrrelevant(all, b.range, r); }
    assert page.rows == full[..n];
    assert ValidRange(r) by { LimitValid(b.range, r); }
    if n == 0 {
      if |full| > 0 {
        assert full[..0] == [];
      }
    } else {
      var key := page.rows[n - 1].key;
      assert key == full[n - 1].key;
      ResumeIsSuffix(all, r, n);
      if n < |full| {
        SuccessorBeforeFarBound(all, r, n);
      }
      if !AtFarBound(r, key) {
        ResumeIsValid(r, key);
      }
      assert full == full[..n] + full[n..];
    }
  }

  lemma {:induction false} LimitIrrelevant(all: seq<Row>, a: RangeSpec, b: RangeSpec)
    requires b == a.(limit := b.limit)
    ensures FullScan(all, a) == FullScan(all, b)
  {
  }

  lemma {:induction false} LimitValid(a: RangeSpec, b: RangeSpec)
    requires b == a.(limit := b.limit) && ValidRange(a)
    ensures ValidRange(b)
  {
  }

  // ---------- all pages ----------

  function RowsOf(pages: seq<ScanPage>): seq<Row> {
    if pages == [] then [] else pages[0].rows + RowsOf(pages[1..])
  }

  /** Pages fetched one after the other, with any positive budgets. */
  ghost predicate Fetched(all: seq<Row>, b: Bookmark, pages: seq<ScanPage>)
    decreases |pages|
  {
    pages != [] ==>
      && !b.exhausted
      && (exists maxRows, receive :: IsPage(pages[0], all, b.range, maxRows, receive))
      && Fetched(all, Advanced(b, pages[0]), pages[1..])
  }

  function After(b: Bookmark, pages: seq<ScanPage>): Bookmark
    decreases |pages|
  {
    if pages == [] then b else After(Advanced(b, pages[0]), pages[1..])
  }

  /**
   * Paging equals one scan: over a fixed view, the concatenated pages and the rest are the
   * whole limited scan, so the pages of an exhausted bookmark are exactly that scan, and
   * fetching stops after at most one page more than there are rows.
   */
  lemma {:induction false} PagingEqualsScan(all: seq<Row>, b: Bookmark, pages: seq<ScanPage>)
    requires RowsInOrder(all, false) && (b.exhausted || ValidRange(b.range)) && Fetched(all, b, pages)
    ensures RowsOf(pages) + Remaining(After(b, pages), all) == Remaining(b, all)
    ensures After(b, pages).exhausted ==> RowsOf(pages) == Remaining(b, all)
    ensures |pages| <= |Remaining(b, all)| + 1
    decreases |pages|
  {
    hide RowsInOrder, ValidRange, Advanced, IsPage;
    if pages == [] {
      assert [] + Remaining(b, all) == Remaining(b, all);
    } else {
      var maxRows, receive :| IsPage(pages[0], all, b.range, maxRows, receive);
      var next := Advanced(b, pages[0]);
      PageThenRest(all, b, pages[0], maxRows, receive);
      PagingEqualsScan(all, next, pages[1..]);
      var p, q, rest := pages[0].rows, RowsOf(pages[1..]), Remaining(After(b, pages), all);
      assert (p + q) + rest == p + (q + rest);
      if next.exhausted {
        assert pages[1..] == [];
      }
    }
  }

  // ---------- fetching a page ----------

  lemma {:induction false} MemberIsLookup(rows: seq<Row>, reverse: bool, x: Row)
    requires RowsInOrder(rows, reverse)
    ensures x in rows <==> LookupRow(rows, x.key) == Some(x.stored)
    decreases |rows|
  {
    hide Before;
    ScanOrder(reverse);
    if rows != [] {
      RowsTail(rows, reverse);
      MemberIsLookup(rows[1..], reverse, x);
      TailMember(rows, reverse, x);
    }
  }

  /** The rows a staged scan walks through are the scan of the rows the transaction sees. */
  lemma {:induction false} VisitedIsScan(all: seq<Row>, full: seq<Row>, r: RangeSpec)
    requires RowsInOrder(all, false) && RowsInOrder(full, r.reverse)
    requires forall k :: LookupRow(full, k) == if InRange(k, LowerBound(r), UpperBound(r)) then LookupRow(all, k) else None
    ensures full == FullScan(all, r)
  {
    hide RowsInOrder, InRange, LookupRow, FullScan;
    FullScanFacts(all, r);
    forall x: Row ensures x in full <==> x in FullScan(all, r) {
      MemberIsLookup(full, r.reverse, x);
      MemberIsLookup(all, false, x);
    }
    SameRows(full, FullScan(all, r), r.reverse);
  }

  function PacketReceiver(maxBytes: nat, keysOnly: bool, decoded: StoredValue -> nat): Receiver {
    (rows: seq<Row>, row: Row) => PacketAnswer(maxBytes, keysOnly, decoded, rows, row)
  }

  datatype PackedPage = Packed(page: ScanPage, packet: Bytes) | InvalidBudget | MissingStore | RowTooLarge

  /**
   * One page of a scan through staged writes. `all` are the rows the transaction sees. What
   * comes back is a page in the sense of `IsPage`, so paging adds up to one scan.
   */
  method ScanPackedPage(store: StagedStore, committed: seq<Row>, range: RangeSpec, maxRows: nat, maxBytes: nat, keysOnly: bool,
                        decoded: StoredValue -> nat, now: nat, ghost all: seq<Row>) returns (r: PackedPage)
    requires store.Valid() && RowsInOrder(committed, false) && ValidRange(range)
    requires RowsInOrder(all, false) && forall k :: LookupRow(all, k) == store.Visible(committed, k, now)
    modifies store
    ensures store.Valid() && forall k :: store.Visible(committed, k, now) == old(store.Visible(committed, k, now))
    ensures r.InvalidBudget? <==> maxRows == 0 || maxBytes < 4
    ensures r.MissingStore? <==> !r.InvalidBudget? && old(store.dropped)
    ensures r.RowTooLarge? ==> Fails(FullScan(all, range), Some(Bounded(range.limit, maxRows)), PacketReceiver(maxBytes, keysOnly, decoded))
    ensures r.Packed? ==>
      && IsPage(r.page, all, range, maxRows, PacketReceiver(maxBytes, keysOnly, decoded))
      && |r.packet| <= maxBytes && r.packet == Le(|r.page.rows|, 4) + EncodedRows(r.page.rows, keysOnly)
  {
    hide Less, InRange, LookupRow, RowsInOrder, FullScan, EncodedRows, Le, Budget, Fails;
    if maxRows == 0 || maxBytes < 4 {
      return InvalidBudget;
    }
    var limit, receive := Some(Bounded(range.limit, maxRows)), PacketReceiver(maxBytes, keysOnly, decoded);
    var visited, full := store.Visit(committed, LowerBound(range), UpperBound(range), range.reverse, limit, now, false, receive);
    VisitedIsScan(all, full, range);
    match visited
    case StoreNotFound => return MissingStore;
    case RowRejected => return RowTooLarge;
    case Found(rows, exhausted) =>
      var packet := new ScanPacket(maxBytes, keysOnly, decoded);
      var i := 0;
      assert rows[..0] == [];
      while i < |rows|
        invariant i <= |rows| && packet.Valid() && packet.taken == rows[..i]
        invariant packet.maxBytes == maxBytes && packet.keysOnly == keysOnly && packet.decoded == decoded
        invariant store.Valid() && forall k :: store.Visible(committed, k, now) == old(store.Visible(committed, k, now))
      {
        assert receive(full[..i], full[i]) == Take && rows[i] == full[i] && rows[..i] == full[..i];
        var answer := packet.Append(rows[i], decoded(rows[i].stored));
        assert rows[..i + 1] == rows[..i] + [rows[i]];
        i := i + 1;
      }
      assert rows[..i] == rows;
      var bytes := packet.Finish();
      return Packed(ScanPage(rows, exhausted), bytes);
  }

  lemma {:induction false} OneRowSeen(row: Row, now: nat, key: Key)
    requires row.stored.expiresAt.None?
    ensures Seen(LookupRow([row], key), LookupStaged([], key), now) == LookupRow([row], key)
  {
    assert LookupRow([row][1..], key) == None;
  }

  /** One live row, and a scan with limit zero that returns nothing and reports that nothing is left. */
  method ZeroLimitScan(row: Row, now: nat) returns (r: Outcome, ghost full: seq<Row>)
    requires row.stored.expiresAt.None?
    ensures r == Found([], true) && full == [row]
  {
    hide Seen, LookupRow, LookupStaged, FullScan;
    var store := new StagedStore();
    assert RowsInOrder([row], false);
    forall k ensures store.Visible([row], k, now) == LookupRow([row], k) {
      OneRowSeen(row, now, k);
    }
    r, full := store.Visit([row], None, None, false, Some(0), now, false, (rows, next) => Take);
    var everything := RangeSpec(None, None, None, None, false, Some(0));
    VisitedIsScan([row], full, everything);
    FullScanFacts([row], everything);
    assert forall x :: x in FullScan([row], everything) <==> x in [row];
    SameRows(full, [row], false);
    assert r.Found?;
  }
}
