/** The queue of retired extents, and the bounded scan that goes around it. */
module ReuseQueue {
  import opened Keys
  import opened Numbers
  import opened Pages

  const REUSE_SCAN_LIMIT: nat := 64

  datatype QueueKey = QueueKey(capacity: nat, retiredTxid: nat, first: PageId)

  predicate Before(a: QueueKey, b: QueueKey) {
    a.capacity < b.capacity
    || (a.capacity == b.capacity && (a.retiredTxid < b.retiredTxid || (a.retiredTxid == b.retiredTxid && a.first < b.first)))
  }

  const QUEUE_PREFIX: Byte := 255

  /** The key of the queue row. */
  function RowKey(k: QueueKey): Bytes {
    [QUEUE_PREFIX] + (Be(k.capacity, 8) + (Be(k.retiredTxid, 8) + Be(k.first, 8)))
  }

  /** Rows lie in the registry's tree in the order of capacity, then age, then place. */
  lemma {:induction false} RowKeyOrder(a: QueueKey, b: QueueKey)
    requires a.capacity < U64 && a.retiredTxid < U64 && a.first < U64 && b.capacity < U64 && b.retiredTxid < U64 && b.first < U64
    ensures Less(RowKey(a), RowKey(b)) <==> Before(a, b)
  {
    hide Be, Less;
    Ranges();
    BeOrder(a.capacity, b.capacity, 8);
    BeOrder(a.retiredTxid, b.retiredTxid, 8);
    BeOrder(a.first, b.first, 8);
    LessAppend(Be(a.retiredTxid, 8), Be(b.retiredTxid, 8), Be(a.first, 8), Be(b.first, 8));
    LessAppend(Be(a.capacity, 8), Be(b.capacity, 8), Be(a.retiredTxid, 8) + Be(a.first, 8), Be(b.retiredTxid, 8) + Be(b.first, 8));
    LessAppend([QUEUE_PREFIX], [QUEUE_PREFIX], RowKey(a)[1..], RowKey(b)[1..]);
    LessIrreflexive([QUEUE_PREFIX]);
  }

  ghost predicate Ordered(keys: seq<QueueKey>) {
    forall i, j :: 0 <= i < j < |keys| ==> Before(keys[i], keys[j])
  }

  /** How many keys at the head of the queue are too small. */
  ghost function TooSmall(keys: seq<QueueKey>, needed: nat): (n: nat)
    ensures n <= |keys|
  {
    if keys == [] || keys[0].capacity >= needed then 0 else 1 + TooSmall(keys[1..], needed)
  }

  /** The part of the queue that is large enough. */
  ghost function Large(keys: seq<QueueKey>, needed: nat): seq<QueueKey> {
    keys[TooSmall(keys, needed)..]
  }

  /** How many keys at the head of the queue the cursor has passed. */
  ghost function Passed(keys: seq<QueueKey>, cursor: QueueKey): (n: nat)
    ensures n <= |keys|
  {
    if keys == [] || Before(cursor, keys[0]) then 0 else 1 + Passed(keys[1..], cursor)
  }

  /** A cursor among the smaller extents counts as none. */
  ghost function StartOf(large: seq<QueueKey>, cursor: Option<QueueKey>, needed: nat): (n: nat)
    ensures n <= |large|
  {
    if cursor.Some? && cursor.value.capacity >= needed then Passed(large, cursor.value) else 0
  }

  /** The position `x`, counted on from the beginning behind the end. */
  ghost function Turn(x: nat, n: nat): nat {
    if x < n then x else x - n
  }

  /** Up to `limit` keys from `start` on, going around at the end. */
  ghost function Around(keys: seq<QueueKey>, start: nat, limit: nat): seq<QueueKey>
    requires start <= |keys|
  {
    seq(if |keys| < limit then |keys| else limit, i requires 0 <= i < |keys| => keys[Turn(start + i, |keys|)])
  }

  /** What one scan reads. */
  ghost function Pass(keys: seq<QueueKey>, cursor: Option<QueueKey>, needed: nat): seq<QueueKey> {
    Around(Large(keys, needed), StartOf(Large(keys, needed), cursor, needed), REUSE_SCAN_LIMIT)
  }

  /** Where the next scan goes on. */
  ghost function CursorAfter(rows: seq<QueueKey>): Option<QueueKey> {
    if rows == [] then None else Some(rows[|rows| - 1])
  }

  // ---------- positions in the queue ----------

  lemma {:induction false} TooSmallIs(keys: seq<QueueKey>, needed: nat, n: nat)
    requires n <= |keys| && (forall i :: 0 <= i < n ==> keys[i].capacity < needed) && (n < |keys| ==> keys[n].capacity >= needed)
    ensures TooSmall(keys, needed) == n
    decreases n
  {
    if n > 0 {
      TooSmallIs(keys[1..], needed, n - 1);
    }
  }

  lemma {:induction false} PassedIs(keys: seq<QueueKey>, cursor: QueueKey, n: nat)
    requires n <= |keys| && (forall i :: 0 <= i < n ==> !Before(cursor, keys[i])) && (n < |keys| ==> Before(cursor, keys[n]))
    ensures Passed(keys, cursor) == n
    decreases n
  {
    if n > 0 {
      PassedIs(keys[1..], cursor, n - 1);
    }
  }

  lemma {:induction false} TooSmallFacts(keys: seq<QueueKey>, needed: nat)
    ensures var n := TooSmall(keys, needed); (forall i :: 0 <= i < n ==> keys[i].capacity < needed) && (n < |keys| ==> keys[n].capacity >= needed)
    decreases |keys|
  {
    if keys != [] && keys[0].capacity < needed {
      TooSmallFacts(keys[1..], needed);
    }
  }

  /** The large part of an ordered queue holds exactly the large keys, in order. */
  lemma {:induction false} LargeFacts(keys: seq<QueueKey>, needed: nat)
    requires Ordered(keys)
    ensures Ordered(Large(keys, needed))
    ensures forall k :: k in Large(keys, needed) <==> k in keys && k.capacity >= needed
  {
    TooSmallFacts(keys, needed);
    var n := TooSmall(keys, needed);
    forall k ensures k in Large(keys, needed) <==> k in keys && k.capacity >= needed {
      if k in keys && k.capacity >= needed {
        var i :| 0 <= i < |keys| && keys[i] == k;
        assert i >= n && keys[n..][i - n] == k;
      }
      if k in Large(keys, needed) {
        var i :| 0 <= i < |keys| - n && keys[n..][i] == k;
        assert i > 0 ==> Before(keys[n], keys[n + i]);
      }
    }
  }

  // ---------- one scan ----------

  method CountSmall(keys: seq<QueueKey>, needed: nat) returns (n: nat)
    ensures n == TooSmall(keys, needed)
  {
    n := 0;
    while n < |keys| && keys[n].capacity < needed
      invariant n <= |keys| && forall i :: 0 <= i < n ==> keys[i].capacity < needed
    {
      n := n + 1;
    }
    TooSmallIs(keys, needed, n);
  }

  method CountPassed(keys: seq<QueueKey>, cursor: QueueKey) returns (n: nat)
    ensures n == Passed(keys, cursor)
  {
    n := 0;
    while n < |keys| && !Before(cursor, keys[n])
      invariant n <= |keys| && forall i :: 0 <= i < n ==> !Before(cursor, keys[i])
    {
      n := n + 1;
    }
    PassedIs(keys, cursor, n);
  }

  /**
   * Reads up to `REUSE_SCAN_LIMIT` keys that are large enough, from the cursor to the end of the
   * queue and then from its beginning to the cursor.
   */
  method ScanQueue(keys: seq<QueueKey>, cursor: Option<QueueKey>, needed: nat) returns (rows: seq<QueueKey>, next: Option<QueueKey>)
    ensures rows == Pass(keys, cursor, needed) && next == CursorAfter(rows)
  {
    var small := CountSmall(keys, needed);
    var large := keys[small..];
    var start := 0;
    var afterCursor := cursor.Some? && cursor.value.capacity >= needed;
    if afterCursor {
      start := CountPassed(large, cursor.value);
    }
    rows := large[start..if |large| - start < REUSE_SCAN_LIMIT then |large| else start + REUSE_SCAN_LIMIT];
    if afterCursor && |rows| < REUSE_SCAN_LIMIT {
      var more := REUSE_SCAN_LIMIT - |rows|;
      rows := rows + large[..if start < more then start else more];
    }
    WrapsAround(large, start, rows);
    next := if rows == [] then None else Some(rows[|rows| - 1]);
  }

  lemma {:induction false} WrapsAround(keys: seq<QueueKey>, start: nat, rows: seq<QueueKey>)
    requires start <= |keys|
    requires var a, room := |keys| - start, REUSE_SCAN_LIMIT;
             if a >= room then rows == keys[start..start + room]
             else rows == keys[start..] + keys[..if start < room - a then start else room - a]
    ensures rows == Around(keys, start, REUSE_SCAN_LIMIT)
  {
    var n, around := |keys|, Around(keys, start, REUSE_SCAN_LIMIT);
    assert |rows| == |around|;
    forall i | 0 <= i < |rows| ensures rows[i] == around[i] {
      assert around[i] == keys[Turn(start + i, n)];
    }
  }

  /** A scan reads only distinct large keys of the queue, and as many as it may. */
  lemma {:induction false} PassFacts(keys: seq<QueueKey>, cursor: Option<QueueKey>, needed: nat)
    requires Ordered(keys)
    ensures var rows, large := Pass(keys, cursor, needed), Large(keys, needed);
            && (forall k :: k in rows ==> k in keys && k.capacity >= needed)
            && (forall i, j :: 0 <= i < j < |rows| ==> rows[i] != rows[j])
            && |rows| == (if |large| < REUSE_SCAN_LIMIT then |large| else REUSE_SCAN_LIMIT)
  {
    hide Large;
    LargeFacts(keys, needed);
    var large := Large(keys, needed);
    var n, start := |large|, StartOf(large, cursor, needed);
    var rows := Pass(keys, cursor, needed);
    forall i, j | 0 <= i < j < |rows| ensures rows[i] != rows[j] {
      var a, b := Turn(start + i, n), Turn(start + j, n);
      assert if a < b then Before(large[a], large[b]) else Before(large[b], large[a]);
    }
    forall k | k in rows ensures k in keys && k.capacity >= needed {
      var i :| 0 <= i < |rows| && rows[i] == k;
      assert large[Turn(start + i, n)] in large;
    }
  }

  // ---------- what scans reach ----------

  /** How many keys a scan from `start` reads before the one at `j`. */
  ghost function Ahead(start: nat, j: nat, n: nat): nat
    requires start <= n && j < n
  {
    if j >= start then j - start else j + n - start
  }

  /** A scan reads the key, or leaves the cursor nearer to it by a full scan. */
  lemma {:induction false} PassApproaches(keys: seq<QueueKey>, cursor: Option<QueueKey>, needed: nat, j: nat)
    requires Ordered(keys) && j < |Large(keys, needed)|
    ensures var rows, large := Pass(keys, cursor, needed), Large(keys, needed);
            var d := Ahead(StartOf(large, cursor, needed), j, |large|);
            && (d < REUSE_SCAN_LIMIT ==> large[j] in rows)
            && (d >= REUSE_SCAN_LIMIT ==> Ahead(StartOf(large, CursorAfter(rows), needed), j, |large|) == d - REUSE_SCAN_LIMIT)
  {
    hide Large;
    LargeFacts(keys, needed);
    var large, rows := Large(keys, needed), Pass(keys, cursor, needed);
    var n, start := |large|, StartOf(large, cursor, needed);
    var d := Ahead(start, j, n);
    if d < REUSE_SCAN_LIMIT {
      assert d < |rows| && rows[d] == large[Turn(start + d, n)];
      assert Turn(start + d, n) == j;
    } else {
      var last := Turn(start + REUSE_SCAN_LIMIT - 1, n);
      assert |rows| == REUSE_SCAN_LIMIT && rows[|rows| - 1] == large[last];
      assert large[last] in large;
      forall i | 0 <= i < last + 1 ensures !Before(large[last], large[i]) {
        assert i < last ==> Before(large[i], large[last]);
      }
      PassedIs(large, large[last], last + 1);
    }
  }

  lemma {:induction false} ReachedFrom(keys: seq<QueueKey>, needed: nat, cursors: seq<Option<QueueKey>>, i: nat, j: nat)
    requires Ordered(keys) && j < |Large(keys, needed)| && i < |cursors|
    requires forall k :: 0 <= k < |cursors| - 1 ==> cursors[k + 1] == CursorAfter(Pass(keys, cursors[k], needed))
    requires Ahead(StartOf(Large(keys, needed), cursors[i], needed), j, |Large(keys, needed)|) < (|cursors| - i) * REUSE_SCAN_LIMIT
    ensures exists k :: 0 <= k < |cursors| && Large(keys, needed)[j] in Pass(keys, cursors[k], needed)
    decreases |cursors| - i
  {
    hide Large, Pass, StartOf, Ordered, CursorAfter;
    PassApproaches(keys, cursors[i], needed, j);
    if Ahead(StartOf(Large(keys, needed), cursors[i], needed), j, |Large(keys, needed)|) >= REUSE_SCAN_LIMIT {
      ReachedFrom(keys, needed, cursors, i + 1, j);
    }
  }

  /**
   * Scans that find nothing to reuse leave the queue as it is and only move the cursor. Enough of
   * them to cover the large extents once reach every one, from wherever the first one starts.
   */
  lemma {:induction false} EveryExtentIsReached(keys: seq<QueueKey>, needed: nat, cursors: seq<Option<QueueKey>>, key: QueueKey)
    requires Ordered(keys) && key in keys && key.capacity >= needed
    requires |Large(keys, needed)| <= |cursors| * REUSE_SCAN_LIMIT
    requires forall k :: 0 <= k < |cursors| - 1 ==> cursors[k + 1] == CursorAfter(Pass(keys, cursors[k], needed))
    ensures exists k :: 0 <= k < |cursors| && key in Pass(keys, cursors[k], needed)
  {
    hide Large, Pass, StartOf, Ordered, CursorAfter;
    LargeFacts(keys, needed);
    var large := Large(keys, needed);
    assert key in large;
    var j :| 0 <= j < |large| && large[j] == key;
    ReachedFrom(keys, needed, cursors, 0, j);
  }

  /** A queue with no more large extents than one scan reads is read whole. */
  lemma {:induction false} SmallQueueIsRead(keys: seq<QueueKey>, cursor: Option<QueueKey>, needed: nat, key: QueueKey)
    requires Ordered(keys) && key in keys && key.capacity >= needed && |Large(keys, needed)| <= REUSE_SCAN_LIMIT
    ensures key in Pass(keys, cursor, needed)
  {
    hide Large, Pass, StartOf, Ordered;
    EveryExtentIsReached(keys, needed, [cursor], key);
  }
}
