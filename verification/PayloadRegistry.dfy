/** Reference counts and reuse of external payload extents. */
module PayloadRegistration {
  import opened Pages
  import opened Allocator
  import opened ReuseQueue

  const PAYLOAD_HEADER_SIZE := 32

  /** One extent: the body it holds, how many cells name it, and since when none does. */
  datatype Extent = Extent(reference: PayloadRef, references: nat, capacity: nat, retiredTxid: nat, generation: nat)

  datatype QueueValue = QueueValue(generation: nat, bodyLen: nat, checksum: nat)

  datatype Reserved = Reserved(bodyLen: nat, capacity: nat, generation: nat, queueKey: Option<QueueKey>)

  datatype Reservation = Reservation(first: PageId, capacity: nat)

  function PayloadPageCount(bodyLen: nat): nat {
    (PAYLOAD_HEADER_SIZE + bodyLen + PAGE_SIZE - 1) / PAGE_SIZE
  }

  /** As few pages as hold the body and its header. */
  lemma {:induction false} BodyFits(bodyLen: nat)
    ensures PayloadPageCount(bodyLen) > 0
    ensures (PayloadPageCount(bodyLen) - 1) * PAGE_SIZE < PAYLOAD_HEADER_SIZE + bodyLen <= PayloadPageCount(bodyLen) * PAGE_SIZE
  {
  }

  function KeyOf(e: Extent): QueueKey {
    QueueKey(e.capacity, e.retiredTxid, e.reference.first)
  }

  function ValueOf(e: Extent): QueueValue {
    QueueValue(e.generation, e.reference.bodyLen, e.reference.checksum)
  }

  predicate Retired(e: Extent) {
    e.references == 0 && e.retiredTxid > 0
  }

  /** Records know their own extent, and every retired one can be found in the queue. */
  ghost predicate Indexed(entries: map<PageId, Extent>, queue: map<QueueKey, QueueValue>) {
    forall f :: f in entries ==>
      && entries[f].reference.first == f
      && (Retired(entries[f]) ==> KeyOf(entries[f]) in queue && queue[KeyOf(entries[f])] == ValueOf(entries[f]))
  }

  /** A queue row that still describes its record. */
  predicate Describes(k: QueueKey, v: QueueValue, e: Extent) {
    e.references == 0 && e.retiredTxid == k.retiredTxid && e.capacity == k.capacity
    && e.generation == v.generation && e.reference.bodyLen == v.bodyLen && e.reference.checksum == v.checksum
  }

  /** Removing a row that does not describe its record loses no retired extent. */
  lemma {:induction false} DropStaleRow(entries: map<PageId, Extent>, queue: map<QueueKey, QueueValue>, k: QueueKey)
    requires Indexed(entries, queue) && k in queue && (k.first in entries ==> !Describes(k, queue[k], entries[k.first]))
    ensures Indexed(entries, queue - {k})
  {
  }

  // ---------- choosing an extent ----------

  /** What decoding a queue key demands. */
  predicate Sane(k: QueueKey) {
    k.capacity > 0 && k.retiredTxid > 0 && k.first > 0
  }

  predicate Suits(k: QueueKey, needed: nat, oldest: nat) {
    k.capacity >= needed && k.retiredTxid <= oldest
  }

  predicate Stale(entries: map<PageId, Extent>, queue: map<QueueKey, QueueValue>, k: QueueKey) {
    k in queue && k.first in entries && !Describes(k, queue[k], entries[k.first])
  }

  /** The candidates a reservation chooses from. */
  ghost function Loaded(candidates: Option<seq<QueueKey>>, keys: seq<QueueKey>, cursor: Option<QueueKey>, needed: nat): seq<QueueKey> {
    if candidates.Some? then candidates.value else Pass(keys, cursor, needed)
  }

  /** Every candidate that would do is stale. */
  ghost predicate NoneLeft(loaded: seq<QueueKey>, needed: nat, oldest: nat, entries: map<PageId, Extent>, queue: map<QueueKey, QueueValue>) {
    forall i :: 0 <= i < |loaded| && Suits(loaded[i], needed, oldest) ==> Stale(entries, queue, loaded[i])
  }

  /** `k` is the first candidate that would do and is not stale. */
  ghost predicate FirstLeft(loaded: seq<QueueKey>, needed: nat, oldest: nat, entries: map<PageId, Extent>, queue: map<QueueKey, QueueValue>, k: QueueKey) {
    exists i :: 0 <= i < |loaded| && loaded[i] == k && Suits(k, needed, oldest) && !Stale(entries, queue, k) && NoneLeft(loaded[..i], needed, oldest, entries, queue)
  }

  ghost predicate OnlyStaleGone(entries: map<PageId, Extent>, before: map<QueueKey, QueueValue>, after: map<QueueKey, QueueValue>) {
    && (forall k :: k in after ==> k in before && after[k] == before[k])
    && forall k :: k in before && k !in after ==> Stale(entries, before, k)
  }

  /** A candidate that cannot be: a malformed key, no record, or an extent beyond the file. */
  ghost predicate Damaged(loaded: seq<QueueKey>, entries: map<PageId, Extent>, queue: map<QueueKey, QueueValue>, end: PageId) {
    exists k :: k in loaded && (!Sane(k) || k.first !in entries || (!Stale(entries, queue, k) && k.first + k.capacity > end))
  }

  /** `at` says where the candidates not yet taken stand among the loaded ones; those taken would do and were stale. */
  ghost predicate Left(loaded: seq<QueueKey>, rest: seq<QueueKey>, at: seq<nat>, entries: map<PageId, Extent>, queue: map<QueueKey, QueueValue>) {
    && |at| == |rest|
    && (forall p :: 0 <= p < |at| ==> at[p] < |loaded| && loaded[at[p]] == rest[p])
    && (forall p, q :: 0 <= p < q < |at| ==> at[p] < at[q])
    && forall i :: 0 <= i < |loaded| && i !in at ==> Stale(entries, queue, loaded[i])
  }

  ghost function Positions(n: nat): seq<nat> {
    seq(n, i => i)
  }

  lemma {:induction false} NothingGone(entries: map<PageId, Extent>, queue: map<QueueKey, QueueValue>)
    ensures OnlyStaleGone(entries, queue, queue)
  {
  }

  lemma {:induction false} AllLeft(loaded: seq<QueueKey>, entries: map<PageId, Extent>, queue: map<QueueKey, QueueValue>)
    ensures Left(loaded, loaded, Positions(|loaded|), entries, queue)
  {
    forall i | 0 <= i < |loaded| ensures i in Positions(|loaded|) {
      assert Positions(|loaded|)[i] == i;
    }
  }

  lemma {:induction false} InsaneIsDamage(loaded: seq<QueueKey>, entries: map<PageId, Extent>, queue: map<QueueKey, QueueValue>, end: PageId)
    requires !forall k :: k in loaded ==> Sane(k)
    ensures Damaged(loaded, entries, queue, end)
  {
  }

  lemma {:induction false} MissingIsDamage(loaded: seq<QueueKey>, entries: map<PageId, Extent>, queue: map<QueueKey, QueueValue>, end: PageId, k: QueueKey)
    requires k in loaded && k.first !in entries
    ensures Damaged(loaded, entries, queue, end)
  {
  }

  lemma {:induction false} BeyondIsDamage(loaded: seq<QueueKey>, entries: map<PageId, Extent>, queue: map<QueueKey, QueueValue>, end: PageId, k: QueueKey)
    requires k in loaded && !Stale(entries, queue, k) && k.first + k.capacity > end
    ensures Damaged(loaded, entries, queue, end)
  {
  }

  lemma {:induction false} SameRow(entries: map<PageId, Extent>, before: map<QueueKey, QueueValue>, after: map<QueueKey, QueueValue>, k: QueueKey)
    requires OnlyStaleGone(entries, before, after) && k in after
    ensures k in before && before[k] == after[k]
  {
  }

  lemma {:induction false} LeftIsLoaded(loaded: seq<QueueKey>, rest: seq<QueueKey>, at: seq<nat>, entries: map<PageId, Extent>, queue: map<QueueKey, QueueValue>, p: nat)
    requires Left(loaded, rest, at, entries, queue) && p < |rest|
    ensures p < |at| && rest[p] in loaded
  {
  }

  /** `less` is `all` without its element at `p`. */
  ghost predicate OneOut<T(!new)>(all: seq<T>, less: seq<T>, p: nat) {
    p < |all| == |less| + 1 && forall q :: 0 <= q < |less| ==> less[q] == all[if q < p then q else q + 1]
  }

  lemma {:induction false} StaleTaken(loaded: seq<QueueKey>, rest: seq<QueueKey>, at: seq<nat>, entries: map<PageId, Extent>, queue: map<QueueKey, QueueValue>, p: nat)
    requires Left(loaded, rest, at, entries, queue) && p < |rest| && Stale(entries, queue, rest[p])
    ensures p < |at| && Left(loaded, rest[..p] + rest[p + 1..], at[..p] + at[p + 1..], entries, queue)
  {
    hide Left, Stale;
    assert |at| == |rest| by { AsMany(loaded, rest, at, entries, queue); }
    LeftWithout(loaded, rest, at, entries, queue, p, rest[..p] + rest[p + 1..], at[..p] + at[p + 1..]);
  }

  lemma {:induction false} AsMany(loaded: seq<QueueKey>, rest: seq<QueueKey>, at: seq<nat>, entries: map<PageId, Extent>, queue: map<QueueKey, QueueValue>)
    requires Left(loaded, rest, at, entries, queue)
    ensures |at| == |rest|
  {
  }

  lemma {:induction false} LeftWithout(loaded: seq<QueueKey>, rest: seq<QueueKey>, at: seq<nat>, entries: map<PageId, Extent>, queue: map<QueueKey, QueueValue>, p: nat, rest': seq<QueueKey>, at': seq<nat>)
    requires Left(loaded, rest, at, entries, queue) && OneOut(rest, rest', p) && OneOut(at, at', p) && Stale(entries, queue, rest[p])
    ensures Left(loaded, rest', at', entries, queue)
  {
    hide Stale;
    OthersStay(at, at', p);
  }

  lemma {:induction false} OthersStay(at: seq<nat>, less: seq<nat>, p: nat)
    requires OneOut(at, less, p)
    ensures forall i :: i in at && i != at[p] ==> i in less
  {
    forall q | 0 <= q < |at| && q != p ensures at[q] in less {
      assert at[q] == less[if q < p then q else q - 1];
    }
  }

  lemma {:induction false} GoneMore(entries: map<PageId, Extent>, before: map<QueueKey, QueueValue>, after: map<QueueKey, QueueValue>, k: QueueKey)
    requires OnlyStaleGone(entries, before, after) && k in after && Stale(entries, after, k)
    ensures Stale(entries, before, k) && OnlyStaleGone(entries, before, after - {k})
  {
    hide Describes;
  }

  lemma {:induction false} FirstIsLeft(loaded: seq<QueueKey>, rest: seq<QueueKey>, at: seq<nat>, needed: nat, oldest: nat, entries: map<PageId, Extent>, queue: map<QueueKey, QueueValue>, p: nat)
    requires Left(loaded, rest, at, entries, queue) && p < |rest|
    requires Suits(rest[p], needed, oldest) && !Stale(entries, queue, rest[p]) && forall q :: 0 <= q < p ==> !Suits(rest[q], needed, oldest)
    ensures FirstLeft(loaded, needed, oldest, entries, queue, rest[p])
  {
    hide Stale, Suits;
    forall q | 0 <= q < |at| && at[q] < at[p] ensures !Suits(loaded[at[q]], needed, oldest) {
      assert q < p;
    }
    assert NoneLeft(loaded[..at[p]], needed, oldest, entries, queue);
  }

  lemma {:induction false} NothingLeft(loaded: seq<QueueKey>, rest: seq<QueueKey>, at: seq<nat>, needed: nat, oldest: nat, entries: map<PageId, Extent>, queue: map<QueueKey, QueueValue>)
    requires Left(loaded, rest, at, entries, queue) && forall q :: 0 <= q < |rest| ==> !Suits(rest[q], needed, oldest)
    ensures NoneLeft(loaded, needed, oldest, entries, queue)
  {
    hide Stale, Suits;
    forall q | 0 <= q < |at| ensures !Suits(loaded[at[q]], needed, oldest) {
      assert loaded[at[q]] == rest[q];
    }
  }

  /**
   * In a queue with no more large extents than one scan reads, a retired extent that would do is
   * never passed over for fresh pages.
   */
  lemma {:induction false} ReuseIsFound(entries: map<PageId, Extent>, queue: map<QueueKey, QueueValue>, keys: seq<QueueKey>, cursor: Option<QueueKey>, needed: nat, oldest: nat, f: PageId)
    requires Indexed(entries, queue) && Ordered(keys) && forall k :: k in keys <==> k in queue
    requires |Large(keys, needed)| <= REUSE_SCAN_LIMIT
    requires f in entries && Retired(entries[f]) && entries[f].capacity >= needed && entries[f].retiredTxid <= oldest
    ensures !NoneLeft(Pass(keys, cursor, needed), needed, oldest, entries, queue)
  {
    hide Pass, Ordered, Large;
    var k, loaded := KeyOf(entries[f]), Pass(keys, cursor, needed);
    SmallQueueIsRead(keys, cursor, needed, k);
    var i :| 0 <= i < |loaded| && loaded[i] == k;
    assert Suits(loaded[i], needed, oldest) && !Stale(entries, queue, k);
  }

  // ---------- counting ----------

  datatype Delta = Delta(reference: PayloadRef, count: int)

  /** How often a reference is added more than dropped. */
  ghost function Net(added: multiset<PayloadRef>, dropped: multiset<PayloadRef>, r: PayloadRef): int {
    (added[r] as int) - (dropped[r] as int)
  }

  /** `deltas` counts the references processed so far, one incarnation per extent. */
  ghost predicate Counts(deltas: map<PageId, Delta>, added: multiset<PayloadRef>, dropped: multiset<PayloadRef>) {
    && (forall f :: f in deltas ==>
          && deltas[f].reference.first == f && deltas[f].count == Net(added, dropped, deltas[f].reference)
          && (deltas[f].reference in added || deltas[f].reference in dropped))
    && (forall r :: r in added || r in dropped ==> r.first in deltas && deltas[r.first].reference == r)
  }

  function Bumped(deltas: map<PageId, Delta>, r: PayloadRef, change: int): map<PageId, Delta> {
    deltas[r.first := Delta(r, change + if r.first in deltas then deltas[r.first].count else 0)]
  }

  lemma {:induction false} BumpAdded(deltas: map<PageId, Delta>, added: multiset<PayloadRef>, dropped: multiset<PayloadRef>, r: PayloadRef)
    requires Counts(deltas, added, dropped) && (r.first in deltas ==> deltas[r.first].reference == r)
    ensures Counts(Bumped(deltas, r, 1), added + multiset{r}, dropped)
  {
    var more, after := added + multiset{r}, Bumped(deltas, r, 1);
    assert r.first !in deltas ==> added[r] == 0 && dropped[r] == 0;
    forall f | f in after
      ensures after[f].reference.first == f && after[f].count == Net(more, dropped, after[f].reference)
      ensures after[f].reference in more || after[f].reference in dropped
    {
      if f != r.first {
        assert more[deltas[f].reference] == added[deltas[f].reference];
      }
    }
  }

  lemma {:induction false} BumpDropped(deltas: map<PageId, Delta>, added: multiset<PayloadRef>, dropped: multiset<PayloadRef>, r: PayloadRef)
    requires Counts(deltas, added, dropped) && (r.first in deltas ==> deltas[r.first].reference == r)
    ensures Counts(Bumped(deltas, r, -1), added, dropped + multiset{r})
  {
    var more, after := dropped + multiset{r}, Bumped(deltas, r, -1);
    assert r.first !in deltas ==> added[r] == 0 && dropped[r] == 0;
    forall f | f in after
      ensures after[f].reference.first == f && after[f].count == Net(added, more, after[f].reference)
      ensures after[f].reference in added || after[f].reference in more
    {
      if f != r.first {
        assert more[deltas[f].reference] == dropped[deltas[f].reference];
      }
    }
  }

  /** The references name one incarnation of each extent. */
  ghost predicate OneIncarnation(added: multiset<PayloadRef>, dropped: multiset<PayloadRef>) {
    forall r, q :: (r in added || r in dropped) && (q in added || q in dropped) && r.first == q.first ==> r == q
  }

  lemma {:induction false} CountedOnce(deltas: map<PageId, Delta>, added: multiset<PayloadRef>, dropped: multiset<PayloadRef>)
    requires Counts(deltas, added, dropped)
    ensures OneIncarnation(added, dropped)
  {
  }

  /** A reference that clashes with one already counted shows a second incarnation. */
  lemma {:induction false} Clash(deltas: map<PageId, Delta>, a: multiset<PayloadRef>, d: multiset<PayloadRef>, added: multiset<PayloadRef>, dropped: multiset<PayloadRef>, r: PayloadRef)
    requires Counts(deltas, a, d) && a <= added && d <= dropped && (r in added || r in dropped)
    requires r.first in deltas && deltas[r.first].reference != r
    ensures !OneIncarnation(added, dropped)
  {
    var q := deltas[r.first].reference;
    assert q in added || q in dropped by {
      assert a[q] <= added[q] && d[q] <= dropped[q];
    }
  }

  lemma {:induction false} PrefixWithin(s: seq<PayloadRef>, i: nat)
    requires i <= |s|
    ensures multiset(s[..i]) <= multiset(s)
  {
    assert s == s[..i] + s[i..];
  }

  method CountDeltas(added: seq<PayloadRef>, dropped: seq<PayloadRef>) returns (ok: bool, deltas: map<PageId, Delta>)
    ensures ok ==> Counts(deltas, multiset(added), multiset(dropped))
    ensures ok <==> OneIncarnation(multiset(added), multiset(dropped))
  {
    hide Counts, Bumped, OneIncarnation;
    deltas := map[];
    assert Counts(map[], multiset{}, multiset{}) by { NoCounts(); }
    var i: nat := 0;
    assert multiset(added[..0]) == multiset{} && multiset(dropped[..0]) == multiset{};
    while i < |added|
      invariant i <= |added| && Counts(deltas, multiset(added[..i]), multiset{})
    {
      var r := added[i];
      if r.first in deltas && deltas[r.first].reference != r {
        PrefixWithin(added, i);
        Clash(deltas, multiset(added[..i]), multiset{}, multiset(added), multiset(dropped), r);
        return false, deltas;
      }
      BumpAdded(deltas, multiset(added[..i]), multiset{}, r);
      assert added[..i + 1] == added[..i] + [r];
      deltas := Bumped(deltas, r, 1);
      i := i + 1;
    }
    assert added[..i] == added;
    i := 0;
    while i < |dropped|
      invariant i <= |dropped| && Counts(deltas, multiset(added), multiset(dropped[..i]))
    {
      var r := dropped[i];
      if r.first in deltas && deltas[r.first].reference != r {
        PrefixWithin(dropped, i);
        Clash(deltas, multiset(added), multiset(dropped[..i]), multiset(added), multiset(dropped), r);
        return false, deltas;
      }
      BumpDropped(deltas, multiset(added), multiset(dropped[..i]), r);
      assert dropped[..i + 1] == dropped[..i] + [r];
      deltas := Bumped(deltas, r, -1);
      i := i + 1;
    }
    assert dropped[..i] == dropped;
    CountedOnce(deltas, multiset(added), multiset(dropped));
    return true, deltas;
  }

  lemma {:induction false} NoCounts()
    ensures Counts(map[], multiset{}, multiset{})
  {
  }

  /** A record after its count changed by `count` in transaction `txid`. */
  function Recounted(e: Extent, count: int, txid: nat): Extent
    requires e.references + count >= 0
  {
    if count == 0 then e
    else e.(references := e.references + count, retiredTxid := if e.references + count == 0 then txid else 0)
  }

  /** Every record recounted by the references added and dropped. */
  ghost predicate AllRecounted(before: map<PageId, Extent>, after: map<PageId, Extent>, added: multiset<PayloadRef>, dropped: multiset<PayloadRef>, txid: nat) {
    && after.Keys == before.Keys
    && (forall r :: r in added || r in dropped ==> r.first in before && before[r.first].reference == r)
    && (forall f :: f in before ==>
          && before[f].references + Net(added, dropped, before[f].reference) >= 0
          && after[f] == Recounted(before[f], Net(added, dropped, before[f].reference), txid))
  }

  /** The batches of references that can be counted: each names a known body, and counts stay possible. */
  ghost predicate Countable(entries: map<PageId, Extent>, registered: set<PageId>, added: multiset<PayloadRef>, dropped: multiset<PayloadRef>) {
    && OneIncarnation(added, dropped)
    && forall r :: r in added || r in dropped ==>
         && r.first in entries && entries[r.first].reference == r && entries[r.first].references + Net(added, dropped, r) >= 0
         && (entries[r.first].references == 0 && Net(added, dropped, r) > 0 ==> r.first in registered)
  }

  lemma {:induction false} FitIsCountable(entries: map<PageId, Extent>, deltas: map<PageId, Delta>, registered: set<PageId>, added: multiset<PayloadRef>, dropped: multiset<PayloadRef>)
    requires Counts(deltas, added, dropped) && OneIncarnation(added, dropped)
    ensures DeltasFit(entries, deltas, registered) <==> Countable(entries, registered, added, dropped)
  {
    hide OneIncarnation;
    if DeltasFit(entries, deltas, registered) {
      forall r | r in added || r in dropped
        ensures r.first in entries && entries[r.first].reference == r && entries[r.first].references + Net(added, dropped, r) >= 0
        ensures entries[r.first].references == 0 && Net(added, dropped, r) > 0 ==> r.first in registered
      {
        assert DeltaFits(entries, deltas, registered, r.first);
      }
    }
    if Countable(entries, registered, added, dropped) {
      forall f | f in deltas ensures DeltaFits(entries, deltas, registered, f) {
        var r := deltas[f].reference;
        assert r in added || r in dropped;
      }
    }
  }

  lemma {:induction false} NotCountable(entries: map<PageId, Extent>, registered: set<PageId>, added: multiset<PayloadRef>, dropped: multiset<PayloadRef>)
    requires !OneIncarnation(added, dropped)
    ensures !Countable(entries, registered, added, dropped)
  {
    hide OneIncarnation;
  }

  // ---------- the registry ----------

  class PayloadRegistry {
    var entries: map<PageId, Extent>
    var queue: map<QueueKey, QueueValue>
    var cursor: Option<QueueKey>
    var candidates: Option<seq<QueueKey>>
    var reservations: map<PageId, Reserved>
    var registered: set<PageId>

    ghost predicate Valid()
      reads this
    {
      && Indexed(entries, queue)
      && (forall f :: f in registered ==> f in entries)
      && (candidates.Some? ==> forall k :: k in candidates.value ==> k in queue && Sane(k))
      && (candidates.Some? ==> forall i, j :: 0 <= i < j < |candidates.value| ==> candidates.value[i] != candidates.value[j])
      && (forall f :: f in reservations && reservations[f].queueKey.Some? ==>
            f in entries && Retired(entries[f]) && reservations[f].queueKey.value == KeyOf(entries[f])
            && (candidates.Some? ==> KeyOf(entries[f]) !in candidates.value))
    }

    constructor (entries: map<PageId, Extent>, queue: map<QueueKey, QueueValue>, cursor: Option<QueueKey>)
      requires Indexed(entries, queue)
      ensures Valid() && this.entries == entries && this.queue == queue && this.cursor == cursor
      ensures candidates.None? && reservations == map[] && registered == {}
    {
      this.entries, this.queue, this.cursor := entries, queue, cursor;
      candidates, reservations, registered := None, map[], {};
    }

    /** Reads what a commit may reuse, once, and moves the cursor for the next one. */
    method LoadCandidates(keys: seq<QueueKey>, needed: nat) returns (ok: bool)
      requires Valid() && (candidates.None? ==> Ordered(keys) && forall k :: k in keys ==> k in queue)
      requires candidates.None? ==> forall f :: f in reservations ==> reservations[f].queueKey.None?
      modifies this`candidates, this`cursor
      ensures Valid() && (ok <==> candidates.Some?)
      ensures old(candidates).Some? ==> candidates == old(candidates) && cursor == old(cursor)
      ensures old(candidates).None? ==>
        var rows := Pass(keys, old(cursor), needed);
        cursor == CursorAfter(rows) && (ok <==> forall k :: k in rows ==> Sane(k)) && (ok ==> candidates == Some(rows))
    {
      hide Indexed, Pass, Ordered, CursorAfter;
      if candidates.Some? {
        return true;
      }
      var rows, next := ScanQueue(keys, cursor, needed);
      PassFacts(keys, cursor, needed);
      cursor := next;
      ok := forall k :: k in rows ==> Sane(k);
      if ok {
        candidates := Some(rows);
      }
    }

    /**
     * Picks an extent for a body: the first candidate large enough whose last reference is gone
     * from every version from `oldest` on, or fresh pages at the end of the file if there is none.
     * `keys` is the queue in order; rows of it that no longer describe their extent are skipped
     * and removed.
     */
    method Reserve(keys: seq<QueueKey>, bodyLen: nat, oldest: nat, alloc: PageAllocator) returns (r: Result<Reservation>)
      requires Valid() && alloc.Valid() && bodyLen > 0
      requires candidates.None? ==> Ordered(keys) && forall k :: k in keys <==> k in queue
      requires candidates.None? ==> forall f :: f in reservations ==> reservations[f].queueKey.None?
      requires alloc.nextPageId !in reservations
      modifies this`queue, this`cursor, this`candidates, this`reservations, alloc`nextPageId
      ensures Valid() && alloc.Valid() && entries == old(entries) && registered == old(registered) && alloc.reusable == old(alloc.reusable)
      ensures cursor == if old(candidates).Some? then old(cursor) else CursorAfter(Pass(keys, old(cursor), PayloadPageCount(bodyLen)))
      ensures OnlyStaleGone(entries, old(queue), queue)
      ensures r.Err? ==> r.error == Corruption && reservations == old(reservations)
      ensures r.Err? ==> Damaged(Loaded(old(candidates), keys, old(cursor), PayloadPageCount(bodyLen)), entries, old(queue), alloc.nextPageId)
      ensures r.Ok? ==> candidates.Some? && r.value.first in reservations && reservations[r.value.first].capacity == r.value.capacity >= PayloadPageCount(bodyLen)
      ensures r.Ok? ==> reservations == old(reservations)[r.value.first := reservations[r.value.first]] && reservations[r.value.first].bodyLen == bodyLen
      ensures r.Ok? ==>
        var f, loaded := r.value.first, Loaded(old(candidates), keys, old(cursor), PayloadPageCount(bodyLen));
        || (f == old(alloc.nextPageId) && alloc.nextPageId == f + r.value.capacity && r.value.capacity == PayloadPageCount(bodyLen)
            && NoneLeft(loaded, PayloadPageCount(bodyLen), oldest, entries, old(queue)))
        || (f in entries && Retired(entries[f]) && entries[f].retiredTxid <= oldest && entries[f].capacity == r.value.capacity
            && alloc.nextPageId == old(alloc.nextPageId) && f + r.value.capacity <= alloc.nextPageId
            && FirstLeft(loaded, PayloadPageCount(bodyLen), oldest, entries, old(queue), KeyOf(entries[f])))
    {
      hide Indexed, Pass, Ordered, CursorAfter, NoneLeft, FirstLeft, OnlyStaleGone, Damaged;
      var needed := PayloadPageCount(bodyLen);
      ghost var loaded := Loaded(candidates, keys, cursor, needed);
      var ok := LoadCandidates(keys, needed);
      if !ok {
        NothingGone(entries, queue);
        InsaneIsDamage(loaded, entries, queue, alloc.nextPageId);
        return Err(Corruption);
      }
      var taken := TakeCandidate(loaded, needed, oldest, alloc.nextPageId);
      if taken.Err? {
        return Err(taken.error);
      }
      if taken.value.Some? {
        var k := taken.value.value;
        reservations := reservations[k.first := Reserved(bodyLen, k.capacity, entries[k.first].generation + 1, Some(k))];
        return Ok(Reservation(k.first, k.capacity));
      }
      var first := alloc.ReserveFreshPages(needed);
      reservations := reservations[first := Reserved(bodyLen, needed, 1, None)];
      return Ok(Reservation(first, needed));
    }

    /** Takes candidates until one still describes its extent, removing the stale ones from the queue. */
    method TakeCandidate(ghost loaded: seq<QueueKey>, needed: nat, oldest: nat, end: PageId) returns (r: Result<Option<QueueKey>>)
      requires Valid() && candidates == Some(loaded)
      modifies this`queue, this`candidates
      ensures Valid() && candidates.Some? && OnlyStaleGone(entries, old(queue), queue)
      ensures r.Err? ==> r.error == Corruption && Damaged(loaded, entries, old(queue), end)
      ensures r.Ok? && r.value.None? ==> NoneLeft(loaded, needed, oldest, entries, old(queue))
      ensures r.Ok? && r.value.Some? ==>
        var k := r.value.value;
        && FirstLeft(loaded, needed, oldest, entries, old(queue), k) && Suits(k, needed, oldest) && k !in candidates.value
        && k.first in entries && Retired(entries[k.first]) && k == KeyOf(entries[k.first]) && k.first + k.capacity <= end
    {
      hide Indexed, Left, NoneLeft, FirstLeft, OnlyStaleGone, Damaged;
      ghost var queue0 := queue;
      NothingGone(entries, queue);
      ghost var at := Positions(|loaded|);
      AllLeft(loaded, entries, queue);
      while true
        invariant Valid() && candidates.Some?
        invariant Left(loaded, candidates.value, at, entries, queue0) && OnlyStaleGone(entries, queue0, queue)
        decreases |candidates.value|
      {
        var index := Position(candidates.value, needed, oldest);
        if index == |candidates.value| {
          break;
        }
        var k := candidates.value[index];
        SameRow(entries, queue0, queue, k);
        RemoveAt(candidates.value, index);
        LeftIsLoaded(loaded, candidates.value, at, entries, queue0, index);
        ghost var before := candidates.value;
        candidates := Some(candidates.value[..index] + candidates.value[index + 1..]);
        if k.first !in entries {
          MissingIsDamage(loaded, entries, queue0, end, k);
          return Err(Corruption);
        }
        if !Describes(k, queue[k], entries[k.first]) {
          DropStaleRow(entries, queue, k);
          StaleIsUnreserved(entries, queue, reservations, k);
          GoneMore(entries, queue0, queue, k);
          StaleTaken(loaded, before, at, entries, queue0, index);
          queue := queue - {k};
          at := at[..index] + at[index + 1..];
          continue;
        }
        if k.first + k.capacity > end {
          BeyondIsDamage(loaded, entries, queue0, end, k);
          return Err(Corruption);
        }
        DescribedKey(entries, queue, k);
        FirstIsLeft(loaded, before, at, needed, oldest, entries, queue0, index);
        return Ok(Some(k));
      }
      NothingLeft(loaded, candidates.value, at, needed, oldest, entries, queue0);
      return Ok(None);
    }

    /** The first candidate large enough and retired early enough. */
    method Position(keys: seq<QueueKey>, needed: nat, oldest: nat) returns (i: nat)
      ensures i <= |keys|
      ensures i < |keys| ==> Suits(keys[i], needed, oldest)
      ensures forall j :: 0 <= j < i ==> !Suits(keys[j], needed, oldest)
    {
      i := 0;
      while i < |keys| && !Suits(keys[i], needed, oldest)
        invariant i <= |keys|
        invariant forall j :: 0 <= j < i ==> !Suits(keys[j], needed, oldest)
      {
        i := i + 1;
      }
    }

    /** Records the body written into a reserved extent; it has no references yet. */
    method RegisterBody(reservation: Reservation, reference: PayloadRef) returns (ok: bool)
      requires Valid()
      modifies this
      ensures ok <==> reservation.first in old(reservations) && reference.first == reservation.first
                      && reference.bodyLen == old(reservations)[reservation.first].bodyLen
                      && reservation.capacity == old(reservations)[reservation.first].capacity
                      && PayloadPageCount(reference.bodyLen) <= reservation.capacity
      ensures Valid() && candidates == old(candidates)
      ensures !ok ==> entries == old(entries) && registered == old(registered) && reservations == old(reservations)
      ensures ok ==> entries == old(entries)[reference.first := Extent(reference, 0, reservation.capacity, 0, old(reservations)[reference.first].generation)]
      ensures ok ==> registered == old(registered) + {reference.first} && reservations == old(reservations) - {reference.first}
    {
      if reservation.first !in reservations {
        return false;
      }
      var reserved := reservations[reservation.first];
      if reference.first != reservation.first || reference.bodyLen != reserved.bodyLen || reservation.capacity != reserved.capacity
         || PayloadPageCount(reference.bodyLen) > reservation.capacity {
        return false;
      }
      reservations := reservations - {reservation.first};
      if reserved.queueKey.Some? {
        queue := queue - {reserved.queueKey.value};
      }
      entries := entries[reference.first := Extent(reference, 0, reservation.capacity, 0, reserved.generation)];
      registered := registered + {reference.first};
      return true;
    }

    /** Recounts every extent by the leaf cells a commit adds and drops. */
    method ApplyReferenceChanges(added: seq<PayloadRef>, dropped: seq<PayloadRef>, txid: nat) returns (ok: bool)
      requires Valid() && txid > 0 && reservations == map[]
      modifies this`entries, this`queue
      ensures Valid()
      ensures ok <==> Countable(old(entries), registered, multiset(added), multiset(dropped))
      ensures !ok ==> entries == old(entries) && queue == old(queue)
      ensures ok ==> AllRecounted(old(entries), entries, multiset(added), multiset(dropped), txid)
      ensures ok ==> forall f :: f in entries ==>
        var e, n := old(entries)[f], Net(multiset(added), multiset(dropped), old(entries)[f].reference);
        && entries[f].references == e.references + n && entries[f].reference == e.reference
        && entries[f].capacity == e.capacity && entries[f].generation == e.generation
        && entries[f].retiredTxid == if n == 0 then e.retiredTxid else if e.references + n == 0 then txid else 0
      ensures ok ==> forall f :: f in entries && old(entries)[f].references == 0 && entries[f].references > 0 ==> f in registered
    {
      hide Indexed, Counts, AllRecounted, Recounted, Countable, OneIncarnation, Net, Updating;
      var counted, deltas := CountDeltas(added, dropped);
      if !counted {
        assert !Countable(entries, registered, multiset(added), multiset(dropped)) by { NotCountable(entries, registered, multiset(added), multiset(dropped)); }
        return false;
      }
      FitIsCountable(entries, deltas, registered, multiset(added), multiset(dropped));
      var fits := CheckDeltas(deltas);
      if !fits {
        return false;
      }
      var updated, queued := Update(entries, queue, deltas, txid);
      IndexedFirst(entries, queue);
      DeltasRecount(entries, updated, deltas, multiset(added), multiset(dropped), txid);
      RecountedFields(entries, updated, multiset(added), multiset(dropped), txid);
      RevivedWereRegistered(entries, updated, deltas, registered, txid);
      entries, queue := updated, queued;
      return true;
    }

    /** Validates every count before anything changes. */
    method CheckDeltas(deltas: map<PageId, Delta>) returns (ok: bool)
      ensures ok <==> DeltasFit(entries, deltas, registered)
    {
      var rest := deltas.Keys;
      while rest != {}
        invariant rest <= deltas.Keys
        invariant forall f :: f in deltas && f !in rest ==> DeltaFits(entries, deltas, registered, f)
        decreases |rest|
      {
        var f :| f in rest;
        if !(f in entries && entries[f].reference == deltas[f].reference && entries[f].references + deltas[f].count >= 0) {
          assert !DeltaFits(entries, deltas, registered, f);
          return false;
        }
        if entries[f].references == 0 && deltas[f].count > 0 && f !in registered {
          return false;
        }
        rest := rest - {f};
      }
      return true;
    }

    /** A plan is complete when every reserved extent got a body and every body a reference. */
    method Finish() returns (ok: bool)
      ensures ok <==> reservations == map[] && forall f :: f in registered ==> f in entries && entries[f].references > 0
    {
      if reservations != map[] {
        return false;
      }
      return forall f :: f in registered ==> f in entries && entries[f].references > 0;
    }
  }

  predicate DeltaFits(entries: map<PageId, Extent>, deltas: map<PageId, Delta>, registered: set<PageId>, f: PageId)
    requires f in deltas
  {
    && f in entries && entries[f].reference == deltas[f].reference && entries[f].references + deltas[f].count >= 0
    && (entries[f].references == 0 && deltas[f].count > 0 ==> f in registered)
  }

  ghost predicate DeltasFit(entries: map<PageId, Extent>, deltas: map<PageId, Delta>, registered: set<PageId>) {
    forall f :: f in deltas ==> DeltaFits(entries, deltas, registered, f)
  }

  /** `after` is `before` with the deltas of `done` applied. */
  ghost predicate Updating(before: map<PageId, Extent>, after: map<PageId, Extent>, deltas: map<PageId, Delta>, done: set<PageId>, txid: nat)
    requires forall f :: f in deltas ==> f in before && before[f].references + deltas[f].count >= 0
  {
    && after.Keys == before.Keys && done <= deltas.Keys
    && (forall f :: f in done ==> after[f] == Recounted(before[f], deltas[f].count, txid))
    && (forall f :: f in before && f !in done ==> after[f] == before[f])
  }

  method Update(entries: map<PageId, Extent>, queue: map<QueueKey, QueueValue>, deltas: map<PageId, Delta>, txid: nat)
    returns (updated: map<PageId, Extent>, queued: map<QueueKey, QueueValue>)
    requires Indexed(entries, queue) && txid > 0
    requires forall f :: f in deltas ==> f in entries && entries[f].references + deltas[f].count >= 0
    ensures Updating(entries, updated, deltas, deltas.Keys, txid) && Indexed(updated, queued)
    ensures forall k :: k in queue ==> k in queued
  {
    hide Indexed;
    updated, queued := entries, queue;
    ghost var done: set<PageId> := {};
    var rest := deltas.Keys;
    while rest != {}
      invariant done == deltas.Keys - rest && rest <= deltas.Keys
      invariant Updating(entries, updated, deltas, done, txid) && Indexed(updated, queued)
      invariant forall k :: k in queue ==> k in queued
      decreases |rest|
    {
      var f :| f in rest;
      var e := Recounted(updated[f], deltas[f].count, txid);
      RecountIndexed(updated, queued, f, deltas[f].count, txid);
      updated := updated[f := e];
      if Retired(e) {
        queued := queued[KeyOf(e) := ValueOf(e)];
      }
      rest := rest - {f};
      done := done + {f};
    }
    assert done == deltas.Keys;
  }

  lemma {:induction false} RecountIndexed(entries: map<PageId, Extent>, queue: map<QueueKey, QueueValue>, f: PageId, count: int, txid: nat)
    requires Indexed(entries, queue) && f in entries && entries[f].references + count >= 0 && txid > 0
    ensures var e := Recounted(entries[f], count, txid);
            Indexed(entries[f := e], if Retired(e) then queue[KeyOf(e) := ValueOf(e)] else queue)
  {
    var e := Recounted(entries[f], count, txid);
    assert e.reference == entries[f].reference;
    forall g | g in entries && g != f && Retired(entries[g]) ensures KeyOf(entries[g]) != KeyOf(e) {
      assert entries[g].reference.first == g && entries[f].reference.first == f;
    }
  }

  lemma {:induction false} DeltasRecount(before: map<PageId, Extent>, after: map<PageId, Extent>, deltas: map<PageId, Delta>,
                                         added: multiset<PayloadRef>, dropped: multiset<PayloadRef>, txid: nat)
    requires Counts(deltas, added, dropped) && (forall f :: f in before ==> before[f].reference.first == f)
    requires forall f :: f in deltas ==> f in before && before[f].reference == deltas[f].reference && before[f].references + deltas[f].count >= 0
    requires Updating(before, after, deltas, deltas.Keys, txid)
    ensures AllRecounted(before, after, added, dropped, txid)
  {
    forall f | f in before
      ensures before[f].references + Net(added, dropped, before[f].reference) >= 0
      ensures after[f] == Recounted(before[f], Net(added, dropped, before[f].reference), txid)
    {
      var r := before[f].reference;
      if f !in deltas {
        assert r !in added && r !in dropped;
      }
    }
  }

  lemma {:induction false} RecountedFields(before: map<PageId, Extent>, after: map<PageId, Extent>, added: multiset<PayloadRef>, dropped: multiset<PayloadRef>, txid: nat)
    requires AllRecounted(before, after, added, dropped, txid)
    ensures forall f :: f in after ==>
      && f in before
      && var e, n := before[f], Net(added, dropped, before[f].reference);
      && after[f].references == e.references + n && after[f].reference == e.reference
      && after[f].capacity == e.capacity && after[f].generation == e.generation
      && after[f].retiredTxid == if n == 0 then e.retiredTxid else if e.references + n == 0 then txid else 0
  {
  }

  lemma {:induction false} RevivedWereRegistered(before: map<PageId, Extent>, after: map<PageId, Extent>, deltas: map<PageId, Delta>, registered: set<PageId>, txid: nat)
    requires DeltasFit(before, deltas, registered) && Updating(before, after, deltas, deltas.Keys, txid)
    ensures forall f :: f in after && before[f].references == 0 && after[f].references > 0 ==> f in registered
  {
  }

  lemma {:induction false} IndexedFirst(entries: map<PageId, Extent>, queue: map<QueueKey, QueueValue>)
    requires Indexed(entries, queue)
    ensures forall f :: f in entries ==> entries[f].reference.first == f
  {
  }

  lemma {:induction false} RemoveAt(keys: seq<QueueKey>, index: nat)
    requires index < |keys| && forall i, j :: 0 <= i < j < |keys| ==> keys[i] != keys[j]
    ensures var rest := keys[..index] + keys[index + 1..];
            && |rest| < |keys|
            && (forall k :: k in rest ==> k in keys && k != keys[index])
            && (forall i, j :: 0 <= i < j < |rest| ==> rest[i] != rest[j])
  {
    var rest := keys[..index] + keys[index + 1..];
    assert forall i :: 0 <= i < |rest| ==> rest[i] == if i < index then keys[i] else keys[i + 1];
  }

  /** A row that no longer describes its record is not the row of a pending reservation. */
  lemma {:induction false} StaleIsUnreserved(entries: map<PageId, Extent>, queue: map<QueueKey, QueueValue>, reservations: map<PageId, Reserved>, k: QueueKey)
    requires Indexed(entries, queue) && k in queue && k.first in entries && !Describes(k, queue[k], entries[k.first])
    requires forall f :: f in reservations && reservations[f].queueKey.Some? ==> f in entries && Retired(entries[f]) && reservations[f].queueKey.value == KeyOf(entries[f])
    ensures forall f :: f in reservations && reservations[f].queueKey.Some? ==> reservations[f].queueKey.value != k
  {
  }

  lemma {:induction false} DescribedKey(entries: map<PageId, Extent>, queue: map<QueueKey, QueueValue>, k: QueueKey)
    requires Indexed(entries, queue) && k in queue && k.first in entries && Describes(k, queue[k], entries[k.first]) && k.retiredTxid > 0
    ensures k == KeyOf(entries[k.first]) && Retired(entries[k.first])
  {
  }
}
