/**
 * Closing a failed engine and opening its files again without a crash in between. Opening
 * does not flush, unlike recovering in place, so it matters what is still unflushed.
 */
module CrashReopen {
  import opened Keys
  import opened Pages
  import opened PageHeaders
  import opened WalRecords
  import opened WalScan
  import opened WalReplay
  import opened History
  import opened Crash
  import opened CrashProof
  import opened CrashRuns
  import opened Numbers
  import S = Slotted

  /** A run that starts by opening the files of `s` as they are. */
  ghost predicate Reopening(s: State, r: Run) {
    Stepwise(r) && r.states[0] == s.(mode := Down)
  }

  ghost predicate Loadable(s: State) {
    exists t :: Takes(s, Load, t)
  }

  /** The engine serves some history that begins with `h`. */
  ghost predicate ServesBeyond(s: State, h: Chronicle) {
    exists g :: Valid(g) && h <= g && ServesExactly(s, g)
  }

  ghost function Acknowledged(s: State): Chronicle {
    if s.acked <= |s.hist| then s.hist[..s.acked] else s.hist
  }

  /**
   * What a database owes: closed files open, every acknowledged commit is served, and an
   * engine never serves an older state than an earlier one did.
   */
  ghost predicate FaithfulAt(r: Run, i: nat)
    requires i < |r.states|
  {
    && (r.states[i].mode.Down? ==> Loadable(r.states[i]))
    && (r.states[i].mode.Healthy? ==>
          && ServesBeyond(r.states[i], Acknowledged(r.states[0]))
          && forall k :: 0 <= k < i && r.states[k].mode.Healthy? ==> r.states[k].memory.txid <= r.states[i].memory.txid)
  }

  ghost predicate Faithful(r: Run) {
    forall i: nat :: i < |r.states| ==> FaithfulAt(r, i)
  }

  /** Ids are left for one more commit as large as the oldest one in the durable log. */
  ghost predicate RoomToGrow(s: State) {
    && s.hist != [] && s.durableWal != []
    && LastOf(s.hist).tx.txid + 1 < U64
    && LastOf(s.hist).tx.next + |s.durableWal[0].images| < U64
  }

  /**
   * Exactly when a failed engine's files may be opened without flushing them: the superblock
   * that opening selects is durable, and the log is not an emptied one of which two or more
   * transactions are still durable.
   */
  lemma {:induction false} ReopenIsSafeExactly(s: State)
    requires Inv(s) && s.mode.Poisoned?
    requires KeepsStaleLog(s) ==> RoomToGrow(s)
    ensures (forall r :: Reopening(s, r) ==> Faithful(r)) <==> !BelievesUnflushed(s) && !KeepsStaleLog(s)
  {
    hide Inv, Reopening, Faithful, BelievesUnflushed, KeepsStaleLog, RoomToGrow;
    if BelievesUnflushed(s) {
      var r, i := SlotLost(s);
      assert !Faithful(r);
    } else if KeepsStaleLog(s) {
      var r := LogRefused(s);
      assert !Faithful(r);
    } else {
      forall r | Reopening(s, r) ensures Faithful(r) {
        ReopenedRun(s, r);
      }
    }
  }

  // ---------- the safe half ----------

  lemma {:induction false} ReopenedRun(s: State, r: Run)
    requires Inv(s) && s.mode.Poisoned? && !BelievesUnflushed(s) && !KeepsStaleLog(s) && Reopening(s, r)
    ensures Faithful(r)
  {
    hide Inv, BelievesUnflushed, KeepsStaleLog, FaithfulAt;
    InvFacts(s);
    assert Takes(s, Abandon, r.states[0]);
    AbandonKeeps(s, r.states[0]);
    forall i: nat | i < |r.states| ensures FaithfulAt(r, i) {
      RunIsFaithful(r, i);
    }
  }

  lemma {:induction false} InvFacts(s: State)
    requires Inv(s)
    ensures Valid(s.hist) && s.hist != [] && s.acked <= |s.hist|
  {
    hide Valid, ModeOk, Covered, PendingCovered, LogsOk, SlotsOk, Content, LogMap;
  }

  /** Every run keeps its promises. */
  lemma {:induction false} RunIsFaithful(r: Run, i: nat)
    requires IsRun(r) && i < |r.states|
    ensures FaithfulAt(r, i)
  {
    hide Inv, Takes, ServesExactly, Valid;
    var t := r.states[i];
    RunInvariant(r, i);
    InvFacts(t);
    InvFacts(r.states[0]);
    if t.mode.Down? {
      LoadEnabled(t);
    }
    if t.mode.Healthy? {
      HealthyServes(t);
      HistoryExtends(r, 0, i);
      assert Acknowledged(r.states[0]) <= t.hist;
      forall k | 0 <= k < i && r.states[k].mode.Healthy? ensures r.states[k].memory.txid <= t.memory.txid {
        ServedGrows(r, k, i);
      }
    }
  }

  lemma {:induction false} ServedGrows(r: Run, k: nat, i: nat)
    requires IsRun(r) && k < i < |r.states| && r.states[k].mode.Healthy? && r.states[i].mode.Healthy?
    ensures r.states[k].memory.txid <= r.states[i].memory.txid
  {
    hide Inv, Takes, Valid;
    RunInvariant(r, k);
    RunInvariant(r, i);
    InvFacts(r.states[k]);
    InvFacts(r.states[i]);
    HealthyServes(r.states[k]);
    HealthyServes(r.states[i]);
    HistoryExtends(r, k, i);
    var g, h := r.states[k].hist, r.states[i].hist;
    assert LastOf(g) == h[|g| - 1];
    if |g| < |h| {
      TxidsIncrease(h, |g| - 1, |h| - 1);
    }
  }

  // ---------- building runs ----------

  function Final(r: Run): State
    requires r.states != []
  {
    r.states[|r.states| - 1]
  }

  lemma {:induction false} Starting(s: State) returns (r: Run)
    ensures Stepwise(r) && r == Run([s], [])
  {
    r := Run([s], []);
  }

  /** A run with one more step. */
  lemma {:induction false} Longer(r: Run, step: Step, t: State) returns (r': Run)
    requires Stepwise(r) && Takes(Final(r), step, t)
    ensures Stepwise(r') && Final(r') == t && r' == Run(r.states + [t], r.steps + [step])
  {
    hide Takes;
    r' := Run(r.states + [t], r.steps + [step]);
    forall i | 0 <= i < |r'.steps| ensures Takes(r'.states[i], r'.steps[i], r'.states[i + 1]) {
      if i < |r.steps| {
        assert Takes(r.states[i], r.steps[i], r.states[i + 1]);
      }
    }
  }

  /** Loading files whose newest superblock needs nothing from the log. */
  ghost function Read(s: State, sb: Superblock): State {
    s.(hist := if Adopts(s) && LogDurable(s) then Goal(s) else s.hist,
       pending := if Adopts(s) && !LogDurable(s) then s.pending else None,
       dirty := map[], walDurableTxid := sb.txid, mode := Published(sb))
  }

  lemma {:induction false} Reads(s: State, sb: Superblock)
    requires s.mode.Down? && s.hist != []
    requires Select(s.slots) == Some(sb) && Recover(sb, s.wal) == Recovered(sb, [])
    ensures Takes(s, Load, Read(s, sb))
  {
    hide Select, Recover, Adopts, LogDurable;
  }

  /** The engine once the log is out of the way. */
  function Cleared(l: State, sb: Superblock): State
    requires l.hist != []
  {
    if l.wal == [] && !l.torn
    then Serving(l, sb).(start := |l.hist| - 1, durableStart := if l.durableWal == [] then |l.hist| - 1 else l.durableStart)
    else Serving(l, sb).(wal := [], torn := false, durableWal := [], start := |l.hist| - 1, durableStart := |l.hist| - 1)
  }

  lemma {:induction false} Clears(r: Run, sb: Superblock) returns (r': Run)
    requires Stepwise(r) && Final(r).hist != [] && Final(r).mode == Published(sb) && Final(r).walDurableTxid == sb.txid
    ensures Stepwise(r') && r.states <= r'.states && r.steps <= r'.steps && |r'.states| > |r.states| && Final(r') == Cleared(Final(r), sb)
  {
    var l := Final(r);
    if l.wal == [] && !l.torn {
      r' := Longer(r, Truncate, Cleared(l, sb));
    } else {
      var e := l.(wal := [], torn := false, mode := Truncated(sb));
      var r1 := Longer(r, Truncate, e);
      r' := Longer(r1, FlushTruncate, Cleared(l, sb));
    }
  }

  /** Opening such files. */
  lemma {:induction false} OpensAt(r: Run, sb: Superblock) returns (r': Run)
    requires Stepwise(r) && Final(r).mode.Down? && Final(r).hist != []
    requires Select(Final(r).slots) == Some(sb) && Recover(sb, Final(r).wal) == Recovered(sb, [])
    ensures Stepwise(r') && r.states <= r'.states && r.steps <= r'.steps && |r'.states| > |r.states|
    ensures Read(Final(r), sb).hist != [] && Final(r') == Cleared(Read(Final(r), sb), sb)
  {
    hide Select, Recover, Adopts, Takes;
    Reads(Final(r), sb);
    var r1 := Longer(r, Load, Read(Final(r), sb));
    r' := Clears(r1, sb);
  }

  /** A crash after which only what was durable of the slots is left, and nothing of an empty log. */
  lemma {:induction false} SlotsRevert(r: Run) returns (r': Run)
    requires Stepwise(r) && Final(r).hist != [] && Final(r).wal == [] && !Newer(Final(r), Final(r).durableSlots)
    ensures Stepwise(r') && r.states <= r'.states && r.steps <= r'.steps && |r'.states| == |r.states| + 1
    ensures var s, t := Final(r), Final(r');
            t.mode.Down? && t.hist == s.hist && t.main == s.main && t.slots == t.durableSlots == s.durableSlots && t.wal == [] && !t.torn
  {
    var s := Final(r);
    assert MainSurvives(s, s.main) && SlotsSurvive(s, s.durableSlots) && WalSurvives(s, [], s.start);
    r' := Longer(r, Step.Crash(s.main, s.durableSlots, [], false, s.start), Survivor(s, s.main, s.durableSlots, [], false, s.start));
  }

  // ---------- an unflushed superblock ----------

  /** What the two slots publish when the newer one is not durable. */
  lemma {:induction false} UnflushedSlot(s: State) returns (newer: Superblock, older: Superblock)
    requires Inv(s) && s.mode.Poisoned? && BelievesUnflushed(s)
    ensures Valid(Goal(s)) && s.base < |Goal(s)| - 1
    ensures Select(s.slots) == Some(newer) && Recover(newer, s.wal) == Recovered(newer, []) && newer.txid == LastOf(Goal(s)).tx.txid
    ensures Select(s.durableSlots) == Some(older) && Recover(older, []) == Recovered(older, []) && older.txid == Goal(s)[s.base].tx.txid
    ensures !Newer(s, s.durableSlots)
  {
    hide Content, LogMap, Touches, WriteAll, Valid, Extends, Txs, Covered, MainHolds, LogsOk, Recover;
    BelievedIsQuiet(s);
    assert s.active == 0 || s.active == 1;
    newer, older := s.slots[Other(s.active)].value, s.slots[s.active].value;
    if s.pending.Some? {
      PendingExtends(s);
      ValidSnoc(s.hist, s.pending.value);
    }
    assert Goal(s)[s.base] == s.hist[s.base];
    NothingNewer(s, newer);
    OldSlotLoads(s, older);
  }

  lemma {:induction false} NothingNewer(s: State, sb: Superblock)
    requires s.start < |s.hist| && s.durableStart < |s.hist| && LogsOk(s) && Valid(Goal(s))
    requires sb == Publishing(LastOf(Goal(s)), sb.generation, sb.slot)
    ensures Recover(sb, s.wal) == Recovered(sb, [])
  {
    hide Valid, Ascending, VisitAll, Txs;
    var h := Goal(s);
    assert s.wal <= Txs(h[s.start + 1..]) by { GoalSince(s, s.start); }
    LogAscends(h, s.start, s.wal);
    RootInRange(h, |h| - 1);
    PublishedPrefix(h, s.start, s.wal);
    RecoverNothing(sb, s.wal, []);
  }

  lemma {:induction false} OldSlotLoads(s: State, sb: Superblock)
    requires Valid(s.hist) && s.base < |s.hist| && sb == Publishing(s.hist[s.base], sb.generation, sb.slot)
    ensures Recover(sb, []) == Recovered(sb, [])
  {
    hide Valid;
    RootInRange(s.hist, s.base);
  }

  /**
   * The unflushed slot is believed, the log is truncated, and a crash then brings the old slot
   * back without the log: the engine first serves the newer commit, then the older one.
   */
  lemma {:induction false} SlotLost(s: State) returns (r: Run, i: nat)
    requires Inv(s) && s.mode.Poisoned? && BelievesUnflushed(s)
    ensures Reopening(s, r) && !Faithful(r)
    ensures i < |r.states| - 1 && r.states[i].mode.Healthy? && r.states[i].memory.txid == LastOf(Goal(s)).tx.txid
    ensures s.base < |s.hist| && Final(r).mode.Healthy? && Final(r).memory.txid == s.hist[s.base].tx.txid
  {
    hide Inv, BelievesUnflushed, Select, Recover, Takes, Adopts, Newer, Read, Cleared, Stepwise, Loadable, ServesBeyond;
    var newer, older := UnflushedSlot(s);
    BaseInHistory(s);
    var start := Starting(s.(mode := Down));
    var opened' := OpensAt(start, newer);
    i := |opened'.states| - 1;
    OpenedFacts(start.states[0], newer);
    SameNewer(s, Final(opened'));
    var crashed := SlotsRevert(opened');
    r := OpensAt(crashed, older);
    OpenedFacts(Final(crashed), older);
    TxidsIncrease(Goal(s), s.base, |Goal(s)| - 1);
    assert r.states[0] == start.states[0];
    assert r.states[i] == Final(opened');
    assert !FaithfulAt(r, |r.states| - 1);
  }

  /** What opening leaves alone. */
  lemma {:induction false} OpenedFacts(s: State, sb: Superblock)
    requires s.hist != [] && Read(s, sb).hist != []
    ensures var t := Cleared(Read(s, sb), sb);
            && t.mode.Healthy? && t.memory == sb && t.hist != [] && t.wal == []
            && t.durableSlots == s.durableSlots && t.slots == s.slots && t.active == s.active
  {
    hide Adopts, LogDurable;
  }

  lemma {:induction false} SameNewer(s: State, t: State)
    requires t.active == s.active && t.durableSlots == s.durableSlots && !Newer(s, s.durableSlots)
    ensures !Newer(t, t.durableSlots)
  {
  }

  lemma {:induction false} BaseInHistory(s: State)
    requires Inv(s)
    ensures s.base < |s.hist| && s.hist != [] && Goal(s)[s.base] == s.hist[s.base]
  {
    hide Valid, ModeOk, Covered, PendingCovered, LogsOk, SlotsOk, Content, LogMap;
  }

  /** If an acknowledged commit lies beyond the durable superblock, it is gone. */
  lemma {:induction false} AcknowledgedLost(s: State) returns (r: Run)
    requires Inv(s) && s.mode.Poisoned? && BelievesUnflushed(s) && s.base + 1 < s.acked
    ensures Reopening(s, r) && Final(r).mode.Healthy? && !ServesBeyond(Final(r), Acknowledged(s))
  {
    hide Inv, BelievesUnflushed, Reopening, Faithful;
    var i: nat;
    r, i := SlotLost(s);
    InvFacts(s);
    var t, h := Final(r), Acknowledged(s);
    forall g | Valid(g) && h <= g && ServesExactly(t, g) ensures false {
      assert g[s.base] == h[s.base] == s.hist[s.base];
      TxidsIncrease(g, s.base, |g| - 1);
    }
  }

  // ---------- an emptied log that is still durable ----------

  lemma {:induction false} BackwardsIsNotAscending(c: Tx, stale: seq<Tx>)
    requires |stale| > 1 && stale[1].txid < c.txid
    ensures !Ascending([c] + stale[1..])
  {
    var w := [c] + stale[1..];
    assert w[0] == c && w[1] == stale[1];
  }

  /** What the files of `s` look like once opened: an empty log over the old one. */
  lemma {:induction false} StaleFacts(s: State) returns (sb: Superblock)
    requires Inv(s) && s.mode.Poisoned? && !BelievesUnflushed(s) && KeepsStaleLog(s)
    ensures s.hist != [] && Valid(s.hist) && s.active < 2 && !Newer(s, s.slots)
    ensures Select(s.slots) == Some(sb) && Recover(sb, s.wal) == Recovered(sb, [])
    ensures !Adopts(s) && s.durableStart < |s.hist| - 1 && s.durableWal <= Since(s, s.durableStart)
  {
    hide Content, LogMap, Touches, WriteAll, Valid, Extends, Txs, Covered, PendingCovered, MainHolds, Recover, BelievesUnflushed;
    BelievedIsQuiet(s);
    SelectsActive(s);
    sb := s.slots[s.active].value;
    OldSlotLoads(s, sb);
    StaleLog(s);
  }

  lemma {:induction false} StaleLog(s: State)
    requires s.start < |s.hist| && s.durableStart < |s.hist| && LogsOk(s) && s.wal == [] && |s.durableWal| > 1
    ensures !Adopts(s) && s.durableStart < |s.hist| - 1 && s.durableWal <= Since(s, s.durableStart)
  {
    var all := WithPending(s, s.durableStart);
    assert s.durableWal <= all;
    assert |s.durableWal| <= |Since(s, s.durableStart)| + 1;
  }

  /**
   * Opening leaves the emptied log alone, the next commit is written over the head of the old
   * records, and a crash that keeps this write but not the truncation makes the log go backwards.
   */
  lemma {:induction false} LogRefused(s: State) returns (r: Run)
    requires Inv(s) && s.mode.Poisoned? && !BelievesUnflushed(s) && KeepsStaleLog(s) && RoomToGrow(s)
    ensures Reopening(s, r) && !Faithful(r)
    ensures Final(r).mode.Down? && !Loadable(Final(r))
  {
    hide Inv, BelievesUnflushed, Recover, Takes, Adopts, Newer, Extends, TxValid;
    var sb := StaleFacts(s);
    var start := Starting(s.(mode := Down));
    assert !Adopts(s.(mode := Down)) by { SameAdopts(s); }
    var opened' := OpensAt(start, sb);
    OldestIsValid(s);
    var c := NextCommit(s.hist, |s.durableWal[0].images|);
    var begun := CommitsOver(opened', c);
    var t := Final(begun);
    assert !Newer(t, t.slots) by { assert t.active == s.active && t.slots == s.slots; SameSelection(s, t); }
    OldRecords(s, c);
    assert Spliced(t, s.durableWal[1..]) by { assert |Log(t.wal)| == |Log(t.durableWal[..1])|; }
    r := LogSplices(begun, s.durableWal[1..]);
    var w := Final(r).wal;
    assert w == [c.tx] + s.durableWal[1..];
    BackwardsIsNotAscending(c.tx, s.durableWal);
    NotLoadable(Final(r));
    assert r.states[0] == start.states[0];
    assert !FaithfulAt(r, |r.states| - 1);
  }

  lemma {:induction false} OldestIsValid(s: State)
    requires Valid(s.hist) && s.durableStart < |s.hist| && s.durableWal <= Since(s, s.durableStart) && |s.durableWal| > 1
    ensures |s.durableWal[0].images| < U32
  {
    hide Valid, ImageVerifies;
    assert s.durableWal[0] == Since(s, s.durableStart)[0] == s.hist[s.durableStart + 1].tx;
    ExtendsAt(s.hist, s.durableStart + 1);
  }

  /** Images of `n` empty pages from `first` on. */
  function EmptyPages(first: PageId, n: nat): (r: seq<Image>)
    ensures |r| == n
    ensures forall i :: 0 <= i < n ==> r[i] == Image(first + i, S.EmptyLeaf(first + i))
  {
    seq(n, i requires 0 <= i < n => Image(first + i, S.EmptyLeaf(first + i)))
  }

  lemma {:induction false} EmptyPagesValid(txid: nat, first: PageId, n: nat, root: PageId)
    requires n < U32 && txid < U64 && 0 < root < first && first + n < U64
    ensures TxValid(Tx(txid, EmptyPages(first, n), root, first + n))
  {
    hide S.EmptyLeaf, ImageVerifies;
    var images := EmptyPages(first, n);
    forall i | 0 <= i < n ensures ImageVerifies(images[i].bytes, images[i].page) && |images[i].bytes| == PAGE_SIZE {
      S.EmptyLeafVerifies(first + i);
    }
  }

  lemma {:induction false} OnlyNewPages(txid: nat, first: PageId, n: nat, root: PageId, p: PageId)
    requires p < first
    ensures !Touches(Tx(txid, EmptyPages(first, n), root, first + n), p)
  {
    hide S.EmptyLeaf;
  }

  /** As long as ids are left, a commit of any number of new pages can follow. */
  lemma {:induction false} NextCommit(h: Chronicle, n: nat) returns (c: Commit)
    requires Valid(h) && h != [] && n < U32
    requires LastOf(h).tx.txid + 1 < U64 && LastOf(h).tx.next + n < U64
    ensures Extends(h, c) && c.bodies == map[] && |c.tx.images| == n
  {
    hide Valid, TxValid, Touches, EmptyPages;
    var last := LastOf(h).tx;
    RootInRange(h, |h| - 1);
    EmptyPagesValid(last.txid + 1, last.next, n, last.root);
    c := Commit(Tx(last.txid + 1, EmptyPages(last.next, n), last.root, last.next + n), map[], LastOf(h).reach);
    forall p | p in c.reach ensures !Touches(c.tx, p) && p < c.tx.next {
      InsideFile(h, |h| - 1, p);
      OnlyNewPages(last.txid + 1, last.next, n, last.root, p);
    }
    forall i, p | 0 <= i < |h| && p in h[i].bodies ensures !Touches(c.tx, p) {
      InsideFile(h, i, p);
      OnlyNewPages(last.txid + 1, last.next, n, last.root, p);
    }
  }

  lemma {:induction false} SameAdopts(s: State)
    ensures Adopts(s.(mode := Down)) == Adopts(s)
  {
  }

  lemma {:induction false} SameSelection(s: State, t: State)
    requires t.active == s.active && t.slots == s.slots && !Newer(s, s.slots)
    ensures !Newer(t, t.slots)
  {
  }

  lemma {:induction false} NotLoadable(s: State)
    requires !Ascending(s.wal)
    ensures !Loadable(s)
  {
  }

  /** The old records are older than `c`, and the first of them is as long as the records of `c`. */
  lemma {:induction false} OldRecords(s: State, c: Commit)
    requires Valid(s.hist) && s.hist != [] && s.durableStart < |s.hist| && s.durableWal <= Since(s, s.durableStart) && |s.durableWal| > 1
    requires Extends(s.hist, c) && |c.tx.images| == |s.durableWal[0].images|
    ensures s.durableWal[1].txid < c.tx.txid
    ensures |Log([c.tx])| == |Log(s.durableWal[..1])|
  {
    hide Valid, Touches, Content, EncodeAll, RecordsOf;
    PublishedPrefix(s.hist, s.durableStart, s.durableWal);
    var t := s.durableWal[0];
    assert t == Since(s, s.durableStart)[0] == s.hist[s.durableStart + 1].tx;
    ExtendsAt(s.hist, s.durableStart + 1);
    OneLog(c.tx);
    OneLog(t);
    assert s.durableWal[..1] == [t];
    TxSize(c.tx);
    TxSize(t);
  }

  lemma {:induction false} OneLog(tx: Tx)
    ensures Log([tx]) == EncodeAll(RecordsOf(tx))
  {
    hide EncodeAll, RecordsOf;
    assert [tx][1..] == [];
    assert Log([]) == [];
  }

  /** A commit appended but not flushed. */
  lemma {:induction false} CommitsOver(r: Run, c: Commit) returns (r': Run)
    requires Stepwise(r) && Final(r).mode.Healthy? && Final(r).hist != [] && Extends(Final(r).hist, c) && Final(r).wal == []
    requires c.bodies == map[]
    ensures Stepwise(r') && r.states <= r'.states
    ensures Final(r') == Final(r).(mode := LogWritten(c), pending := Some(c), torn := false, wal := [c.tx])
  {
    hide Extends;
    var s := Final(r);
    var r1 := Longer(r, BeginAppend(c), s.(mode := Appending(c), pending := Some(c), torn := true));
    r' := Longer(r1, CompleteAppend, s.(mode := LogWritten(c), pending := Some(c), torn := false, wal := s.wal + [c.tx]));
  }

  lemma {:induction false} LogSplices(r: Run, rest: seq<Tx>) returns (r': Run)
    requires Stepwise(r) && Final(r).hist != [] && Final(r).start != Final(r).durableStart && Spliced(Final(r), rest) && !Newer(Final(r), Final(r).slots)
    ensures Stepwise(r') && r.states <= r'.states && |r'.states| > |r.states| && Final(r').mode.Down? && Final(r').wal == Final(r).wal + rest
  {
    hide Spliced, Newer;
    var s := Final(r);
    var w := s.wal + rest;
    assert w[|s.wal|..] == rest;
    assert MainSurvives(s, s.main) && SlotsSurvive(s, s.slots) && WalSurvives(s, w, s.start);
    var t := Survivor(s, s.main, s.slots, w, false, s.start);
    SameSelection(s, t);
    r' := Longer(r, Step.Crash(s.main, s.slots, w, false, s.start), t);
  }
}
