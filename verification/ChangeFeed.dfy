/** The change feed: bounded retention, policy changes, and cursors that never miss a change. */
module ChangeFeeding {
  import opened Keys
  import opened Numbers
  import opened Pages
  import opened ChangeLog

  const CHANGE_LOG_PRUNE_BATCH := 1024

  datatype LogEntry = LogEntry(txid: nat, sequence: nat, change: Change)

  datatype Version = Version(txid: nat, data: Data)

  // ---------- the log as a sequence ----------

  ghost predicate EntryBefore(a: LogEntry, b: LogEntry) {
    a.txid < b.txid || (a.txid == b.txid && a.sequence < b.sequence)
  }

  ghost predicate LogSorted(log: seq<LogEntry>) {
    && (forall i, j :: 0 <= i < j < |log| ==> EntryBefore(log[i], log[j]))
    && (forall i :: 0 <= i < |log| ==> log[i].txid < U64 && log[i].sequence < U32)
  }

  /** The changes of transactions after `cursor`. */
  function ChangesAfter(log: seq<LogEntry>, cursor: nat): seq<Change> {
    if log == [] then [] else (if log[0].txid > cursor then [log[0].change] else []) + ChangesAfter(log[1..], cursor)
  }

  lemma {:induction false} ChangesAfterAppend(a: seq<LogEntry>, b: seq<LogEntry>, cursor: nat)
    ensures ChangesAfter(a + b, cursor) == ChangesAfter(a, cursor) + ChangesAfter(b, cursor)
    decreases |a|
  {
    if a == [] {
      assert a + b == b;
    } else {
      assert (a + b)[1..] == a[1..] + b;
      ChangesAfterAppend(a[1..], b, cursor);
    }
  }

  lemma {:induction false} NothingAfter(log: seq<LogEntry>, cursor: nat)
    requires forall i :: 0 <= i < |log| ==> log[i].txid <= cursor
    ensures ChangesAfter(log, cursor) == []
    decreases |log|
  {
    if log != [] {
      assert forall i :: 0 <= i < |log[1..]| ==> log[1..][i] == log[i + 1];
      NothingAfter(log[1..], cursor);
    }
  }

  /** The entries a commit appends. */
  function Entries(txid: nat, changes: seq<Change>): (r: seq<LogEntry>)
    ensures |r| == |changes|
  {
    seq(|changes|, i requires 0 <= i < |changes| => LogEntry(txid, i, changes[i]))
  }

  lemma {:induction false} AllEntriesAfter(txid: nat, changes: seq<Change>, from: nat, cursor: nat)
    requires cursor < txid && from <= |changes|
    ensures ChangesAfter(Entries(txid, changes)[from..], cursor) == changes[from..]
    decreases |changes| - from
  {
    if from < |changes| {
      var es := Entries(txid, changes)[from..];
      assert es[0].change == changes[from] && es[1..] == Entries(txid, changes)[from + 1..];
      AllEntriesAfter(txid, changes, from + 1, cursor);
      assert changes[from..] == [changes[from]] + changes[from + 1..];
    }
  }

  // ---------- the past ----------

  ghost predicate PastOk(past: seq<Version>) {
    past != [] && forall i, j :: 0 <= i < j < |past| ==> past[i].txid < past[j].txid
  }

  /** The data a cursor stands for: that of the last commit up to it. */
  ghost function DataAt(past: seq<Version>, cursor: nat): Data
    requires past != []
    decreases |past|
  {
    if |past| == 1 || past[|past| - 1].txid <= cursor then past[|past| - 1].data else DataAt(past[..|past| - 1], cursor)
  }

  /** Replaying everything after any accepted cursor gives the latest data. */
  ghost predicate Complete(past: seq<Version>, log: seq<LogEntry>, floor: nat, last: nat, data: Data)
    requires past != []
  {
    forall c :: floor <= c <= last ==> CatchesUp(past, log, c, data)
  }

  ghost predicate CatchesUp(past: seq<Version>, log: seq<LogEntry>, c: nat, data: Data)
    requires past != []
  {
    Same(ReplayAll(DataAt(past, c), ChangesAfter(log, c)), data)
  }

  lemma {:induction false} LatestCatchesUp(past: seq<Version>, log: seq<LogEntry>, c: nat, data: Data)
    requires past != [] && past[|past| - 1].txid <= c && past[|past| - 1].data == data
    requires forall i :: 0 <= i < |log| ==> log[i].txid <= c
    ensures CatchesUp(past, log, c, data)
  {
    NothingAfter(log, c);
    Reflexive(data);
  }

  /** One commit later, a cursor that caught up still does, if nothing after it was pruned. */
  lemma {:induction false} CommitCatchesUp(past: seq<Version>, log: seq<LogEntry>, pruned: nat, changes: seq<Change>, txid: nat, c: nat, data: Data, data': Data)
    requires past != [] && pruned <= |log| && CatchesUp(past, log, c, data) && c < txid
    requires forall i :: 0 <= i < pruned ==> log[i].txid <= c
    requires Same(ReplayAll(data, changes), data')
    ensures CatchesUp(past + [Version(txid, data')], log[pruned..] + Entries(txid, changes), c, data')
  {
    hide Same, ReplayAll, ChangesAfter;
    var kept, added := log[pruned..], Entries(txid, changes);
    assert log == log[..pruned] + kept;
    ChangesAfterAppend(log[..pruned], kept, c);
    NothingAfter(log[..pruned], c);
    assert ChangesAfter(log, c) == ChangesAfter(kept, c);
    ChangesAfterAppend(kept, added, c);
    AllEntriesAfter(txid, changes, 0, c);
    assert added[0..] == added && changes[0..] == changes;
    var before := DataAt(past, c);
    assert DataAt(past + [Version(txid, data')], c) == before by { EarlierData(past, Version(txid, data'), c); }
    ReplayAppend(before, ChangesAfter(kept, c), changes);
    ReplayAllSame(ReplayAll(before, ChangesAfter(kept, c)), data, changes);
    SameTransitive(ReplayAll(before, ChangesAfter(kept, c) + changes), ReplayAll(data, changes), data');
  }

  lemma {:induction false} EarlierData(past: seq<Version>, v: Version, c: nat)
    requires past != [] && c < v.txid
    ensures DataAt(past + [v], c) == DataAt(past, c)
  {
    assert (past + [v])[..|past|] == past;
  }

  // ---------- retention ----------

  /** The first entries up to `target`, at most a batch of them. */
  ghost predicate PruneCount(log: seq<LogEntry>, target: nat, n: nat) {
    && n <= |log| && n <= CHANGE_LOG_PRUNE_BATCH
    && (forall i :: 0 <= i < n ==> log[i].txid <= target)
    && (n < CHANGE_LOG_PRUNE_BATCH && n < |log| ==> log[n].txid > target)
  }

  /** How many entries are at or below `target`. */
  ghost function Due(log: seq<LogEntry>, target: nat): nat {
    if log == [] then 0 else (if log[0].txid <= target then 1 else 0) + Due(log[1..], target)
  }

  lemma {:induction false} NothingDue(log: seq<LogEntry>, target: nat)
    requires forall i :: 0 <= i < |log| ==> log[i].txid > target
    ensures Due(log, target) == 0
    decreases |log|
  {
    if log != [] {
      assert forall i :: 0 <= i < |log[1..]| ==> log[1..][i] == log[i + 1];
      NothingDue(log[1..], target);
    }
  }

  /** The first `n` entries are due; so are no others, if the next one is not. */
  lemma {:induction false} DueFirst(log: seq<LogEntry>, target: nat, n: nat)
    requires LogSorted(log) && n <= |log| && forall i :: 0 <= i < n ==> log[i].txid <= target
    ensures Due(log, target) >= n
    ensures n == |log| || log[n].txid > target ==> Due(log, target) == n
    decreases n
  {
    if n == 0 {
      if log != [] && log[0].txid > target {
        assert forall i :: 0 < i < |log| ==> EntryBefore(log[0], log[i]);
        NothingDue(log, target);
      }
    } else {
      assert forall i :: 0 <= i < |log[1..]| ==> log[1..][i] == log[i + 1];
      DueFirst(log[1..], target, n - 1);
    }
  }

  function Larger(a: nat, b: nat): nat {
    if a < b then b else a
  }

  /** Where a commit's retention starts: a feed that was off begins with this commit. */
  function StartFloor(enabled: bool, floor: nat, txid: nat): nat {
    if enabled then floor else if txid == 0 then 0 else txid - 1
  }

  /** The oldest transaction that a policy retains from. */
  function RetainedFrom(txid: nat, retain: nat): nat {
    if txid >= retain then txid - retain else 0
  }

  /** How far the policy lets a commit prune: to the retained transactions, or as far as a batch of records reaches. */
  ghost predicate Retains(log: seq<LogEntry>, hasLog: bool, txid: nat, retain: Option<nat>, start: nat, pruned: nat, floor: nat) {
    if !hasLog || retain.None? || RetainedFrom(txid, retain.value) <= start then pruned == 0 && floor == start
    else
      var due := Due(log, RetainedFrom(txid, retain.value));
      if due < CHANGE_LOG_PRUNE_BATCH then pruned == due && floor == RetainedFrom(txid, retain.value)
      else pruned == CHANGE_LOG_PRUNE_BATCH <= |log| && floor == Larger(start, log[CHANGE_LOG_PRUNE_BATCH - 1].txid) && floor <= RetainedFrom(txid, retain.value)
  }

  method CollectBelow(log: seq<LogEntry>, target: nat) returns (n: nat)
    requires LogSorted(log) && target + 1 < U64
    ensures PruneCount(log, target, n)
  {
    hide LogKey, Less;
    n := 0;
    while n < CHANGE_LOG_PRUNE_BATCH && n < |log|
      invariant n <= |log| && n <= CHANGE_LOG_PRUNE_BATCH
      invariant forall i :: 0 <= i < n ==> log[i].txid <= target
    {
      BelowTargetKey(target, log[n].txid, log[n].sequence);
      if !Less(LogKey(log[n].txid, log[n].sequence), LogKey(target + 1, 0)) {
        break;
      }
      n := n + 1;
    }
  }

  /** The floor the catalog holds once a commit has rewritten it, if it has. */
  function Recorded(hasLog: bool, floor: nat, persisted: nat, newFloor: nat, catalogChanged: bool): nat {
    if catalogChanged && (newFloor != floor || (newFloor != 0 && !hasLog)) then newFloor else persisted
  }

  /** A log's floor is in the catalog; without a log the catalog may still say zero. */
  ghost predicate FloorRecorded(hasLog: bool, floor: nat, persisted: nat) {
    if hasLog then persisted == floor else persisted == 0 || persisted == floor
  }

  lemma {:induction false} FloorStaysRecorded(hasLog: bool, floor: nat, persisted: nat, newFloor: nat, catalogChanged: bool, logged: bool)
    requires FloorRecorded(hasLog, floor, persisted) && (logged || newFloor != floor ==> catalogChanged)
    ensures FloorRecorded(hasLog || logged, newFloor, Recorded(hasLog, floor, persisted, newFloor, catalogChanged))
  {
  }

  // ---------- the feed ----------

  datatype Feed = Changes(changes: seq<Change>) | BeyondLatest | Compacted

  class ChangeFeed {
    var log: seq<LogEntry>
    var hasLog: bool
    var floor: nat
    var persistedFloor: nat
    var enabled: bool
    var retain: Option<nat>
    var last: nat
    var data: Data
    ghost var past: seq<Version>

    ghost predicate Valid()
      reads this
    {
      && past != [] && PastOk(past) && past[|past| - 1] == Version(last, data)
      && LogSorted(log) && (forall i :: 0 <= i < |log| ==> log[i].txid <= last)
      && (!hasLog ==> log == [])
      && (!enabled ==> !hasLog)
      && floor <= last
      && FloorRecorded(hasLog, floor, persistedFloor)
      && (enabled ==> Complete(past, log, floor, last, data))
    }

    /** The oldest cursor the feed accepts. */
    function EffectiveFloor(): nat
      reads this
    {
      if enabled then floor else last
    }

    ghost predicate Accepts(cursor: nat)
      reads this
    {
      EffectiveFloor() <= cursor <= last
    }

    /** A new database: nothing committed, feed enabled without a retention limit. */
    constructor ()
      ensures Valid() && data == map[] && past == [Version(0, map[])]
    {
      log, hasLog, floor, persistedFloor, enabled, retain, last := [], false, 0, 0, true, None, 0;
      data, past := map[], [Version(0, map[])];
      new;
      LatestCatchesUp(past, log, 0, data);
    }

    /**
     * Commits staged stores and a policy. When the feed is on, outdated records are pruned in
     * bounded batches and the commit's own changes are appended; when it is off the log goes.
     */
    method Commit(stages: seq<Stage>, txid: nat, enabled': bool, retain': Option<nat>, otherCatalogChange: bool) returns (ok: bool)
      requires Valid() && StagesOk(data, stages) && last < txid && txid + 1 < U64
      requires retain' != Some(0)
      modifies this
      ensures Valid()
      ensures ok <==> (enabled' ==> |AllChanges(old(data), stages)| <= U32)
      ensures ok ==> last == txid && data == ApplyStages(old(data), stages) && past == old(past) + [Version(txid, data)]
      ensures !ok ==> last == old(last) && data == old(data) && past == old(past)
      ensures ok ==> enabled == enabled' && retain == retain'
      ensures EffectiveFloor() >= old(EffectiveFloor()) && EffectiveFloor() <= last
      // cursors that the policy retains stay accepted, and what it does not retain is given up
      ensures ok && enabled' && old(enabled) ==> forall c: nat :: old(Accepts(c)) && (retain'.Some? ==> c + retain'.value >= txid) ==> Accepts(c)
      ensures ok && enabled' && old(hasLog) && retain'.Some? && retain'.value <= txid && Due(old(log), txid - retain'.value) < CHANGE_LOG_PRUNE_BATCH ==>
        floor + retain'.value >= txid
      ensures ok && enabled' && !old(enabled) ==> floor == txid - 1
      ensures ok && !enabled' ==> !hasLog && forall c: nat :: Accepts(c) <==> c == txid
    {
      hide AllChanges, ApplyStages, Complete, LogSorted, PastOk, StagesOk, Same;
      if enabled' {
        ok := CommitLogged(stages, txid, retain', otherCatalogChange);
      } else {
        CommitUnlogged(stages, txid, retain', otherCatalogChange);
        ok := true;
      }
    }

    /** With the feed off the log is removed, and only the latest cursor is accepted. */
    method CommitUnlogged(stages: seq<Stage>, txid: nat, retain': Option<nat>, otherCatalogChange: bool)
      requires Valid() && last < txid
      modifies this
      ensures Valid() && !enabled && !hasLog && retain == retain' && EffectiveFloor() == txid
      ensures last == txid && data == ApplyStages(old(data), stages) && past == old(past) + [Version(txid, data)]
    {
      hide ApplyStages, Complete, LogSorted, PastOk;
      var data' := ApplyStages(data, stages);
      PastGrows(past, Version(txid, data'));
      var catalogChanged := otherCatalogChange || hasLog || enabled || retain != retain';
      persistedFloor := Recorded(hasLog, floor, persistedFloor, floor, catalogChanged);
      log, hasLog, enabled, retain, last := [], false, false, retain', txid;
      data := data';
      past := past + [Version(txid, data')];
      EmptyLogSorted();
    }

    /** With the feed on, outdated records are pruned and the commit's changes appended. */
    method CommitLogged(stages: seq<Stage>, txid: nat, retain': Option<nat>, otherCatalogChange: bool) returns (ok: bool)
      requires Valid() && StagesOk(data, stages) && last < txid && txid + 1 < U64 && retain' != Some(0)
      modifies this
      ensures Valid()
      ensures ok <==> |AllChanges(old(data), stages)| <= U32
      ensures ok ==> enabled && last == txid && data == ApplyStages(old(data), stages) && past == old(past) + [Version(txid, data)]
      ensures ok ==> floor >= old(EffectiveFloor()) && retain == retain'
      ensures ok ==> exists pruned: nat ::
        && Retains(old(log), old(hasLog), txid, retain', StartFloor(old(enabled), old(floor), txid), pruned, floor)
        && pruned <= |old(log)| && log == old(log)[pruned..] + Entries(txid, AllChanges(old(data), stages))
      ensures !ok ==> last == old(last) && data == old(data) && past == old(past) && EffectiveFloor() == old(EffectiveFloor())
    {
      hide AllChanges, ApplyStages, Complete, LogSorted, PastOk, StagesOk, Same, Entries, Recorded, FloorRecorded;
      var changes := AllChanges(data, stages);
      if |changes| > U32 {
        return false;
      }
      var data' := ApplyStages(data, stages);
      CommitReplays(data, stages);
      var startFloor := StartFloor(enabled, floor, txid);
      var pruned, newFloor := Prune(txid, retain', startFloor);
      CommitComplete(past, log, pruned, changes, txid, data, data', enabled, floor, last, newFloor);
      AppendSorted(log, pruned, txid, changes, last);
      NoEntries(txid, changes);
      Install(log[pruned..] + Entries(txid, changes), changes != [] || pruned > 0, newFloor, retain', txid, data', otherCatalogChange);
      return true;
    }

    /** Publishes the new log, floor, policy and data. */
    method Install(log': seq<LogEntry>, logged: bool, newFloor: nat, retain': Option<nat>, txid: nat, data': Data, otherCatalogChange: bool)
      requires Valid() && last < txid && LogSorted(log') && newFloor <= txid
      requires (forall i :: 0 <= i < |log'| ==> log'[i].txid <= txid) && (!hasLog && !logged ==> log' == [])
      requires Complete(past + [Version(txid, data')], log', newFloor, txid, data')
      modifies this
      ensures Valid() && enabled && last == txid && data == data' && floor == newFloor && log == log' && retain == retain' && past == old(past) + [Version(txid, data')]
    {
      hide Complete, LogSorted, PastOk, Recorded, FloorRecorded;
      PastGrows(past, Version(txid, data'));
      var catalogChanged := otherCatalogChange || logged || newFloor != floor || !enabled || retain != retain';
      FloorStaysRecorded(hasLog, floor, persistedFloor, newFloor, catalogChanged, logged);
      persistedFloor := Recorded(hasLog, floor, persistedFloor, newFloor, catalogChanged);
      log, hasLog := log', hasLog || logged;
      floor, enabled, retain, last := newFloor, true, retain', txid;
      data := data';
      past := past + [Version(txid, data')];
    }

    /** How many records leave the log, and the floor that goes with it. */
    method Prune(txid: nat, retain': Option<nat>, startFloor: nat) returns (pruned: nat, newFloor: nat)
      requires LogSorted(log) && startFloor < txid && txid + 1 < U64 && retain' != Some(0)
      ensures pruned <= |log| && startFloor <= newFloor < txid
      ensures forall i :: 0 <= i < pruned ==> log[i].txid <= newFloor
      ensures Retains(log, hasLog, txid, retain', startFloor, pruned, newFloor)
    {
      hide LogSorted;
      pruned, newFloor := 0, startFloor;
      if hasLog && retain'.Some? {
        var target := if txid >= retain'.value then txid - retain'.value else 0;
        if target > newFloor {
          pruned := CollectBelow(log, target);
          DueFirst(log, target, pruned);
          newFloor := if pruned < CHANGE_LOG_PRUNE_BATCH then target else if log[pruned - 1].txid > newFloor then log[pruned - 1].txid else newFloor;
        }
      }
      PrunedBelow(log, pruned, newFloor);
    }

    /** Loading the catalog again: a floor is made up where the log never existed. */
    method Reopen()
      requires Valid()
      modifies this`floor
      ensures Valid() && EffectiveFloor() >= old(EffectiveFloor())
      ensures floor == if !hasLog && persistedFloor == 0 && last > 0 then last else old(floor)
    {
      hide LogSorted, PastOk, Same;
      floor := if persistedFloor == 0 && !hasLog && last > 0 then last else persistedFloor;
      if enabled {
        assert floor >= old(floor);
      }
    }

    /** Every change after an accepted cursor: replaying them gives the latest data. */
    method ChangesSince(cursor: nat) returns (r: Feed)
      requires Valid() && cursor < U64
      ensures r.BeyondLatest? <==> cursor > last
      ensures r.Compacted? <==> cursor <= last && cursor < EffectiveFloor()
      ensures r.Changes? ==> Same(ReplayAll(DataAt(past, cursor), r.changes), data)
    {
      hide LogKey, Less, Same, ReplayAll, PastOk;
      if cursor > last {
        return BeyondLatest;
      }
      if cursor < EffectiveFloor() {
        return Compacted;
      }
      var out: seq<Change> := [];
      var i: nat := 0;
      while i < |log|
        invariant i <= |log|
        invariant out == ChangesAfter(log[..i], cursor)
      {
        AfterTxidKey(cursor, log[i].txid, log[i].sequence);
        assert log[..i + 1] == log[..i] + [log[i]];
        ChangesAfterAppend(log[..i], [log[i]], cursor);
        OneEntry(log[i], cursor);
        if Less(LogKey(cursor, U32 - 1), LogKey(log[i].txid, log[i].sequence)) {
          out := out + [log[i].change];
        }
        i := i + 1;
      }
      assert log[..i] == log;
      if !enabled {
        LatestCatchesUp(past, log, cursor, data);
      }
      assert CatchesUp(past, log, cursor, data);
      return Changes(out);
    }
  }

  lemma {:induction false} OneEntry(e: LogEntry, cursor: nat)
    ensures ChangesAfter([e], cursor) == if e.txid > cursor then [e.change] else []
  {
    assert ChangesAfter([e][1..], cursor) == [];
  }

  lemma {:induction false} EmptyLogSorted()
    ensures LogSorted([])
  {
  }

  lemma {:induction false} NoEntries(txid: nat, changes: seq<Change>)
    ensures changes == [] ==> Entries(txid, changes) == []
  {
  }

  lemma {:induction false} PastGrows(past: seq<Version>, v: Version)
    requires PastOk(past) && past[|past| - 1].txid < v.txid
    ensures PastOk(past + [v]) && (past + [v])[|past|] == v
  {
  }

  /** Everything pruned is at or below the new floor. */
  lemma {:induction false} PrunedBelow(log: seq<LogEntry>, pruned: nat, floor: nat)
    requires LogSorted(log) && pruned <= |log| && (pruned > 0 ==> log[pruned - 1].txid <= floor)
    ensures forall i :: 0 <= i < pruned ==> log[i].txid <= floor
  {
    forall i | 0 <= i < pruned ensures log[i].txid <= floor {
      if i < pruned - 1 {
        assert EntryBefore(log[i], log[pruned - 1]);
      }
    }
  }

  lemma {:induction false} AppendSorted(log: seq<LogEntry>, pruned: nat, txid: nat, changes: seq<Change>, last: nat)
    requires LogSorted(log) && pruned <= |log| && |changes| <= U32 && txid < U64 && last < txid
    requires forall i :: 0 <= i < |log| ==> log[i].txid <= last
    ensures LogSorted(log[pruned..] + Entries(txid, changes))
    ensures var log' := log[pruned..] + Entries(txid, changes); forall i :: 0 <= i < |log'| ==> log'[i].txid <= txid
  {
    var kept := log[pruned..];
    var log' := kept + Entries(txid, changes);
    forall i, j | 0 <= i < j < |log'| ensures EntryBefore(log'[i], log'[j]) {
      if j < |kept| {
        assert EntryBefore(log[pruned + i], log[pruned + j]);
      } else if i < |kept| {
        assert log'[i] == log[pruned + i];
      }
    }
  }

  /** A commit keeps the feed complete above the new floor. */
  lemma {:induction false} CommitComplete(past: seq<Version>, log: seq<LogEntry>, pruned: nat, changes: seq<Change>, txid: nat, data: Data, data': Data,
                                          enabled: bool, floor: nat, last: nat, newFloor: nat)
    requires past != [] && past[|past| - 1] == Version(last, data) && pruned <= |log| && last < txid
    requires forall i :: 0 <= i < |log| ==> log[i].txid <= last
    requires enabled ==> Complete(past, log, floor, last, data) && floor <= newFloor
    requires !enabled ==> newFloor >= txid - 1
    requires forall i :: 0 <= i < pruned ==> log[i].txid <= newFloor
    requires Same(ReplayAll(data, changes), data')
    ensures Complete(past + [Version(txid, data')], log[pruned..] + Entries(txid, changes), newFloor, txid, data')
  {
    hide Same, ReplayAll, CatchesUp;
    var past', log' := past + [Version(txid, data')], log[pruned..] + Entries(txid, changes);
    forall c | newFloor <= c <= txid ensures CatchesUp(past', log', c, data') {
      if c == txid {
        LatestCatchesUp(past', log', c, data');
      } else {
        if c >= last {
          LatestCatchesUp(past, log, c, data);
        }
        CommitCatchesUp(past, log, pruned, changes, txid, c, data, data');
      }
    }
  }
}
