/** Every step of the crash model keeps the invariant. */
module CrashProof {
  import opened Keys
  import opened Pages
  import opened WalScan
  import opened WalReplay
  import opened History
  import opened Crash

  lemma {:induction false} InitKeeps(s: State)
    requires Init(s)
    ensures Inv(s)
  {
    hide Content, Extends, Touches, WriteAll, Valid;
    LogMapEmpty(s.hist);
    assert s.hist[1..] == [];
    assert Txs([]) == [];
    forall p | p in LastOf(s.hist).reach ensures Firm(s, Content(s.hist), p) {
    }
  }

  // ---------- planning and appending ----------

  lemma {:induction false} WriteBodyKeeps(s: State, p: PageId, bytes: Bytes, s': State)
    requires Inv(s) && Takes(s, WriteBody(p, bytes), s')
    ensures Inv(s')
  {
    hide Content, LogMap, Extends, Valid, Touches, WriteAll, Txs, LogsOk;
    SameLogs(s, s');
    LoggedIsInUse(s);
    forall q | q in LastOf(s.hist).reach ensures q in LogMap(s.hist, s.base) || Firm(s', Content(s.hist), q) {
      assert q in LogMap(s.hist, s.base) || Firm(s, Content(s.hist), q);
    }
  }

  lemma {:induction false} LoggedIsInUse(s: State)
    requires s.base < |s.hist|
    ensures forall q :: q in LogMap(s.hist, s.base) ==> InUse(s, q)
  {
    hide Content, LogMap, Touches;
    forall q | q in LogMap(s.hist, s.base) ensures InUse(s, q) {
      LogMapTouched(s.hist, s.base, q);
    }
  }

  lemma {:induction false} FlushBodiesKeeps(s: State, s': State)
    requires Inv(s) && Takes(s, FlushBodies, s')
    ensures Inv(s')
  {
    hide Content, LogMap, Extends, Valid, Touches, WriteAll, Txs, Covered, PendingCovered, MainHolds, LogsOk;
    SameLogs(s, s');
    FlushFirms(s, s');
  }

  /** Flushing the main file only makes more pages durable. */
  lemma {:induction false} FlushFirms(s: State, s': State)
    requires s.hist != [] && s.base < |s.hist| && s'.hist == s.hist && s'.base == s.base && s'.pending == s.pending
    requires s'.main == s.main && s'.loose == {}
    ensures Covered(s) ==> Covered(s')
    ensures PendingCovered(s) ==> PendingCovered(s')
    ensures MainHolds(s) ==> MainHolds(s')
    ensures MainHolds(Adopted(s)) ==> MainHolds(Adopted(s'))
  {
    hide Content, LogMap, Extends, Touches;
    assert forall m: MainFile, q: PageId :: Firm(s, m, q) ==> Firm(s', m, q);
    assert forall m: MainFile, q: PageId :: Firm(Adopted(s), m, q) ==> Firm(Adopted(s'), m, q);
    if Covered(s) {
      forall q | q in LastOf(s.hist).reach ensures q in LogMap(s.hist, s.base) || Firm(s', Content(s.hist), q) {
        assert q in LogMap(s.hist, s.base) || Firm(s, Content(s.hist), q);
      }
    }
    if PendingCovered(s) && s.pending.Some? {
      var c := s.pending.value;
      forall q | q in c.reach ensures Touches(c.tx, q) || q in LogMap(s.hist, s.base) || Firm(s', Content(s.hist + [c]), q) {
        assert Touches(c.tx, q) || q in LogMap(s.hist, s.base) || Firm(s, Content(s.hist + [c]), q);
      }
    }
  }

  lemma {:induction false} BeginAppendKeeps(s: State, c: Commit, s': State)
    requires Inv(s) && Takes(s, BeginAppend(c), s')
    ensures Inv(s')
  {
    hide Content, LogMap, Valid, Touches, WriteAll, Txs, Covered, LogsOk, MainHolds, Extends;
    PendingBecomesCovered(s, c);
    SameMain(s, s');
    assert forall m: MainFile, p: PageId :: Firm(s', m, p) == Firm(s, m, p);
    BegunLogs(s, c, s');
  }

  lemma {:induction false} BegunLogs(s: State, c: Commit, s': State)
    requires s.start < |s.hist| && s.durableStart < |s.hist| && LogsOk(s) && s.pending.None? && s'.pending == Some(c)
    requires s'.hist == s.hist && s'.base == s.base && s'.start == s.start && s'.durableStart == s.durableStart
    requires s'.wal == s.wal && s'.durableWal == s.durableWal
    ensures LogsOk(s')
  {
    hide Txs;
  }

  lemma {:induction false} PendingBecomesCovered(s: State, c: Commit)
    requires s.base < |s.hist| && Covered(s) && Extends(s.hist, c)
    requires forall p :: p in c.bodies ==> p in s.main && s.main[p] == c.bodies[p] && p !in s.loose
    ensures forall p :: p in c.reach ==> Touches(c.tx, p) || p in LogMap(s.hist, s.base) || Firm(s, Content(s.hist + [c]), p)
  {
    hide Content, LogMap, Touches;
    forall p | p in c.reach ensures Touches(c.tx, p) || p in LogMap(s.hist, s.base) || Firm(s, Content(s.hist + [c]), p) {
      ContentStep(s.hist, c, p);
      if !Touches(c.tx, p) && p !in c.bodies {
        assert p in LogMap(s.hist, s.base) || Firm(s, Content(s.hist), p);
      }
    }
  }

  lemma {:induction false} CompleteAppendKeeps(s: State, s': State)
    requires Inv(s) && Takes(s, CompleteAppend, s')
    ensures Inv(s')
  {
    hide Content, LogMap, Touches, WriteAll, Valid, Extends, Txs, Covered, PendingCovered, MainHolds, LogsOk;
    SameMain(s, s');
    AppendedLogs(s, s.mode.c, s');
  }

  lemma {:induction false} AppendedLogs(s: State, c: Commit, s': State)
    requires s.start < |s.hist| && s.durableStart < |s.hist| && LogsOk(s)
    requires s.wal == Committed(s) && LogFlushed(s) && s.pending == Some(c)
    requires s'.hist == s.hist && s'.pending == s.pending && s'.base == s.base && s'.start == s.start && s'.durableStart == s.durableStart
    requires s'.durableWal == s.durableWal && s'.wal == Committed(s) + [c.tx]
    ensures LogsOk(s')
  {
    hide Txs;
  }

  /** Steps that leave the main file and the history alone keep what it holds. */
  lemma {:induction false} SameMain(s: State, s': State)
    requires s.hist != [] && s.base < |s.hist| && s'.hist == s.hist && s'.base == s.base
    requires s'.main == s.main && s'.loose == s.loose
    ensures Covered(s') == Covered(s) && MainHolds(s') == MainHolds(s)
    ensures s'.pending == s.pending ==> PendingCovered(s') == PendingCovered(s) && MainHolds(Adopted(s')) == MainHolds(Adopted(s))
  {
    hide Content, LogMap, Extends, Touches;
    assert forall m: MainFile, p: PageId :: Firm(Adopted(s'), m, p) == Firm(Adopted(s), m, p);
    assert forall m: MainFile, p: PageId :: Firm(s', m, p) == Firm(s, m, p);
  }

  /** Steps that touch no file keep what the files hold. */
  lemma {:induction false} SameFiles(s: State, s': State)
    requires Files(s)
    requires s'.main == s.main && s'.loose == s.loose && s'.slots == s.slots && s'.durableSlots == s.durableSlots
    requires s'.wal == s.wal && s'.durableWal == s.durableWal && s'.start == s.start && s'.durableStart == s.durableStart
    requires s'.hist == s.hist && s'.pending == s.pending && s'.base == s.base && s'.active == s.active && s'.acked <= |s.hist|
    ensures Files(s')
    ensures Quiet(s') == Quiet(s) && DurableActive(s') == DurableActive(s) && Generation(s') == Generation(s)
    ensures MainHolds(s') == MainHolds(s) && MainHolds(Adopted(s')) == MainHolds(Adopted(s))
  {
    hide Content, LogMap, Touches, Valid, Extends, Txs, Covered, PendingCovered, MainHolds, LogsOk;
    SameMain(s, s');
    SameLogs(s, s');
  }

  lemma {:induction false} SameLogs(s: State, s': State)
    requires s.start < |s.hist| && s.durableStart < |s.hist|
    requires s'.wal == s.wal && s'.durableWal == s.durableWal && s'.start == s.start && s'.durableStart == s.durableStart
    requires s'.hist == s.hist && s'.pending == s.pending && s'.base == s.base
    ensures LogsOk(s') == LogsOk(s)
  {
    hide Txs;
  }

  /** A commit whose log records are durable takes over from the pending one. */
  lemma {:induction false} PendingCommits(s: State, c: Commit, s': State)
    requires Valid(s.hist) && s.start <= s.base < |s.hist| && s.pending == Some(c) && PendingCovered(s)
    requires s'.hist == s.hist + [c] && s'.base == s.base && s'.start == s.start && s'.main == s.main && s'.loose == s.loose
    ensures Valid(s'.hist) && Covered(s') && Committed(s') == Committed(s) + [c.tx]
    ensures forall p :: p in LogMap(s.hist, s.base) ==> p in LogMap(s'.hist, s.base)
  {
    hide Content, LogMap, Touches, WriteAll, Valid, Extends;
    ValidSnoc(s.hist, c);
    LogMapSnoc(s.hist, c, s.base);
    forall p: PageId ensures p in LogMap(s'.hist, s.base) <==> Touches(c.tx, p) || p in LogMap(s.hist, s.base) {
      WriteTx(LogMap(s.hist, s.base), c.tx, p);
    }
    forall p | p in c.reach ensures p in LogMap(s'.hist, s.base) || Firm(s', Content(s'.hist), p) {
      assert Touches(c.tx, p) || p in LogMap(s.hist, s.base) || Firm(s, Content(s.hist + [c]), p);
    }
    assert s'.hist[s.start + 1..] == s.hist[s.start + 1..] + [c];
  }

  lemma {:induction false} FlushAppendKeeps(s: State, s': State)
    requires Inv(s) && s.mode.LogWritten?
    requires s' == s.(mode := Logged(s.mode.c), durableWal := s.wal, durableStart := s.start, pending := None, hist := s.hist + [s.mode.c], walDurableTxid := s.mode.c.tx.txid)
    ensures Inv(s')
  {
    hide Content, LogMap, Touches, WriteAll, Valid, Extends, Txs, Covered, PendingCovered, MainHolds, LogsOk, SlotsOk;
    var c := s.mode.c;
    PendingCommits(s, c, s');
    PendingExtends(s);
    NothingPending(s');
    LogGrown(s, c, s');
    assert s'.hist[..|s'.hist| - 1] == s.hist;
    assert SlotsOk(s') by { QuietSlots(s'); }
  }

  lemma {:induction false} LogGrown(s: State, c: Commit, s': State)
    requires s.start < |s.hist| && s.durableStart < |s.hist| && s.base < |s.hist|
    requires s.wal == Committed(s) + [c.tx]
    requires s'.hist == s.hist + [c] && s'.base == s.base && s'.start == s'.durableStart == s.start && s'.wal == s'.durableWal == s.wal && s'.pending.None?
    ensures LogsOk(s') && s'.wal == Committed(s')
  {
    assert s'.hist[s.start + 1..] == s.hist[s.start + 1..] + [c];
  }

  lemma {:induction false} StageServes(s: State, c: Commit, dirty': MainFile)
    requires Valid(s.hist) && |s.hist| > 1 && s.base < |s.hist| - 1 && LastOf(s.hist) == c && Covered(s)
    requires var before := s.hist[..|s.hist| - 1]; Extends(before, c) && Serves(s, LastOf(before), Content(before))
    requires DirtyIsLogged(s) && dirty' == WriteAll(s.dirty, c.tx.images)
    ensures Serves(s.(dirty := dirty'), c, Content(s.hist))
    ensures DirtyIsLogged(s.(dirty := dirty'))
  {
    hide Content, LogMap, Touches, WriteAll, Valid;
    var before := s.hist[..|s.hist| - 1];
    assert s.hist == before + [c];
    ContentSnoc(before, c);
    LogMapSnoc(before, c, s.base);
    forall p: PageId
      ensures p in c.reach && p in dirty' ==> p in Content(s.hist) && dirty'[p] == Content(s.hist)[p]
      ensures p in c.reach && p !in dirty' ==> p in s.main && p in Content(s.hist) && s.main[p] == Content(s.hist)[p]
      ensures p in dirty' ==> p in LogMap(s.hist, s.base)
    {
      WriteTx(s.dirty, c.tx, p);
      WriteTx(LogMap(before, s.base), c.tx, p);
      ContentStep(before, c, p);
      if Touches(c.tx, p) {
        WriteTxSame(s.dirty, Content(before) + c.bodies, c.tx, p);
      } else if p in c.reach && p in c.bodies {
        assert p in LogMap(s.hist, s.base) || Firm(s, Content(s.hist), p);
        if p in LogMap(s.hist, s.base) {
          LogMapTouched(s.hist, s.base, p);
        }
      }
    }
  }

  lemma {:induction false} StageKeeps(s: State, s': State)
    requires Inv(s) && Takes(s, Stage, s')
    ensures Inv(s')
  {
    hide Content, LogMap, Touches, WriteAll, Valid, Extends, Txs, Serves, DirtyIsLogged, PendingCovered, MainHolds, LogsOk, SlotsOk, DurableActive;
    SameFiles(s, s');
    StageServes(s, s.mode.c, s'.dirty);
    SameServes(s.(dirty := s'.dirty), s', LastOf(s.hist), Content(s.hist));
  }

  lemma {:induction false} SameServes(s: State, s': State, c: Commit, content: MainFile)
    requires s'.main == s.main && s'.dirty == s.dirty && s'.hist == s.hist && s'.base == s.base && s.base < |s.hist|
    ensures Serves(s, c, content) == Serves(s', c, content)
    ensures DirtyIsLogged(s) == DirtyIsLogged(s')
  {
    hide LogMap;
  }

  lemma {:induction false} DiscardKeeps(s: State, p: PageId, s': State)
    requires Inv(s) && Takes(s, Discard(p), s')
    ensures Inv(s')
  {
    hide Content, LogMap, Touches, WriteAll, Valid, Extends, Txs, Covered, PendingCovered, MainHolds, LogsOk, SlotsOk, Quiet, DurableActive;
    SameFiles(s, s');
  }

  // ---------- checkpoint ----------

  /** A checkpoint starts only if a commit is not published yet. */
  lemma {:induction false} CheckpointIsDue(s: State)
    requires s.base < |s.hist| && DirtyIsLogged(s) && s.checkpointTxid == s.hist[s.base].tx.txid && s.memory.txid == LastOf(s.hist).tx.txid
    requires s.dirty != map[] || s.checkpointTxid != s.memory.txid
    ensures s.base < |s.hist| - 1
  {
    hide LogMap, Touches;
    if s.dirty != map[] {
      var p :| p in s.dirty;
      LogMapTouched(s.hist, s.base, p);
    }
  }

  lemma {:induction false} BeginCheckpointKeeps(s: State, s': State)
    requires Inv(s) && Takes(s, BeginCheckpoint, s')
    ensures Inv(s')
  {
    hide Content, LogMap, Touches, WriteAll, Valid, Extends, Txs, Covered, PendingCovered, MainHolds, LogsOk, SlotsOk, Quiet, DurableActive;
    SameFiles(s, s');
    CheckpointIsDue(s);
  }

  /** Overwriting a logged page leaves every other page as it was. */
  lemma {:induction false} LoggedPageRewritten(s: State, p: PageId, s': State)
    requires s.hist != [] && s.base < |s.hist| && p in LogMap(Goal(s), s.base) && Covered(s) && PendingCovered(s)
    requires s'.hist == s.hist && s'.base == s.base && s'.pending == s.pending
    requires p in s'.main && s'.main == s.main[p := s'.main[p]] && s'.loose == s.loose + {p}
    ensures Covered(s') && PendingCovered(s')
  {
    hide Content, LogMap, Touches;
    var c := if s.pending.Some? then s.pending.value else LastOf(s.hist);
    if s.pending.Some? {
      LogMapSnoc(s.hist, c, s.base);
      WriteTx(LogMap(s.hist, s.base), c.tx, p);
    }
    assert p in LogMap(s.hist, s.base) || (s.pending.Some? && Touches(c.tx, p));
    forall q | q in LastOf(s.hist).reach ensures q in LogMap(s.hist, s.base) || Firm(s', Content(s.hist), q) {
      assert q in LogMap(s.hist, s.base) || Firm(s, Content(s.hist), q);
    }
    if s.pending.Some? {
      forall q | q in c.reach ensures Touches(c.tx, q) || q in LogMap(s.hist, s.base) || Firm(s', Content(s.hist + [c]), q) {
        assert Touches(c.tx, q) || q in LogMap(s.hist, s.base) || Firm(s, Content(s.hist + [c]), q);
      }
    }
  }

  lemma {:induction false} WriteBackKeeps(s: State, p: PageId, s': State)
    requires Inv(s) && Takes(s, WriteBack(p), s')
    ensures Inv(s')
  {
    hide Content, LogMap, Touches, WriteAll, Valid, Extends, Txs, Covered, PendingCovered, MainHolds, LogsOk;
    SameLogs(s, s');
    LoggedPageRewritten(s, p, s');
  }

  lemma {:induction false} FlushWrittenBackKeeps(s: State, s': State)
    requires Inv(s) && s.mode.WritingBack? && s.mode.rest == {}
    requires s' == s.(loose := {}, mode := Ready(s.memory.(generation := s.memory.generation + 1, slot := Other(s.memory.slot))))
    ensures Inv(s')
  {
    hide Content, LogMap, Touches, WriteAll, Valid, Extends, Txs, Covered, PendingCovered, MainHolds, LogsOk;
    SameLogs(s, s');
    FlushFirms(s, s');
    WrittenBackHolds(s, s');
  }

  lemma {:induction false} FlushReplayedKeeps(s: State, s': State)
    requires Inv(s) && s.mode.Replaying? && s.mode.todo == map[]
    requires s' == s.(loose := {}, mode := Ready(s.mode.target))
    ensures Inv(s')
  {
    hide Content, LogMap, Touches, WriteAll, Valid, Extends, Txs, Covered, PendingCovered, MainHolds, LogsOk;
    FlushFirms(s, s');
    SameLogs(s, s');
    AdoptedCovered(s);
    ReplayedHolds(Adopted(s), Adopted(s'));
  }

  lemma {:induction false} AdoptedCovered(s: State)
    requires Valid(s.hist) && s.start <= s.base < |s.hist| && Covered(s) && PendingCovered(s)
    ensures Valid(Adopted(s).hist) && Covered(Adopted(s))
  {
    hide Content, LogMap, Touches, Valid, Extends, Txs;
    if s.pending.Some? {
      PendingCommits(s, s.pending.value, Adopted(s));
    } else {
      SameMain(s, Adopted(s));
    }
  }

  lemma {:induction false} WrittenBackHolds(s: State, s': State)
    requires s.hist != [] && Serves(s, LastOf(s.hist), Content(s.hist))
    requires forall p :: p in s.dirty ==> p in s.main && s.main[p] == s.dirty[p]
    requires s'.hist == s.hist && s'.main == s.main && s'.loose == {}
    ensures MainHolds(s')
  {
    hide Content;
  }

  lemma {:induction false} ReplayedHolds(s: State, s': State)
    requires Valid(s.hist) && s.base < |s.hist| && Covered(s)
    requires forall p :: p in LogMap(s.hist, s.base) ==> p in s.main && s.main[p] == LogMap(s.hist, s.base)[p]
    requires s'.hist == s.hist && s'.main == s.main && s'.loose == {}
    ensures MainHolds(s')
  {
    hide Content, LogMap, Valid;
    forall p | p in LastOf(s.hist).reach ensures Firm(s', Content(s.hist), p) {
      assert p in LogMap(s.hist, s.base) || Firm(s, Content(s.hist), p);
      if p in LogMap(s.hist, s.base) {
        LoggedContent(s.hist, s.base, p);
      }
    }
  }

  lemma {:induction false} WriteSlotKeeps(s: State, s': State)
    requires Inv(s) && Takes(s, WriteSlot, s')
    ensures Inv(s')
  {
    hide Content, LogMap, Touches, WriteAll, Valid, Extends, Txs, Covered, PendingCovered, MainHolds, LogsOk;
    SameMain(s, s');
    SameLogs(s, s');
  }

  /** Once the newer slot is the durable one, the log is no longer needed. */
  lemma {:induction false} SettleFiles(s: State, s': State)
    requires Files(s) && Newer(s, s.slots) && s'.hist == Goal(s) && s'.main == s.main && s'.loose == s.loose
    requires s'.slots == s'.durableSlots == s.slots && s'.wal == s.wal && s'.durableWal == s.durableWal && s'.pending.None?
    requires s'.start == s.start && s'.durableStart == s.durableStart
    requires s'.base == |Goal(s)| - 1 && s'.active == Other(s.active) && s'.acked == s.acked
    ensures Files(s') && Quiet(s') && MainHolds(s')
    ensures Generation(s') == Generation(s) + 1
  {
    hide Content, LogMap, Touches, WriteAll, Valid, Extends, Txs, LogsOk, PendingCovered;
    assert PendingCovered(s') by { NothingPending(s'); }
    assert MainHolds(Adopted(s));
    if s.pending.Some? {
      PendingExtends(s);
      ValidSnoc(s.hist, s.pending.value);
    }
    LogMapEmpty(s'.hist);
    assert forall m: MainFile, p: PageId :: Firm(s', m, p) == Firm(Adopted(s), m, p);
    SettleLogs(s, s');
  }

  lemma {:induction false} NothingPending(s: State)
    requires s.base < |s.hist| && s.pending.None?
    ensures PendingCovered(s)
  {
  }

  lemma {:induction false} PendingExtends(s: State)
    requires s.base < |s.hist| && PendingCovered(s) && s.pending.Some?
    ensures Extends(s.hist, s.pending.value)
  {
    hide Extends, Content, LogMap, Touches;
  }

  lemma {:induction false} SettleLogs(s: State, s': State)
    requires s.start < |s.hist| && s.durableStart < |s.hist| && LogsOk(s)
    requires s'.hist == Goal(s) && s'.pending.None? && s'.base == |Goal(s)| - 1
    requires s'.wal == s.wal && s'.durableWal == s.durableWal && s'.start == s.start && s'.durableStart == s.durableStart
    ensures LogsOk(s')
  {
    hide Txs;
    GoalSince(s, s.start);
    GoalSince(s, s.durableStart);
  }

  lemma {:induction false} GoalSince(s: State, start: nat)
    requires start < |s.hist|
    ensures Txs(Goal(s)[start + 1..]) == WithPending(s, start)
  {
    if s.pending.Some? {
      assert Goal(s)[start + 1..] == s.hist[start + 1..] + [s.pending.value];
    }
  }

  lemma {:induction false} FlushSlotKeeps(s: State, s': State)
    requires Inv(s) && Takes(s, FlushSlot, s')
    ensures Inv(s')
  {
    hide Content, LogMap, Touches, WriteAll, Valid, Extends, Txs, Covered, PendingCovered, MainHolds, LogsOk;
    SettleFiles(s, s');
  }

  lemma {:induction false} SkipTruncateKeeps(s: State, s': State)
    requires Inv(s) && Takes(s, Truncate, s') && s.wal == [] && !s.torn
    ensures Inv(s')
  {
    hide Content, LogMap, Touches, WriteAll, Valid, Extends, Txs, Covered, PendingCovered, LogsOk, MainHolds, SlotsOk;
    SameMain(s, s');
    EmptiedLogs(s, s');
    OpenedServes(s, s');
    assert SlotsOk(s') by { QuietSlots(s'); }
  }

  lemma {:induction false} TruncateKeeps(s: State, s': State)
    requires Inv(s) && Takes(s, Truncate, s')
    ensures Inv(s')
  {
    hide Content, LogMap, Touches, WriteAll, Valid, Extends, Txs, Covered, PendingCovered, LogsOk, MainHolds, SlotsOk, Inv;
    if s.wal == [] && !s.torn {
      SkipTruncateKeeps(s, s');
    } else {
      FullTruncateKeeps(s, s');
    }
  }

  lemma {:induction false} FullTruncateKeeps(s: State, s': State)
    requires Inv(s) && Takes(s, Truncate, s') && !(s.wal == [] && !s.torn)
    ensures Inv(s')
  {
    hide Content, LogMap, Touches, WriteAll, Valid, Extends, Txs, Covered, PendingCovered, LogsOk, MainHolds, SlotsOk;
    SameMain(s, s');
    TruncatedLogs(s, s');
    assert SlotsOk(s') by { QuietSlots(s'); }
  }

  lemma {:induction false} QuietSlots(s: State)
    requires s.base < |s.hist| && ActiveSlot(s) && Quiet(s)
    ensures SlotsOk(s)
  {
    hide MainHolds, TargetOk;
  }

  lemma {:induction false} TruncatedLogs(s: State, s': State)
    requires s.start < |s.hist| && s.durableStart < |s.hist| && LogsOk(s) && s.base == |s.hist| - 1 && s.pending.None?
    requires s'.hist == s.hist && s'.pending == s.pending && s'.base == s.base && s'.start == s.start && s'.durableStart == s.durableStart
    requires s'.durableWal == s.durableWal && s'.wal == []
    ensures LogsOk(s')
  {
    hide Txs;
  }

  /** The log starts over after the latest commit; what is still durable of it, if anything, is old. */
  lemma {:induction false} EmptiedLogs(s: State, s': State)
    requires s.start < |s.hist| && s.durableStart < |s.hist| && LogsOk(s) && s.base == |s.hist| - 1 && s.pending.None?
    requires s.wal == [] && |s.durableWal| <= 1
    requires s'.hist == s.hist && s'.pending == s.pending && s'.base == s.base && s'.start == |s.hist| - 1
    requires s'.durableStart == if s.durableWal == [] then |s.hist| - 1 else s.durableStart
    requires s'.durableWal == s.durableWal && s'.wal == []
    ensures LogsOk(s') && LogFlushed(s') && s'.wal == Committed(s')
  {
    assert s.hist[|s.hist|..] == [];
    assert Since(s', |s.hist| - 1) == [];
    hide Txs;
  }

  lemma {:induction false} OpenedServes(s: State, s': State)
    requires s.hist != [] && MainHolds(s) && s'.main == s.main && s'.dirty == map[] && s'.hist == s.hist && s'.base == s.base && s.base < |s.hist|
    ensures Serves(s', LastOf(s.hist), Content(s.hist)) && DirtyIsLogged(s')
  {
    hide Content, LogMap;
  }

  lemma {:induction false} FlushTruncateKeeps(s: State, s': State)
    requires Inv(s) && Takes(s, FlushTruncate, s')
    ensures Inv(s')
  {
    hide Content, LogMap, Touches, WriteAll, Valid, Extends, Txs, Covered, PendingCovered, LogsOk, MainHolds;
    SameMain(s, s');
    var t := s.(durableWal := [], durableStart := s.start);
    assert LogsOk(t) by { DurablyEmptyLogs(s, t); }
    EmptiedLogs(t, s');
    OpenedServes(s, s');
  }

  lemma {:induction false} DurablyEmptyLogs(s: State, t: State)
    requires s.start < |s.hist| && s.durableStart < |s.hist| && LogsOk(s) && s.base == |s.hist| - 1 && s.pending.None?
    requires t == s.(durableWal := [], durableStart := s.start)
    ensures LogsOk(t)
  {
    hide Txs;
  }

  lemma {:induction false} ReplayPageKeeps(s: State, p: PageId, s': State)
    requires Inv(s) && s.mode.Replaying? && p in s.mode.todo
    requires s' == s.(main := s.main[p := s.mode.todo[p]], loose := s.loose + {p}, mode := Replaying(s.mode.todo - {p}, s.mode.target))
    ensures Inv(s')
  {
    hide Content, LogMap, Touches, WriteAll, Valid, Extends, Txs, Covered, PendingCovered, MainHolds, LogsOk;
    SameLogs(s, s');
    LoggedPageRewritten(s, p, s');
  }

  // ---------- failures and crashes ----------

  lemma {:induction false} FailKeeps(s: State, s': State)
    requires Inv(s) && Takes(s, Fail, s')
    ensures Inv(s')
  {
    hide Content, LogMap, Touches, WriteAll, Valid, Extends, Txs, Covered, PendingCovered, MainHolds, LogsOk, SlotsOk, DurableActive;
    SameFiles(s, s');
  }

  lemma {:induction false} FailWritingPageKeeps(s: State, p: PageId, junk: Bytes, s': State)
    requires Inv(s) && ((s.mode.WritingBack? && p in s.mode.rest && p in s.dirty) || (s.mode.Replaying? && p in s.mode.todo))
    requires s' == s.(main := s.main[p := junk], loose := s.loose + {p}, mode := Poisoned)
    ensures Inv(s')
  {
    hide Content, LogMap, Touches, WriteAll, Valid, Extends, Txs, Covered, PendingCovered, MainHolds, LogsOk;
    SameLogs(s, s');
    LoggedPageRewritten(s, p, s');
  }

  lemma {:induction false} FailWritingSlotKeeps(s: State, s': State)
    requires Inv(s) && Takes(s, FailWritingSlot, s')
    ensures Inv(s')
  {
    hide Content, LogMap, Touches, WriteAll, Valid, Extends, Txs, Covered, PendingCovered, MainHolds, LogsOk;
    SameMain(s, s');
    SameLogs(s, s');
  }

  lemma {:induction false} SurvivingLog(s: State, w: seq<Tx>, start: nat)
    requires s.start < |s.hist| && s.durableStart < |s.hist| && LogsOk(s) && WalSurvives(s, w, start)
    ensures start == s.start || start == s.durableStart
    ensures Sufficient(s, start, w)
  {
    hide Txs, Log;
  }

  /** The image that survives a crash, before the bookkeeping is settled. */
  lemma {:induction false} SurvivorFiles(s: State, main': MainFile, slots': Slots, wal': seq<Tx>, torn': bool, start': nat, t: State)
    requires Files(s) && MainSurvives(s, main') && SlotsSurvive(s, slots') && WalSurvives(s, wal', start')
    requires t == Survivor(s, main', slots', wal', torn', start')
    ensures Files(t)
  {
    hide Content, LogMap, Touches, WriteAll, Valid, Extends, Txs, WalSurvives, LogsOk, Covered, PendingCovered, MainHolds;
    SurvivingLog(s, wal', start');
    SurvivorLogs(s, start', wal', t);
    SurvivorMain(s, main', t);
    SurvivorSlots(s, slots', t);
  }

  lemma {:induction false} SurvivorMain(s: State, main': MainFile, t: State)
    requires s.base < |s.hist| && Covered(s) && PendingCovered(s) && MainSurvives(s, main')
    requires t.main == main' && t.loose == {} && t.hist == s.hist && t.base == s.base && t.pending == s.pending
    ensures Covered(t) && PendingCovered(t)
    ensures MainHolds(Adopted(s)) ==> MainHolds(Adopted(t))
  {
    hide Content, LogMap, Touches, Extends;
    assert forall m: MainFile, p: PageId :: Firm(s, m, p) ==> Firm(t, m, p);
    assert forall m: MainFile, p: PageId :: Firm(Adopted(s), m, p) ==> Firm(Adopted(t), m, p);
    forall p | p in LastOf(s.hist).reach ensures p in LogMap(s.hist, s.base) || Firm(t, Content(s.hist), p) {
      assert p in LogMap(s.hist, s.base) || Firm(s, Content(s.hist), p);
    }
  }

  lemma {:induction false} SurvivorSlots(s: State, slots': Slots, t: State)
    requires s.base < |s.hist| && ActiveSlot(s) && SlotsOk(s) && SlotsSurvive(s, slots')
    requires t.slots == t.durableSlots == slots' && t.hist == s.hist && t.base == s.base && t.pending == s.pending && t.active == s.active
    requires MainHolds(Adopted(s)) ==> MainHolds(Adopted(t))
    ensures ActiveSlot(t) && SlotsOk(t)
  {
    hide MainHolds;
  }

  lemma {:induction false} SurvivorLogs(s: State, start: nat, w: seq<Tx>, t: State)
    requires start < |s.hist| && Sufficient(s, start, w)
    requires t.hist == s.hist && t.pending == s.pending && t.base == s.base
    requires t.wal == t.durableWal == w && t.start == t.durableStart == start
    ensures LogsOk(t)
  {
    hide Txs;
  }

  /** Settled files: the active slot is the newest, and nothing is unflushed. */
  lemma {:induction false} SettledQuiet(t: State)
    requires Files(t) && t.slots == t.durableSlots
    ensures Files(Settled(t)) && Quiet(Settled(t))
  {
    hide Content, LogMap, Touches, WriteAll, Valid, Extends, Txs, Covered, PendingCovered, MainHolds;
    if Newer(t, t.slots) {
      SettleFiles(t, Settled(t));
    }
  }

  lemma {:induction false} CrashKeeps(s: State, main': MainFile, slots': Slots, wal': seq<Tx>, torn': bool, start': nat, s': State)
    requires Inv(s) && Takes(s, Crash(main', slots', wal', torn', start'), s')
    ensures Inv(s')
  {
    hide Content, LogMap, Touches, WriteAll, Valid, Extends, Txs, Files, ModeOk, Settled, WalSurvives, MainSurvives, SlotsSurvive;
    var t := Survivor(s, main', slots', wal', torn', start');
    SurvivorFiles(s, main', slots', wal', torn', start', t);
    SettledQuiet(t);
    SettledMode(t);
    DownOk(s');
  }

  lemma {:induction false} SettledMode(t: State)
    ensures var r := Settled(t); r.mode == t.mode && r.wal == t.wal && r.durableWal == t.durableWal && r.torn == t.torn
  {
  }

  lemma {:induction false} DownOk(s: State)
    requires Files(s) && Quiet(s) && !KeepsStaleLog(s) && s.mode.Down?
    ensures Inv(s)
  {
    hide Files;
  }

  /** A superblock that opening would not believe is not the newer one. */
  lemma {:induction false} BelievedIsQuiet(s: State)
    requires Files(s) && DurableActive(s)
    ensures BelievesUnflushed(s) <==> Newer(s, s.slots)
    ensures !Newer(s, s.slots) ==> Quiet(s)
  {
    hide Content, LogMap, Touches, WriteAll, Valid, Extends, Txs, Covered, PendingCovered, MainHolds, LogsOk;
    assert s.active == 0 || s.active == 1;
  }

  lemma {:induction false} AbandonKeeps(s: State, s': State)
    requires Inv(s) && Takes(s, Abandon, s')
    ensures Inv(s')
  {
    hide Content, LogMap, Touches, WriteAll, Valid, Extends, Txs, Covered, PendingCovered, MainHolds, LogsOk, SlotsOk, Quiet, DurableActive, Newer, BelievesUnflushed;
    BelievedIsQuiet(s);
    SameFiles(s, s');
  }

  lemma {:induction false} CloseFilesKeeps(s: State, s': State)
    requires Inv(s) && Takes(s, CloseFiles, s')
    ensures Inv(s')
  {
    hide Content, LogMap, Touches, WriteAll, Valid, Extends, Txs, Covered, PendingCovered, MainHolds, Sufficient, PendingVolatile, SlotsOk, DurableActive, Quiet;
    SameFiles(s, s');
  }

  lemma {:induction false} BeginRecoverKeeps(s: State, s': State)
    requires Inv(s) && Takes(s, BeginRecover, s')
    ensures Inv(s')
  {
    hide Content, LogMap, Touches, WriteAll, Valid, Extends, Txs, Covered, PendingCovered, MainHolds, LogsOk, SlotsOk, DurableActive;
    SameFiles(s, s');
  }

  lemma {:induction false} FlushVisibleMainKeeps(s: State, s': State)
    requires Inv(s) && s.mode.FlushingMain? && s' == s.(loose := {}, mode := FlushingManifest)
    ensures Inv(s')
  {
    hide Content, LogMap, Touches, WriteAll, Valid, Extends, Txs, Covered, PendingCovered, MainHolds, LogsOk;
    SameLogs(s, s');
    FlushFirms(s, s');
  }

  lemma {:induction false} FlushVisibleManifestKeeps(s: State, s': State)
    requires Inv(s) && s.mode.FlushingManifest? && s' == Settled(s.(durableSlots := s.slots, mode := FlushingWal))
    ensures Inv(s')
  {
    hide Content, LogMap, Touches, WriteAll, Valid, Extends, Txs, Settled, Files;
    var t := s.(durableSlots := s.slots, mode := FlushingWal);
    ManifestFlushed(s, t);
    SettledQuiet(t);
    SettledMode(t);
  }

  lemma {:induction false} FlushVisibleWalKeeps(s: State, s': State)
    requires Inv(s) && s.mode.FlushingWal? && s' == s.(durableWal := s.wal, durableStart := s.start, mode := Down)
    ensures Inv(s')
  {
    hide Content, LogMap, Touches, WriteAll, Valid, Extends, Txs, Covered, PendingCovered, MainHolds, LogsOk;
    FlushedLogs(s, s');
    SameMain(s, s');
  }

  lemma {:induction false} FlushedLogs(s: State, s': State)
    requires s.start < |s.hist| && s.durableStart < |s.hist| && LogsOk(s)
    requires s'.hist == s.hist && s'.pending == s.pending && s'.base == s.base && s'.start == s'.durableStart == s.start && s'.wal == s'.durableWal == s.wal
    ensures LogsOk(s')
  {
    hide Txs;
  }

  lemma {:induction false} ManifestFlushed(s: State, t: State)
    requires Files(s) && t == s.(durableSlots := s.slots, mode := FlushingWal)
    ensures Files(t)
  {
    hide Content, LogMap, Touches, WriteAll, Valid, Extends, Txs, Covered, PendingCovered, MainHolds, LogsOk;
    SameLogs(s, t);
    SameMain(s, t);
  }

  // ---------- loading ----------

  lemma {:induction false} SelectsActive(s: State)
    requires Files(s) && Quiet(s)
    ensures Select(s.slots) == Some(Publishing(s.hist[s.base], Generation(s), s.active))
  {
    hide Content, LogMap, Touches, WriteAll, Valid, Extends, Txs, Covered, PendingCovered, MainHolds, Sufficient;
    assert s.active == 0 || s.active == 1;
  }

  /** What recovery has read after visiting commit number `i`. */
  ghost function Expected(h: Chronicle, b: nat, i: nat, sb: Superblock): Recovery
    requires b < |h| && i < |h|
  {
    if i <= b then Recovered(sb, [])
    else Recovered(sb.(txid := h[i].tx.txid, root := h[i].tx.root, next := h[i].tx.next), AllImages(Txs(h[b + 1..i + 1])))
  }

  lemma {:induction false} VisitNext(h: Chronicle, b: nat, i: nat, sb: Superblock)
    requires Valid(h) && b < |h| && i + 1 < |h|
    requires sb.txid == h[b].tx.txid && sb.next == h[b].tx.next
    ensures Visit1(Expected(h, b, i, sb), sb, h[i + 1].tx) == Expected(h, b, i + 1, sb)
  {
    hide Valid, AllImages;
    if i + 1 < b {
      TxidsIncrease(h, i + 1, b);
    } else if b < i + 1 {
      TxidsIncrease(h, b, i + 1);
      TxidsIncrease(h, i, i + 1);
      var before := Txs(h[b + 1..i + 1]);
      assert Txs(h[b + 1..i + 2]) == before + [h[i + 1].tx];
      AllImagesAppend(before, [h[i + 1].tx]);
      OneTx(h[i + 1].tx);
      if i == b {
        assert before == [];
        NoTx();
      }
    }
  }

  lemma {:induction false} NoTx()
    ensures AllImages([]) == []
  {
  }

  lemma {:induction false} VisitRest(h: Chronicle, b: nat, i: nat, sb: Superblock)
    requires Valid(h) && b < |h| && i < |h|
    requires sb.txid == h[b].tx.txid && sb.next == h[b].tx.next
    ensures VisitAll(Expected(h, b, i, sb), sb, Txs(h[i + 1..])) == Expected(h, b, |h| - 1, sb)
    decreases |h| - i
  {
    hide Valid, Expected, Visit1;
    var rest := Txs(h[i + 1..]);
    if i + 1 < |h| {
      assert rest[0] == h[i + 1].tx;
      assert rest[1..] == Txs(h[i + 2..]);
      VisitNext(h, b, i, sb);
      VisitRest(h, b, i + 1, sb);
    }
  }

  lemma {:induction false} RootInRange(h: Chronicle, i: nat)
    requires Valid(h) && i < |h|
    ensures 0 < h[i].tx.root < h[i].tx.next
  {
    hide Content, Touches;
    if i > 0 {
      assert Extends(h[..i], h[i]);
    }
  }

  /** A log that holds every commit since `start` leads recovery to the last of them. */
  /** Every log of the run ascends. */
  lemma {:induction false} LogAscends(h: Chronicle, start: nat, wal: seq<Tx>)
    requires Valid(h) && start < |h| && wal <= Txs(h[start + 1..])
    ensures Ascending(wal)
  {
    hide Valid;
    forall i, j | 0 <= i < j < |wal| ensures wal[i].txid < wal[j].txid {
      assert wal[i] == h[start + 1 + i].tx && wal[j] == h[start + 1 + j].tx;
      TxidsIncrease(h, start + 1 + i, start + 1 + j);
    }
  }

  lemma {:induction false} RecoverAll(h: Chronicle, start: nat, b: nat, sb: Superblock)
    requires Valid(h) && start <= b < |h| && sb == Publishing(h[b], sb.generation, sb.slot)
    ensures Recover(sb, Txs(h[start + 1..])) == Expected(h, b, |h| - 1, sb)
  {
    hide Valid, VisitAll, Ascending;
    LogAscends(h, start, Txs(h[start + 1..]));
    RootInRange(h, b);
    VisitRest(h, b, start, sb);
  }

  /** A log that holds only published commits adds nothing. */
  lemma {:induction false} RecoverNothing(sb: Superblock, wal: seq<Tx>, images: seq<Image>)
    requires forall i :: 0 <= i < |wal| ==> wal[i].txid <= sb.txid
    ensures VisitAll(Recovered(sb, images), sb, wal) == Recovered(sb, images)
    decreases |wal|
  {
    if wal != [] {
      RecoverNothing(sb, wal[1..], images);
    }
  }

  lemma {:induction false} PublishedPrefix(h: Chronicle, start: nat, wal: seq<Tx>)
    requires Valid(h) && start < |h| && wal <= Txs(h[start + 1..])
    ensures forall i :: 0 <= i < |wal| ==> wal[i].txid <= h[|h| - 1].tx.txid
  {
    hide Valid;
    forall i | 0 <= i < |wal| ensures wal[i].txid <= h[|h| - 1].tx.txid {
      assert wal[i] == Txs(h[start + 1..])[i] == h[start + 1 + i].tx;
      if start + 1 + i < |h| - 1 {
        TxidsIncrease(h, start + 1 + i, |h| - 1);
      }
    }
  }

  /** What a closed database reopens as. */
  ghost function Reopened(s: State): Chronicle {
    if Adopts(s) then s.hist + [s.pending.value] else s.hist
  }

  /** In every reachable closed state, recovery succeeds and finds the last commit. */
  lemma {:induction false} LoadFinds(s: State)
    requires Files(s) && Quiet(s)
    ensures Select(s.slots) == Some(Publishing(s.hist[s.base], Generation(s), s.active))
    ensures Valid(Reopened(s))
    ensures Recover(Select(s.slots).value, s.wal) == Expected(Reopened(s), s.base, |Reopened(s)| - 1, Select(s.slots).value)
  {
    hide Content, LogMap, Touches, WriteAll, Valid, Extends, Covered, MainHolds, Recover, Expected;
    SelectsActive(s);
    var sb := Select(s.slots).value;
    if Adopts(s) {
      var h := Reopened(s);
      ValidSnoc(s.hist, s.pending.value);
      assert h[s.start + 1..] == s.hist[s.start + 1..] + [s.pending.value];
      assert Txs(h[s.start + 1..]) == s.wal;
      RecoverAll(h, s.start, s.base, sb);
    } else {
      NotAdopted(s);
      if s.base < |s.hist| - 1 {
        RecoverAll(s.hist, s.start, s.base, sb);
      } else {
        RecoverPublished(s, sb);
      }
    }
  }

  lemma {:induction false} NotAdopted(s: State)
    requires s.start < |s.hist| && Sufficient(s, s.start, s.wal) && !Adopts(s)
    ensures s.wal <= Committed(s) && (s.base < |s.hist| - 1 ==> s.wal == Committed(s))
  {
    hide Txs;
    var w, all := s.wal, WithPending(s, s.start);
    assert w == all[..|w|];
    assert |w| == |all| ==> w == all;
    assert |w| <= |Committed(s)|;
    assert w == Committed(s)[..|w|];
  }

  lemma {:induction false} RecoverPublished(s: State, sb: Superblock)
    requires Valid(s.hist) && s.start <= s.base == |s.hist| - 1 && s.wal <= Committed(s)
    requires sb == Publishing(s.hist[s.base], sb.generation, sb.slot)
    ensures Recover(sb, s.wal) == Expected(s.hist, s.base, |s.hist| - 1, sb)
  {
    hide Valid, VisitAll, Ascending;
    LogAscends(s.hist, s.start, s.wal);
    RootInRange(s.hist, s.base);
    PublishedPrefix(s.hist, s.start, s.wal);
    RecoverNothing(sb, s.wal, []);
  }

  /** Loading keeps the files in order, with the pending commit adopted, still pending, or dropped. */
  lemma {:induction false} LoadedFiles(s: State, s': State)
    requires Files(s) && Quiet(s) && Loads(s, s')
    requires s'.main == s.main && s'.loose == s.loose
    requires s'.slots == s.slots && s'.durableSlots == s.durableSlots && s'.wal == s.wal && s'.durableWal == s.durableWal
    requires s'.base == s.base && s'.start == s.start && s'.durableStart == s.durableStart && s'.active == s.active && s'.acked == s.acked
    ensures Files(s') && Quiet(s') && Generation(s') == Generation(s) && s'.hist[s'.base] == s.hist[s.base]
    ensures Goal(s') == Reopened(s)
  {
    hide Content, LogMap, Touches, WriteAll, Valid, Extends, Txs, Covered, PendingCovered, LogsOk, MainHolds;
    if Adopts(s) && LogDurable(s) {
      PendingCommits(s, s.pending.value, s');
      NothingPending(s');
    } else if s'.pending == s.pending {
      SameMain(s, s');
    } else {
      SameMain(s, s');
      NothingPending(s');
    }
    assert s'.hist[s.base] == s.hist[s.base];
    LoadedLogs(s, s');
  }

  /** What loading makes of the pending commit. */
  ghost predicate Loads(s: State, s': State) {
    && s'.hist == (if Adopts(s) && LogDurable(s) then Goal(s) else s.hist)
    && s'.pending == (if Adopts(s) && !LogDurable(s) then s.pending else None)
  }

  lemma {:induction false} LoadedLogs(s: State, s': State)
    requires s.start < |s.hist| && s.durableStart < |s.hist| && LogsOk(s) && Loads(s, s')
    requires s'.wal == s.wal && s'.durableWal == s.durableWal
    requires s'.base == s.base && s'.start == s.start && s'.durableStart == s.durableStart
    ensures LogsOk(s')
  {
    hide Txs;
    if Adopts(s) {
      if LogDurable(s) {
        GoalSince(s, s.start);
      }
    } else {
      NotAdopted(s);
    }
  }

  lemma {:induction false} LoadKeeps(s: State, s': State)
    requires Inv(s) && Takes(s, Load, s')
    ensures Inv(s') && Goal(s') == Reopened(s)
  {
    hide Content, LogMap, Touches, WriteAll, Valid, Extends, Txs, Files, Recover, Quiet, MainHolds, AllImages;
    LoadFinds(s);
    LoadedFiles(s, s');
    LoadedMode(s, s', Select(s.slots).value);
  }

  lemma {:induction false} ToTheEnd(h: Chronicle, b: nat)
    requires b < |h|
    ensures h[b + 1..|h|] == h[b + 1..]
  {
  }

  lemma {:induction false} LoadedMode(s: State, s': State, base: Superblock)
    requires Files(s') && Quiet(s') && s'.dirty == map[] && Goal(s') == Reopened(s) && Loads(s, s') && !KeepsStaleLog(s')
    requires base == Publishing(s'.hist[s'.base], Generation(s'), s'.active)
    requires var found := Expected(Goal(s'), s'.base, |Goal(s')| - 1, base);
             && s'.walDurableTxid == found.superblock.txid
             && s'.mode == if found.superblock.txid > base.txid
                           then Replaying(WriteAll(map[], found.images), found.superblock.(generation := base.generation + 1, slot := Other(base.slot)))
                           else Published(found.superblock)
    ensures ModeOk(s')
  {
    hide Content, Touches, WriteAll, Extends, AllImages, Valid, Files, ModeOk, Quiet, LogMap, Expected, Loads;
    FilesFacts(s');
    AdoptedCovered(s');
    FoundIs(Goal(s'), s'.base, base);
    if s'.base < |Goal(s')| - 1 {
      ReplayingOk(s');
    } else {
      PublishedOk(s');
    }
  }

  lemma {:induction false} FilesFacts(s: State)
    requires Files(s)
    ensures Valid(s.hist) && s.start <= s.base < |s.hist| && ActiveSlot(s) && Covered(s) && PendingCovered(s)
  {
    hide Content, Touches, WriteAll, Extends, Valid, LogMap, ActiveSlot, LogsOk, SlotsOk, Covered, PendingCovered;
  }

  /** Recovery moves past the base exactly when there are later commits. */
  lemma {:induction false} FoundIs(h: Chronicle, b: nat, base: Superblock)
    requires Valid(h) && b < |h| && base == Publishing(h[b], base.generation, base.slot)
    ensures var found, last := Expected(h, b, |h| - 1, base), LastOf(h);
            && found.Recovered? && found.superblock == Superblock(base.generation, base.slot, last.tx.txid, last.tx.root, last.tx.next)
            && (found.superblock.txid > base.txid <==> b < |h| - 1)
            && (b < |h| - 1 ==> WriteAll(map[], found.images) == LogMap(h, b))
  {
    hide Valid, WriteAll, AllImages;
    if b < |h| - 1 {
      TxidsIncrease(h, b, |h| - 1);
      ToTheEnd(h, b);
    }
  }

  lemma {:induction false} ReplayingOk(s: State)
    requires Files(s) && Quiet(s) && !KeepsStaleLog(s) && s.dirty == map[] && s.base < |Goal(s)| - 1
    requires s.mode.Replaying? && s.mode.todo == LogMap(Goal(s), s.base)
    requires s.mode.target == Publishing(LastOf(Goal(s)), Generation(s) + 1, Other(s.active)) && s.walDurableTxid == s.mode.target.txid
    ensures ModeOk(s)
  {
    hide Content, Touches, WriteAll, Extends, Valid, Covered, PendingCovered, LogsOk, SlotsOk, LogMap, Quiet;
  }

  lemma {:induction false} PublishedOk(s: State)
    requires Files(s) && Quiet(s) && !KeepsStaleLog(s) && s.base == |Goal(s)| - 1
    requires s.mode == Published(Publishing(LastOf(Goal(s)), Generation(s), s.active)) && s.walDurableTxid == s.mode.target.txid
    ensures ModeOk(s)
  {
    hide Content, Touches, WriteAll, Extends, Valid, PendingCovered, LogsOk, SlotsOk, LogMap, Quiet;
    assert s.pending.None?;
    LogMapEmpty(s.hist);
  }
}
