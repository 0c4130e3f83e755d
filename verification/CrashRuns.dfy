/** What holds over every run of commits, checkpoints, failures, crashes and recoveries. */
module CrashRuns {
  import opened Keys
  import opened Pages
  import opened PageHeaders
  import opened WalRecords
  import opened WalScan
  import opened WalReplay
  import opened History
  import opened Crash
  import opened CrashProof

  lemma {:induction false} StepKeeps(s: State, step: Step, s': State)
    requires Inv(s) && Takes(s, step, s')
    ensures Inv(s')
  {
    hide Inv, InUse, Extends, MainSurvives, SlotsSurvive, WalSurvives, Settled, Recover, Adopts, WriteAll;
    match step
    case WriteBody(p, bytes) => WriteBodyKeeps(s, p, bytes, s');
    case FlushBodies => FlushBodiesKeeps(s, s');
    case BeginAppend(c) => BeginAppendKeeps(s, c, s');
    case CompleteAppend => CompleteAppendKeeps(s, s');
    case FlushAppend => FlushAppendKeeps(s, s');
    case Stage => StageKeeps(s, s');
    case Discard(p) => DiscardKeeps(s, p, s');
    case BeginCheckpoint => BeginCheckpointKeeps(s, s');
    case WriteBack(p) => WriteBackKeeps(s, p, s');
    case FlushMain =>
      if s.mode.WritingBack? {
        FlushWrittenBackKeeps(s, s');
      } else {
        FlushReplayedKeeps(s, s');
      }
    case WriteSlot => WriteSlotKeeps(s, s');
    case FlushSlot => FlushSlotKeeps(s, s');
    case Truncate => TruncateKeeps(s, s');
    case FlushTruncate => FlushTruncateKeeps(s, s');
    case ReplayPage(p) => ReplayPageKeeps(s, p, s');
    case Fail => FailKeeps(s, s');
    case FailWritingPage(p, junk) => FailWritingPageKeeps(s, p, junk, s');
    case FailWritingSlot => FailWritingSlotKeeps(s, s');
    case Crash(main', slots', wal', torn', start') => CrashKeeps(s, main', slots', wal', torn', start', s');
    case CloseFiles => CloseFilesKeeps(s, s');
    case Abandon => AbandonKeeps(s, s');
    case BeginRecover => BeginRecoverKeeps(s, s');
    case FlushVisible =>
      if s.mode.FlushingMain? {
        FlushVisibleMainKeeps(s, s');
      } else if s.mode.FlushingManifest? {
        FlushVisibleManifestKeeps(s, s');
      } else {
        FlushVisibleWalKeeps(s, s');
      }
    case Load => LoadKeeps(s, s');
  }

  /** The history only changes by the pending commit joining it, and only an append makes one pending. */
  ghost predicate Grows(s: State, s': State) {
    || (s'.hist == s.hist && (s'.pending == s.pending || s'.pending.None?))
    || (s.pending.Some? && s'.hist == s.hist + [s.pending.value] && s'.pending.None?)
  }

  lemma {:induction false} StepGrows(s: State, step: Step, s': State)
    requires Inv(s) && Takes(s, step, s')
    ensures !step.BeginAppend? ==> Grows(s, s')
    ensures step.BeginAppend? ==> s'.hist == s.hist && s.pending.None?
    ensures s.acked <= s'.acked <= |s'.hist|
  {
    hide Inv, Takes, Grows;
    PendingFacts(s);
    if step.FlushSlot? || step.FlushVisible? || step.Crash? {
      SettlingGrows(s, step, s');
    } else if step.Load? || step.FlushAppend? {
      JoiningGrows(s, step, s');
    } else {
      OtherGrows(s, step, s');
    }
  }

  lemma {:induction false} OtherGrows(s: State, step: Step, s': State)
    requires Takes(s, step, s') && (s.mode.Healthy? ==> s.pending.None?) && s.acked <= |s.hist|
    requires !step.FlushSlot? && !step.FlushVisible? && !step.Crash? && !step.Load? && !step.FlushAppend?
    ensures !step.BeginAppend? ==> Grows(s, s')
    ensures step.BeginAppend? ==> s'.hist == s.hist && s.pending.None?
    ensures s.acked <= s'.acked <= |s'.hist|
  {
    hide InUse, Extends, MainSurvives, SlotsSurvive, WalSurvives, Recover, WriteAll, Settled, Select, Adopts;
  }

  lemma {:induction false} JoiningGrows(s: State, step: Step, s': State)
    requires Takes(s, step, s') && (step.Load? || step.FlushAppend?) && (s.mode.LogWritten? ==> s.pending == Some(s.mode.c)) && s.acked <= |s.hist|
    ensures Grows(s, s') && s.acked <= s'.acked <= |s'.hist|
  {
    hide InUse, Extends, MainSurvives, SlotsSurvive, WalSurvives, Recover, WriteAll, Settled, Select;
  }

  lemma {:induction false} SettlingGrows(s: State, step: Step, s': State)
    requires Takes(s, step, s') && (step.FlushSlot? || step.FlushVisible? || step.Crash?) && s.acked <= |s.hist|
    ensures Grows(s, s') && s.acked <= s'.acked <= |s'.hist|
  {
    hide InUse, Extends, MainSurvives, SlotsSurvive, WalSurvives, Recover, WriteAll, Newer, Select, Adopts;
  }

  lemma {:induction false} PendingFacts(s: State)
    requires Inv(s)
    ensures s.mode.LogWritten? ==> s.pending == Some(s.mode.c)
    ensures s.mode.Healthy? ==> s.pending.None?
    ensures s.acked <= |s.hist|
  {
    hide Extends, Valid, Covered, PendingCovered, OtherSlotOk, Sufficient, LogMap, Content, InMemory, Quiet;
  }

  datatype Run = Run(states: seq<State>, steps: seq<Step>)

  ghost predicate Stepwise(r: Run) {
    && |r.states| == |r.steps| + 1
    && forall i :: 0 <= i < |r.steps| ==> Takes(r.states[i], r.steps[i], r.states[i + 1])
  }

  /** A run from any state that satisfies the invariant; `InitKeeps` says that a fresh database does. */
  ghost predicate IsRun(r: Run) {
    Stepwise(r) && Inv(r.states[0])
  }

  /** Every state of every run satisfies the invariant. */
  lemma {:induction false} RunInvariant(r: Run, i: nat)
    requires IsRun(r) && i < |r.states|
    ensures Inv(r.states[i])
    decreases i
  {
    hide Inv, Takes;
    if i > 0 {
      RunInvariant(r, i - 1);
      StepKeeps(r.states[i - 1], r.steps[i - 1], r.states[i]);
    }
  }

  /** No commit is ever lost or reordered: later histories extend earlier ones. */
  lemma {:induction false} HistoryExtends(r: Run, i: nat, j: nat)
    requires IsRun(r) && i <= j < |r.states|
    ensures r.states[i].hist <= r.states[j].hist && r.states[i].acked <= r.states[j].acked
    decreases j
  {
    hide Inv, Takes;
    if i < j {
      HistoryExtends(r, i, j - 1);
      RunInvariant(r, j - 1);
      StepGrows(r.states[j - 1], r.steps[j - 1], r.states[j]);
    }
  }

  /** Between appends, the history gains at most the commit that was pending. */
  lemma {:induction false} AtMostPending(r: Run, i: nat, j: nat)
    requires IsRun(r) && i <= j < |r.states|
    requires forall k :: i <= k < j ==> !r.steps[k].BeginAppend?
    ensures Grows(r.states[i], r.states[j])
    decreases j
  {
    hide Inv, Takes;
    if i < j {
      AtMostPending(r, i, j - 1);
      RunInvariant(r, j - 1);
      StepGrows(r.states[j - 1], r.steps[j - 1], r.states[j]);
    }
  }

  /** What a reader sees: staged images over the main file. */
  ghost function View(s: State): MainFile {
    s.main + s.dirty
  }

  /** The engine serves exactly the state after the commits `h`. */
  ghost predicate ServesExactly(s: State, h: Chronicle) {
    && h != []
    && s.memory.txid == LastOf(h).tx.txid && s.memory.root == LastOf(h).tx.root && s.memory.next == LastOf(h).tx.next
    && forall p :: p in LastOf(h).reach ==> p in View(s) && p in Content(h) && View(s)[p] == Content(h)[p]
  }

  lemma {:induction false} HealthyServes(s: State)
    requires Inv(s) && s.mode.Healthy?
    ensures ServesExactly(s, s.hist)
  {
    hide Content, Valid, Covered, PendingCovered, OtherSlotOk, Sufficient, LogMap, Quiet, LogSettled;
  }

  /**
   * Crash atomicity and durability. Take any state of any run (mid-commit, mid-checkpoint,
   * crashed, mid-recovery) and any later state in which the engine is up, with no new commit
   * begun in between. It serves exactly the state after the commits so far, which include
   * every acknowledged one, plus at most the one that was pending.
   */
  lemma {:induction false} CrashAtomicity(r: Run, i: nat, j: nat)
    requires IsRun(r) && i <= j < |r.states| && r.states[j].mode.Healthy?
    requires forall k :: i <= k < j ==> !r.steps[k].BeginAppend?
    ensures var s, t := r.states[i], r.states[j];
            && ServesExactly(t, t.hist)
            && s.acked <= |s.hist|
            && (t.hist == s.hist || (s.pending.Some? && t.hist == s.hist + [s.pending.value]))
  {
    hide Inv, Takes, ServesExactly;
    AtMostPending(r, i, j);
    RunInvariant(r, j);
    RunInvariant(r, i);
    PendingFacts(r.states[i]);
    HealthyServes(r.states[j]);
  }

  /** Every acknowledged commit is in every state served later, whatever happens in between. */
  lemma {:induction false} AcknowledgedIsDurable(r: Run, i: nat, j: nat)
    requires IsRun(r) && i <= j < |r.states| && r.states[j].mode.Healthy?
    ensures ServesExactly(r.states[j], r.states[j].hist)
    ensures r.states[i].acked <= |r.states[i].hist| && r.states[i].hist[..r.states[i].acked] <= r.states[j].hist
  {
    hide Inv, Takes, ServesExactly;
    RunInvariant(r, i);
    RunInvariant(r, j);
    PendingFacts(r.states[i]);
    HealthyServes(r.states[j]);
    HistoryExtends(r, i, j);
  }

  /**
   * Once recovery has read a flushed log, crashes and repeated recoveries change nothing. Where
   * opening found a commit in unflushed records, that commit is all that can still be decided.
   */
  lemma {:induction false} CrashInRecoveryIsHarmless(r: Run, i: nat, j: nat)
    requires IsRun(r) && i < j < |r.states| && r.steps[i].Load?
    requires forall k :: i <= k < j ==> !r.steps[k].BeginAppend?
    ensures LogDurable(r.states[i]) || !Adopts(r.states[i]) ==> r.states[j].hist == r.states[i + 1].hist
    ensures r.states[j].hist == r.states[i + 1].hist || r.states[j].hist == Goal(r.states[i + 1]) == Goal(r.states[i])
  {
    hide Inv, Adopts, LogDurable, Recover, Select, WriteAll;
    AtMostPending(r, i + 1, j);
    assert Takes(r.states[i], r.steps[i], r.states[i + 1]);
    assert Loads(r.states[i], r.states[i + 1]);
  }

  // ---------- recovery never reports corruption ----------

  lemma {:induction false} HistoryLogs(h: Chronicle, i: nat, lastTxid: nat, lastNext: PageId)
    requires Valid(h) && i < |h| && lastTxid <= h[i].tx.txid && lastNext <= h[i].tx.next
    ensures ValidLog(Txs(h[i + 1..]), lastTxid, lastNext)
    decreases |h| - i
  {
    hide Valid, TxValid;
    var txs := Txs(h[i + 1..]);
    if i + 1 < |h| {
      ExtendsAt(h, i + 1);
      assert txs[0] == h[i + 1].tx && txs[1..] == Txs(h[i + 2..]);
      HistoryLogs(h, i + 1, h[i + 1].tx.txid, h[i + 1].tx.next);
    }
  }

  lemma {:induction false} ExtendsAt(h: Chronicle, i: nat)
    requires Valid(h) && 0 < i < |h|
    ensures TxValid(h[i].tx) && h[i - 1].tx.txid < h[i].tx.txid && h[i - 1].tx.next <= h[i].tx.next
  {
    hide Content, Touches, TxValid;
    assert Extends(h[..i], h[i]);
  }

  lemma {:induction false} PrefixLogs(txs: seq<Tx>, w: seq<Tx>, lastTxid: nat, lastNext: PageId)
    requires ValidLog(txs, lastTxid, lastNext) && w <= txs
    ensures ValidLog(w, lastTxid, lastNext)
    decreases |w|
  {
    hide TxValid;
    if w != [] {
      PrefixLogs(txs[1..], w[1..], txs[0].txid, txs[0].next);
    }
  }

  /**
   * The bytes of any log that survives scan back as its complete transactions, whatever follows
   * them: part of another transaction, or, over a log that was emptied without a flush, part of
   * one and then old bytes that read as no record.
   */
  lemma {:induction false} SurvivingLogScans(s: State, last: Tx, n: nat, rest: Bytes, tail: Bytes)
    requires Inv(s) && TxEncodable(last) && ImagesVerify(last.images) && IncompleteTail(last, n, rest, tail)
    ensures ScanFrom(Log(s.wal) + tail, 0, START) == Scanned(VisitsOf(s.wal, 0))
  {
    hide IncompleteTail, Content, Touches, TxValid, Extends, LogMap, Covered, OtherSlotOk, ModeOk, EncodeAll, RecordsOf, TxEncodable, ImagesVerify, ScanFrom, VisitsOf, Valid;
    assert ValidLog(WithPending(s, s.start), 0, 0) by {
      if s.pending.Some? {
        var h := s.hist + [s.pending.value];
        ValidSnoc(s.hist, s.pending.value);
        assert h[s.start + 1..] == s.hist[s.start + 1..] + [s.pending.value];
        assert Txs(h[s.start + 1..]) == WithPending(s, s.start);
        HistoryLogs(h, s.start, 0, 0);
      } else {
        assert WithPending(s, s.start) == Committed(s);
        HistoryLogs(s.hist, s.start, 0, 0);
      }
    }
    PrefixLogs(WithPending(s, s.start), s.wal, 0, 0);
    ScanIgnoresTail(s.wal, last, n, rest, tail);
  }

  /** Wherever a crash leaves the files, opening them succeeds. */
  lemma {:induction false} OpenSucceeds(r: Run, i: nat)
    requires IsRun(r) && i < |r.states| && r.states[i].mode.Down?
    ensures exists t :: Takes(r.states[i], Load, t)
  {
    var s := r.states[i];
    RunInvariant(r, i);
    LoadEnabled(s);
  }

  ghost function Loaded(s: State, base: Superblock, recovery: Recovery): State
    requires recovery.Recovered?
  {
    var found := recovery.superblock;
    s.(hist := if Adopts(s) && LogDurable(s) then Goal(s) else s.hist, pending := if Adopts(s) && !LogDurable(s) then s.pending else None, dirty := map[], walDurableTxid := found.txid,
       mode := if found.txid > base.txid
               then Replaying(WriteAll(map[], recovery.images), found.(generation := base.generation + 1, slot := Other(base.slot)))
               else Published(found))
  }

  lemma {:induction false} LoadEnabled(s: State)
    requires Inv(s) && s.mode.Down?
    ensures exists t :: Takes(s, Load, t)
  {
    hide Content, Touches, TxValid, Extends, LogMap, Covered, PendingCovered, OtherSlotOk, Valid, WriteAll, Recover, Adopts, Sufficient;
    LoadFinds(s);
    var base := Select(s.slots).value;
    assert Takes(s, Load, Loaded(s, base, Recover(base, s.wal)));
  }
}
