/**
 * Commit, checkpoint, crash and recovery as a step system. A file has visible and durable
 * contents; a crash keeps, loses or tears every unflushed write.
 */
module Crash {
  import opened Keys
  import opened Pages
  import opened WalScan
  import opened WalReplay
  import opened History

  datatype Superblock = Superblock(generation: nat, slot: nat, txid: nat, root: PageId, next: PageId)

  /** A slot without valid magic and checksum reads as none. */
  type Slots = s: seq<Option<Superblock>> | |s| == 2 witness [None, None]

  /** What `c` looks like once published in `slot` as `generation`. */
  function Publishing(c: Commit, generation: nat, slot: nat): Superblock {
    Superblock(generation, slot, c.tx.txid, c.tx.root, c.tx.next)
  }

  function Other(slot: nat): nat {
    if slot == 0 then 1 else 0
  }

  /** The valid slot with the larger generation, the first one on a tie. */
  function Select(slots: Slots): Option<Superblock> {
    match (slots[0], slots[1])
    case (Some(a), Some(b)) => Some(if a.generation >= b.generation then a else b)
    case (Some(a), None) => Some(a)
    case (None, Some(b)) => Some(b)
    case (None, None) => None
  }

  datatype Mode =
    | Healthy
    | Appending(c: Commit)
    | LogWritten(c: Commit)
    | Logged(c: Commit)
    | WritingBack(rest: set<PageId>)
    | Replaying(todo: MainFile, target: Superblock)
    | Ready(target: Superblock)
    | SlotWritten(target: Superblock)
    | Published(target: Superblock)
    | Truncated(target: Superblock)
    | Poisoned
    | FlushingMain
    | FlushingManifest
    | FlushingWal
    | Down

  /**
   * Files, engine memory and history.
   *  - `main` is the visible main file and `loose` its pages with unflushed writes;
   *  - `slots`/`wal` are visible, `durableSlots`/`durableWal` durable. A log is its complete
   *    transactions; `torn` says that an incomplete one follows;
   *  - `memory`, `dirty`, `walDurableTxid`, `checkpointTxid` are the engine's superblock, staged
   *    images and fields;
   *  - `hist` are the committed transactions, `pending` one with unknown outcome, `acked` how
   *    many commits were reported successful, by the commit or by a recovery that found them;
   *  - `base` and `active` say which commit the newest durable slot publishes and which slot that
   *    is, `start` and `durableStart` after which commit the visible and the durable log start.
   */
  datatype State = State(
    main: MainFile, loose: set<PageId>,
    slots: Slots, durableSlots: Slots,
    wal: seq<Tx>, torn: bool, durableWal: seq<Tx>,
    mode: Mode, memory: Superblock, dirty: MainFile, walDurableTxid: nat, checkpointTxid: nat,
    hist: Chronicle, pending: Option<Commit>, acked: nat,
    base: nat, active: nat, start: nat, durableStart: nat)

  function LastOf(h: Chronicle): Commit
    requires h != []
  {
    h[|h| - 1]
  }

  // ---------- recovery's decision ----------

  datatype Recovery = Recovered(superblock: Superblock, images: seq<Image>) | Corrupted

  /** One visited transaction: those already published are skipped. */
  function Visit1(r: Recovery, base: Superblock, tx: Tx): Recovery {
    if r.Corrupted? || tx.txid <= base.txid then r
    else if tx.next < r.superblock.next then Corrupted
    else Recovered(r.superblock.(txid := tx.txid, root := tx.root, next := tx.next), r.images + tx.images)
  }

  function VisitAll(r: Recovery, base: Superblock, wal: seq<Tx>): Recovery
    decreases |wal|
  {
    if wal == [] then r else VisitAll(Visit1(r, base, wal[0]), base, wal[1..])
  }

  /** The scan refuses a log whose transaction ids do not increase. */
  predicate Ascending(wal: seq<Tx>) {
    forall i, j :: 0 <= i < j < |wal| ==> wal[i].txid < wal[j].txid
  }

  /** What recovery reads from a superblock and the complete transactions of the log. */
  function Recover(base: Superblock, wal: seq<Tx>): Recovery {
    if base.root == 0 || base.root >= base.next || !Ascending(wal) then Corrupted
    else VisitAll(Recovered(base, []), base, wal)
  }

  // ---------- steps ----------

  datatype Step =
    | WriteBody(p: PageId, bytes: Bytes)
    | FlushBodies
    | BeginAppend(c: Commit)
    | CompleteAppend
    | FlushAppend
    | Stage
    | Discard(p: PageId)
    | BeginCheckpoint
    | WriteBack(p: PageId)
    | FlushMain
    | WriteSlot
    | FlushSlot
    | Truncate
    | FlushTruncate
    | ReplayPage(p: PageId)
    | Fail
    | FailWritingPage(p: PageId, junk: Bytes)
    | FailWritingSlot
    | Crash(main': MainFile, slots': Slots, wal': seq<Tx>, torn': bool, start': nat)
    | CloseFiles
    | Abandon
    | BeginRecover
    | FlushVisible
    | Load

  /** Pages a payload body must not overwrite. */
  ghost predicate InUse(s: State, p: PageId)
    requires s.hist != []
  {
    p in LastOf(s.hist).reach || exists i :: 0 <= i < |s.hist| && Touches(s.hist[i].tx, p)
  }

  predicate Live(m: Mode) {
    !m.Poisoned? && !m.Down?
  }

  /** A file whose unflushed writes are arbitrarily lost or torn. */
  ghost predicate MainSurvives(s: State, main': MainFile) {
    forall p :: p !in s.loose ==> (p in main' <==> p in s.main) && (p in main' ==> main'[p] == s.main[p])
  }

  /** Each slot is the durable one, the visible one, or unreadable if the two differ. */
  ghost predicate SlotsSurvive(s: State, slots': Slots) {
    forall i :: 0 <= i < 2 ==>
      || slots'[i] == s.slots[i]
      || slots'[i] == s.durableSlots[i]
      || (slots'[i] == None && s.slots[i] != s.durableSlots[i])
  }

  /** The two logs have the same origin and length on disk. */
  predicate LogDurable(s: State) {
    s.wal == s.durableWal && s.start == s.durableStart
  }

  /** The visible records lie over the head of a durable log of which `rest` shows behind them. */
  ghost predicate Spliced(s: State, rest: seq<Tx>) {
    exists k :: 0 < k <= |s.durableWal| && |Log(s.wal)| == |Log(s.durableWal[..k])| && rest == s.durableWal[k..]
  }

  /**
   * Any log between the durable and the visible one. If the log was emptied without a flush and
   * then appended to, either log in part, or the new records with what the old log holds after them.
   */
  ghost predicate WalSurvives(s: State, wal': seq<Tx>, start': nat) {
    if s.start == s.durableStart then
      && start' == s.start
      && ((s.durableWal <= wal' <= s.wal) || (s.wal <= wal' <= s.durableWal))
    else
      || (start' == s.start && wal' <= s.wal)
      || (start' == s.durableStart && wal' <= s.durableWal)
      || (start' == s.start && s.wal <= wal' && Spliced(s, wal'[|s.wal|..]))
  }

  /** After this slot survives, is it the newer one? */
  ghost predicate Newer(s: State, slots': Slots) {
    s.active < 2 && slots'[Other(s.active)].Some? && slots'[s.active].Some?
    && slots'[Other(s.active)].value.generation > slots'[s.active].value.generation
  }

  /** The history if the pending commit turns out durable. */
  function Goal(s: State): Chronicle {
    if s.pending.Some? then s.hist + [s.pending.value] else s.hist
  }

  function Adopted(s: State): State {
    s.(hist := Goal(s), pending := None)
  }

  /** The bookkeeping that follows from which slot is the newest durable one. */
  ghost function Settled(s: State): State {
    if Newer(s, s.slots) && s.hist != [] then Adopted(s).(active := Other(s.active), base := |Goal(s)| - 1) else s
  }

  ghost predicate Adopts(s: State) {
    s.pending.Some? && s.start < |s.hist| && s.wal == Txs(s.hist[s.start + 1..]) + [s.pending.value.tx]
  }

  /** Opening would believe a superblock that is not durable. */
  predicate BelievesUnflushed(s: State) {
    Select(s.slots) != Select(s.durableSlots)
  }

  /** The log looks empty, so opening leaves it alone, but at least two old transactions are durable in it. */
  predicate KeepsStaleLog(s: State) {
    s.wal == [] && !s.torn && |s.durableWal| > 1
  }

  /** An engine that serves what it loaded or checkpointed. */
  function Serving(s: State, target: Superblock): State {
    s.(mode := Healthy, memory := target, dirty := map[], checkpointTxid := target.txid, acked := |s.hist|)
  }

  function Survivor(s: State, main': MainFile, slots': Slots, wal': seq<Tx>, torn': bool, start': nat): State {
    s.(main := main', loose := {}, slots := slots', durableSlots := slots', wal := wal', durableWal := wal', torn := torn',
       start := start', durableStart := start', mode := Down)
  }

  /** `s'` follows from `s` by `step`. */
  ghost predicate Takes(s: State, step: Step, s': State) {
    s.hist != [] &&
    match step
    // planning a commit: payload bodies go straight to the main file, and are flushed
    case WriteBody(p, bytes) =>
      s.mode.Healthy? && !InUse(s, p) && s' == s.(main := s.main[p := bytes], loose := s.loose + {p})
    case FlushBodies =>
      s.mode.Healthy? && s' == s.(loose := {})
    // publishing it: the log first
    case BeginAppend(c) =>
      && s.mode.Healthy? && Extends(s.hist, c)
      && (forall p :: p in c.bodies ==> p in s.main && s.main[p] == c.bodies[p] && p !in s.loose)
      && s' == s.(mode := Appending(c), pending := Some(c), torn := true)
    case CompleteAppend =>
      s.mode.Appending? && s' == s.(mode := LogWritten(s.mode.c), wal := s.wal + [s.mode.c.tx], torn := false)
    case FlushAppend =>
      s.mode.LogWritten? && s' == s.(mode := Logged(s.mode.c), durableWal := s.wal, durableStart := s.start, pending := None, hist := s.hist + [s.mode.c], walDurableTxid := s.mode.c.tx.txid)
    case Stage =>
      && s.mode.Logged?
      && var c := s.mode.c;
      s' == s.(mode := Healthy, dirty := WriteAll(s.dirty, c.tx.images), acked := |s.hist|,
               memory := s.memory.(txid := c.tx.txid, root := c.tx.root, next := c.tx.next))
    // a retired page that no reader can reach loses its staged image
    case Discard(p) =>
      s.mode.Healthy? && p !in LastOf(s.hist).reach && s' == s.(dirty := s.dirty - {p})
    // checkpoint
    case BeginCheckpoint =>
      s.mode.Healthy? && (s.dirty != map[] || s.checkpointTxid != s.memory.txid) && s' == s.(mode := WritingBack(s.dirty.Keys))
    case WriteBack(p) =>
      && s.mode.WritingBack? && p in s.mode.rest && p in s.dirty
      && s' == s.(main := s.main[p := s.dirty[p]], loose := s.loose + {p}, mode := WritingBack(s.mode.rest - {p}))
    case FlushMain =>
      || (s.mode.WritingBack? && s.mode.rest == {}
          && s' == s.(loose := {}, mode := Ready(s.memory.(generation := s.memory.generation + 1, slot := Other(s.memory.slot)))))
      || (s.mode.Replaying? && s.mode.todo == map[] && s' == s.(loose := {}, mode := Ready(s.mode.target)))
    case WriteSlot =>
      s.mode.Ready? && s.mode.target.slot < 2
      && s' == s.(slots := s.slots[s.mode.target.slot := Some(s.mode.target)], mode := SlotWritten(s.mode.target))
    case FlushSlot =>
      s.mode.SlotWritten? && s' == Settled(s.(durableSlots := s.slots, mode := Published(s.mode.target)))
    // a log that already looks empty is left alone
    case Truncate =>
      && s.mode.Published?
      && s' == if s.walDurableTxid != s.mode.target.txid then Serving(s, s.mode.target)
               else if s.wal == [] && !s.torn then
                 Serving(s, s.mode.target).(start := |s.hist| - 1, durableStart := if s.durableWal == [] then |s.hist| - 1 else s.durableStart)
               else s.(wal := [], torn := false, mode := Truncated(s.mode.target))
    case FlushTruncate =>
      s.mode.Truncated? && s' == Serving(s, s.mode.target).(durableWal := s.wal, start := |s.hist| - 1, durableStart := |s.hist| - 1)
    case ReplayPage(p) =>
      && s.mode.Replaying? && p in s.mode.todo
      && s' == s.(main := s.main[p := s.mode.todo[p]], loose := s.loose + {p}, mode := Replaying(s.mode.todo - {p}, s.mode.target))
    // failures leave the engine unusable until it recovers
    case Fail =>
      Live(s.mode) && s' == s.(mode := Poisoned)
    case FailWritingPage(p, junk) =>
      && ((s.mode.WritingBack? && p in s.mode.rest && p in s.dirty) || (s.mode.Replaying? && p in s.mode.todo))
      && s' == s.(main := s.main[p := junk], loose := s.loose + {p}, mode := Poisoned)
    case FailWritingSlot =>
      s.mode.Ready? && s.mode.target.slot < 2 && s' == s.(slots := s.slots[s.mode.target.slot := None], mode := Poisoned)
    case Crash(main', slots', wal', torn', start') =>
      && MainSurvives(s, main') && SlotsSurvive(s, slots') && WalSurvives(s, wal', start')
      && s' == Settled(Survivor(s, main', slots', wal', torn', start'))
    // a healthy engine closes after a checkpoint; nothing is left unflushed but unreferenced bodies
    case CloseFiles =>
      s.mode.Healthy? && s' == s.(mode := Down)
    // closing a failed engine leaves the files to be opened as they are, flushed or not; `CrashReopen`
    // says what becomes of the two cases that are not a step here
    case Abandon =>
      s.mode.Poisoned? && !BelievesUnflushed(s) && !KeepsStaleLog(s) && s' == s.(mode := Down)
    // recovering a live engine flushes what is visible, then loads it
    case BeginRecover =>
      (s.mode.Healthy? || s.mode.Poisoned?) && s' == s.(mode := FlushingMain, dirty := map[])
    case FlushVisible =>
      || (s.mode.FlushingMain? && s' == s.(loose := {}, mode := FlushingManifest))
      || (s.mode.FlushingManifest? && s' == Settled(s.(durableSlots := s.slots, mode := FlushingWal)))
      || (s.mode.FlushingWal? && s' == s.(durableWal := s.wal, durableStart := s.start, mode := Down))
    // opening reads the superblock and the log, and starts to replay; the pending commit stays
    // pending if only unflushed records hold it
    case Load =>
      && s.mode.Down?
      && var selected := Select(s.slots);
      && selected.Some?
      && var recovery := Recover(selected.value, s.wal);
      && recovery.Recovered?
      && var found, base := recovery.superblock, selected.value;
      && s' == s.(
           hist := if Adopts(s) && LogDurable(s) then Goal(s) else s.hist,
           pending := if Adopts(s) && !LogDurable(s) then s.pending else None, dirty := map[], walDurableTxid := found.txid,
           mode := if found.txid > base.txid
                   then Replaying(WriteAll(map[], recovery.images), found.(generation := base.generation + 1, slot := Other(base.slot)))
                   else Published(found))
  }

  // ---------- the invariant ----------

  /** The transactions committed after commit number `start`. */
  ghost function Since(s: State, start: nat): seq<Tx>
    requires start < |s.hist|
  {
    Txs(s.hist[start + 1..])
  }

  ghost function Committed(s: State): seq<Tx>
    requires s.start < |s.hist|
  {
    Since(s, s.start)
  }

  ghost function WithPending(s: State, start: nat): seq<Tx>
    requires start < |s.hist|
  {
    Since(s, start) + (if s.pending.Some? then [s.pending.value.tx] else [])
  }

  /** A log with this origin from which recovery still finds every commit after the active superblock. */
  ghost predicate Sufficient(s: State, start: nat, w: seq<Tx>)
    requires start < |s.hist|
  {
    && w <= WithPending(s, start)
    && (s.base < |s.hist| - 1 ==> Since(s, start) <= w)
  }

  /** A pending commit is durable only where it is also visible. */
  ghost predicate PendingVolatile(s: State)
    requires s.durableStart < |s.hist|
  {
    s.pending.Some? ==> s.durableWal <= Since(s, s.durableStart) || LogDurable(s)
  }

  /** An old log that is still durable holds one published transaction. */
  predicate StaleLogOk(s: State) {
    s.start != s.durableStart ==> |s.durableWal| == 1 && s.base == |s.hist| - 1
  }

  /** Page `p` durably holds `content[p]` in the main file. */
  ghost predicate Firm(s: State, content: MainFile, p: PageId) {
    p !in s.loose && p in s.main && p in content && s.main[p] == content[p]
  }

  /** The main file durably holds every page of the latest commit. */
  ghost predicate MainHolds(s: State)
    requires s.hist != []
  {
    forall p :: p in LastOf(s.hist).reach ==> Firm(s, Content(s.hist), p)
  }

  /** Every page of the latest commit is either logged since the active superblock or durable. */
  ghost predicate Covered(s: State)
    requires s.base < |s.hist|
  {
    forall p :: p in LastOf(s.hist).reach ==> p in LogMap(s.hist, s.base) || Firm(s, Content(s.hist), p)
  }

  ghost predicate PendingCovered(s: State)
    requires s.base < |s.hist|
  {
    s.pending.Some? ==>
      var c := s.pending.value;
      && Extends(s.hist, c)
      && forall p :: p in c.reach ==> Touches(c.tx, p) || p in LogMap(s.hist, s.base) || Firm(s, Content(s.hist + [c]), p)
  }

  ghost predicate ActiveSlot(s: State)
    requires s.base < |s.hist|
  {
    && s.active < 2
    && s.slots[s.active] == s.durableSlots[s.active]
    && s.slots[s.active].Some?
    && s.slots[s.active].value == Publishing(s.hist[s.base], s.slots[s.active].value.generation, s.active)
  }

  ghost function Generation(s: State): nat
    requires s.active < 2 && s.slots[s.active].Some?
  {
    s.slots[s.active].value.generation
  }

  /** A superblock that publishes the goal, which is beyond what is published already. */
  ghost predicate TargetOk(s: State, target: Superblock)
    requires s.base < |s.hist| && ActiveSlot(s)
  {
    target == Publishing(LastOf(Goal(s)), Generation(s) + 1, Other(s.active)) && s.base < |Goal(s)| - 1
  }

  /** The other slot is unreadable, older, or publishes the goal, whose pages are durable. */
  ghost predicate OtherSlotOk(s: State, other: Option<Superblock>)
    requires s.base < |s.hist| && ActiveSlot(s)
  {
    other.Some? ==> other.value.generation < Generation(s) || (TargetOk(s, other.value) && MainHolds(Adopted(s)))
  }

  ghost predicate Older(s: State, other: Option<Superblock>)
    requires s.base < |s.hist| && ActiveSlot(s)
  {
    other.Some? ==> other.value.generation < Generation(s)
  }

  ghost predicate DurableActive(s: State)
    requires s.base < |s.hist| && ActiveSlot(s)
  {
    Older(s, s.durableSlots[Other(s.active)])
  }

  /** The active slot is the newest, durable or not. */
  ghost predicate Quiet(s: State)
    requires s.base < |s.hist| && ActiveSlot(s)
  {
    DurableActive(s) && Older(s, s.slots[Other(s.active)])
  }

  ghost predicate LogsOk(s: State)
    requires s.start < |s.hist| && s.durableStart < |s.hist|
  {
    && Sufficient(s, s.start, s.wal) && Sufficient(s, s.durableStart, s.durableWal)
    && PendingVolatile(s) && StaleLogOk(s)
  }

  ghost predicate SlotsOk(s: State)
    requires s.base < |s.hist| && ActiveSlot(s)
  {
    OtherSlotOk(s, s.slots[Other(s.active)]) && OtherSlotOk(s, s.durableSlots[Other(s.active)])
  }

  ghost predicate Files(s: State) {
    && Valid(s.hist)
    && s.start <= s.base < |s.hist| && s.durableStart <= s.base
    && ActiveSlot(s) && SlotsOk(s)
    && LogsOk(s)
    && Covered(s)
    && PendingCovered(s)
    && s.acked <= |s.hist|
  }

  /** The log is exactly the commits since its start, without an incomplete tail. */
  ghost predicate LogSettled(s: State)
    requires s.start < |s.hist|
  {
    s.wal == Committed(s) && s.pending.None? && !s.torn
  }

  /** It is durable, or an emptied log whose old contents still are. */
  predicate LogFlushed(s: State) {
    s.wal == s.durableWal || s.start != s.durableStart
  }

  /** A healthy engine serves the latest commit from its staged images and the main file. */
  ghost predicate Serves(s: State, c: Commit, content: MainFile) {
    && (forall p :: p in c.reach && p in s.dirty ==> p in content && s.dirty[p] == content[p])
    && (forall p :: p in c.reach && p !in s.dirty ==> p in s.main && p in content && s.main[p] == content[p])
  }

  ghost predicate DirtyIsLogged(s: State)
    requires s.base < |s.hist|
  {
    forall p :: p in s.dirty ==> p in LogMap(s.hist, s.base)
  }

  ghost predicate InMemory(s: State)
    requires s.base < |s.hist| && ActiveSlot(s)
  {
    && s.memory == Publishing(LastOf(s.hist), Generation(s), s.active)
    && s.walDurableTxid == LastOf(s.hist).tx.txid
    && s.checkpointTxid == s.hist[s.base].tx.txid
    && Serves(s, LastOf(s.hist), Content(s.hist))
    && DirtyIsLogged(s)
  }

  ghost predicate ModeOk(s: State)
    requires Files(s)
  {
    match s.mode
    case Healthy => Quiet(s) && LogSettled(s) && LogFlushed(s) && InMemory(s)
    case Appending(c) =>
      && Quiet(s) && s.wal == Committed(s) && LogFlushed(s) && s.pending == Some(c) && InMemory(s)
    case LogWritten(c) =>
      && Quiet(s) && s.wal == Committed(s) + [c.tx] && s.pending == Some(c) && !s.torn && InMemory(s)
    case Logged(c) =>
      && Quiet(s) && LogSettled(s) && LogDurable(s) && |s.hist| > 1 && LastOf(s.hist) == c
      && s.base < |s.hist| - 1
      && Extends(s.hist[..|s.hist| - 1], c)
      && s.memory == Publishing(s.hist[|s.hist| - 2], Generation(s), s.active)
      && s.walDurableTxid == c.tx.txid
      && s.checkpointTxid == s.hist[s.base].tx.txid
      && DirtyIsLogged(s)
      && Serves(s, s.hist[|s.hist| - 2], Content(s.hist[..|s.hist| - 1]))
    case WritingBack(rest) =>
      && Quiet(s) && LogSettled(s) && InMemory(s) && s.base < |s.hist| - 1
      && rest <= s.dirty.Keys
      && forall p :: p in s.dirty && p !in rest ==> p in s.main && s.main[p] == s.dirty[p]
    case Replaying(todo, target) =>
      && Quiet(s) && s.dirty == map[] && TargetOk(s, target) && !KeepsStaleLog(s)
      && s.walDurableTxid == target.txid
      && (forall p :: p in todo ==> p in LogMap(Goal(s), s.base) && todo[p] == LogMap(Goal(s), s.base)[p])
      && forall p :: p in LogMap(Goal(s), s.base) && p !in todo ==> p in s.main && s.main[p] == LogMap(Goal(s), s.base)[p]
    case Ready(target) =>
      && Quiet(s) && TargetOk(s, target) && MainHolds(Adopted(s)) && !KeepsStaleLog(s)
      && s.walDurableTxid == target.txid
    case SlotWritten(target) =>
      && DurableActive(s) && s.slots[Other(s.active)] == Some(target) && TargetOk(s, target) && MainHolds(Adopted(s))
      && !KeepsStaleLog(s) && s.walDurableTxid == target.txid
    case Published(target) =>
      && Quiet(s) && s.pending.None? && MainHolds(s) && !KeepsStaleLog(s)
      && s.base == |s.hist| - 1 && target == Publishing(LastOf(s.hist), Generation(s), s.active)
      && s.walDurableTxid == target.txid
    case Truncated(target) =>
      && Quiet(s) && s.wal == [] && !s.torn && s.pending.None? && MainHolds(s)
      && s.base == |s.hist| - 1 && target == Publishing(LastOf(s.hist), Generation(s), s.active)
      && s.walDurableTxid == target.txid
    case Poisoned => DurableActive(s)
    case FlushingMain => DurableActive(s)
    case FlushingManifest => DurableActive(s)
    case FlushingWal => Quiet(s)
    case Down => Quiet(s) && !KeepsStaleLog(s)
  }

  ghost predicate Inv(s: State) {
    Files(s) && ModeOk(s)
  }

  /** A freshly created database: its catalog page is durable and published in slot 0. */
  ghost predicate Init(s: State) {
    && Valid(s.hist) && |s.hist| == 1
    && s.loose == {} && s.dirty == map[]
    && (forall p :: p in s.hist[0].reach ==> Firm(s, Content(s.hist), p))
    && s.slots == s.durableSlots == [Some(Publishing(s.hist[0], 1, 0)), None]
    && s.wal == s.durableWal == [] && !s.torn
    && s.mode.Healthy? && s.memory == Publishing(s.hist[0], 1, 0)
    && s.walDurableTxid == s.checkpointTxid == s.hist[0].tx.txid
    && s.pending.None? && s.acked <= 1
    && s.base == s.active == s.start == s.durableStart == 0
  }
}
