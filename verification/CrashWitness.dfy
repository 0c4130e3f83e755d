/** Runs from a fresh database that end where closing and opening the files goes wrong. */
module CrashWitness {
  import opened Keys
  import opened Pages
  import opened PageHeaders
  import opened Crc
  import opened WalScan
  import opened WalReplay
  import opened History
  import opened Crash
  import opened CrashProof
  import opened CrashRuns
  import opened CrashReopen
  import opened CrashReach
  import N = Creation
  import opened CommitLink
  import opened PayloadRegistration
  import opened ReuseQueue
  import F = FreePages
  import PR = PayloadRuns
  import R = Reclaim
  import S = Slotted

  // ---------- parts of runs ----------

  lemma {:induction false} Logs(r: Run, c: Commit) returns (r': Run)
    requires Stepwise(r) && Final(r).mode.Healthy? && Final(r).hist != [] && Extends(Final(r).hist, c) && c.bodies == map[]
    ensures Stepwise(r') && r.states <= r'.states
    ensures var s := Final(r);
            Final(r') == s.(wal := s.wal + [c.tx], durableWal := s.wal + [c.tx], durableStart := s.start, torn := false,
                            hist := s.hist + [c], pending := None, walDurableTxid := c.tx.txid, mode := Logged(c))
  {
    hide Extends;
    r' := LogsBodies(r, c);
  }

  lemma {:induction false} Commits(r: Run, c: Commit) returns (r': Run)
    requires Stepwise(r) && Final(r).mode.Healthy? && Final(r).hist != [] && Extends(Final(r).hist, c) && c.bodies == map[]
    ensures Stepwise(r') && r.states <= r'.states && Final(r') == Acknowledging(Final(r), c)
  {
    hide Extends, WriteAll;
    var r1 := Logs(r, c);
    r' := Longer(r1, Stage, Acknowledging(Final(r), c));
  }

  /** Every staged image reaches the main file. */
  lemma {:induction false} WritesBack(r: Run) returns (r': Run)
    requires Stepwise(r) && Final(r).mode.WritingBack? && Final(r).mode.rest <= Final(r).dirty.Keys && Final(r).hist != []
    ensures Stepwise(r') && r.states <= r'.states
    ensures Final(r') == Final(r).(main := Final(r').main, loose := Final(r').loose, mode := WritingBack({}))
    decreases |Final(r).mode.rest|
  {
    var s := Final(r);
    if s.mode.rest == {} {
      r' := r;
    } else {
      var p :| p in s.mode.rest;
      var t := s.(main := s.main[p := s.dirty[p]], loose := s.loose + {p}, mode := WritingBack(s.mode.rest - {p}));
      var r1 := Longer(r, WriteBack(p), t);
      r' := WritesBack(r1);
    }
  }

  function Target(s: State): Superblock {
    s.memory.(generation := s.memory.generation + 1, slot := Other(s.memory.slot))
  }

  /** A checkpoint up to its superblock, which is written and not yet flushed. */
  lemma {:induction false} WritesSlot(r: Run) returns (r': Run)
    requires Stepwise(r) && Final(r).mode.Healthy? && Final(r).hist != [] && Final(r).dirty != map[]
    ensures Stepwise(r') && r.states <= r'.states
    ensures var s := Final(r);
            Final(r') == s.(main := Final(r').main, loose := {}, slots := s.slots[Target(s).slot := Some(Target(s))], mode := SlotWritten(Target(s)))
  {
    var s := Final(r);
    var r1 := Longer(r, BeginCheckpoint, s.(mode := WritingBack(s.dirty.Keys)));
    var r2 := WritesBack(r1);
    var t := s.(main := Final(r2).main, loose := {}, mode := Ready(Target(s)));
    var r3 := Longer(r2, FlushMain, t);
    r' := Longer(r3, WriteSlot, t.(slots := s.slots[Target(s).slot := Some(Target(s))], mode := SlotWritten(Target(s))));
  }

  lemma {:induction false} Fails(r: Run) returns (r': Run)
    requires Stepwise(r) && Live(Final(r).mode) && Final(r).hist != []
    ensures Stepwise(r') && r.states <= r'.states && Final(r') == Final(r).(mode := Poisoned)
  {
    r' := Longer(r, Fail, Final(r).(mode := Poisoned));
  }

  // ---------- the example ----------

  /** A new database: its catalog is the empty page 1. */
  const FIRST := Commit(Tx(0, [Image(1, S.EmptyLeaf(1))], 1, 2), map[], {1})

  /** A commit whose new root is one empty page, together with payload bodies. */
  function Rooted(txid: nat, page: PageId, next: PageId, bodies: MainFile): Commit {
    Commit(Tx(txid, [Image(page, S.EmptyLeaf(page))], page, next), bodies, {page} + bodies.Keys)
  }

  function Single(txid: nat, page: PageId, next: PageId): Commit {
    Rooted(txid, page, next, map[])
  }

  const FRESH := State(
    map[1 := S.EmptyLeaf(1)], {},
    [Some(Publishing(FIRST, 1, 0)), None], [Some(Publishing(FIRST, 1, 0)), None],
    [], false, [],
    Healthy, Publishing(FIRST, 1, 0), map[], 0, 0,
    [FIRST], None, 1,
    0, 0, 0, 0)

  lemma {:induction false} OneImage(p: PageId)
    ensures WriteAll(map[], [Image(p, S.EmptyLeaf(p))]) == map[p := S.EmptyLeaf(p)]
  {
    hide S.EmptyLeaf;
    var images := [Image(p, S.EmptyLeaf(p))];
    assert images[..0] == [] && images[1..] == [];
    assert WriteAll(map[], []) == map[];
  }

  /** It is what creation makes. */
  lemma {:induction false} FreshIsInit()
    ensures Init(FRESH)
    ensures FIRST == N.Founding([Image(1, S.EmptyLeaf(1))], 1, 2)
    ensures FRESH == N.Started(N.Disk(N.Target(FIRST), N.Holding([Some(Publishing(FIRST, 1, 0)), None])), FIRST)
  {
    hide S.EmptyLeaf, WriteAll, Init;
    var images := [Image(1, S.EmptyLeaf(1))];
    var c := N.Founding(images, 1, 2);
    assert c.reach == {1} by {
      assert images[0].page == 1;
    }
    OneImage(1);
    N.StartedIsInit(N.Disk(N.Target(c), N.Holding([Some(Publishing(c, 1, 0)), None])), images, 1, 2);
  }

  lemma {:induction false} TouchesRooted(txid: nat, page: PageId, next: PageId, bodies: MainFile, p: PageId)
    ensures Touches(Rooted(txid, page, next, bodies).tx, p) <==> p == page
  {
    assert Rooted(txid, page, next, bodies).tx.images[0].page == page;
  }

  lemma {:induction false} TouchesFirst(p: PageId)
    ensures Touches(FIRST.tx, p) <==> p == 1
  {
    assert FIRST.tx.images[0].page == 1;
  }

  lemma {:induction false} RootedValid(txid: nat, page: PageId, next: PageId, bodies: MainFile)
    requires 0 < page < next < 100 && txid < 100
    ensures TxValid(Rooted(txid, page, next, bodies).tx)
  {
    hide ImageVerifies, S.EmptyLeaf;
    S.EmptyLeafVerifies(page);
  }

  /** A rooted commit follows others if its page is not the last root, nor in anyone's bodies. */
  lemma {:induction false} RootedFollows(h: Chronicle, txid: nat, page: PageId, next: PageId, bodies: MainFile)
    requires h != [] && LastOf(h).tx.txid < txid < 100 && 0 < page < next < 100 && LastOf(h).tx.next <= next
    requires page !in LastOf(h).reach && page !in bodies && forall p :: p in bodies ==> p < next && p !in LastOf(h).reach
    requires forall i :: 0 <= i < |h| ==> page !in h[i].bodies && forall p :: p in bodies ==> !Touches(h[i].tx, p)
    ensures Extends(h, Rooted(txid, page, next, bodies))
  {
    hide TxValid, Touches, S.EmptyLeaf;
    RootedValid(txid, page, next, bodies);
    forall p: PageId ensures Touches(Rooted(txid, page, next, bodies).tx, p) <==> p == page {
      TouchesRooted(txid, page, next, bodies, p);
    }
  }

  lemma {:induction false} DirtyAfter(dirty: MainFile, c: Commit)
    requires c.tx.images != []
    ensures WriteAll(dirty, c.tx.images) != map[]
  {
    hide WriteAll, Touches;
    var p := c.tx.images[0].page;
    assert Touches(c.tx, p) by { TouchesFirstImage(c); }
    WriteTx(dirty, c.tx, p);
  }

  lemma {:induction false} TouchesFirstImage(c: Commit)
    requires c.tx.images != []
    ensures Touches(c.tx, c.tx.images[0].page)
  {
  }

  lemma {:induction false} FirstFollows()
    ensures Extends([FIRST], Single(1, 2, 3))
    ensures Extends([FIRST, Single(1, 2, 3)], Single(2, 1, 3))
  {
    hide S.EmptyLeaf, Extends;
    RootedFollows([FIRST], 1, 2, 3, map[]);
    RootedFollows([FIRST, Single(1, 2, 3)], 2, 1, 3, map[]);
  }

  // ---------- the first catalog page is used again ----------

  /**
   * The second commit of a new database logs page 1 again, which the first one freed: an
   * ordinary run, in which both commits are acknowledged.
   */
  lemma {:induction false} FirstPageIsReused() returns (r: Run)
    ensures IsRun(r) && Init(r.states[0]) && r.states[0].hist == [N.Founding([Image(1, S.EmptyLeaf(1))], 1, 2)]
    ensures var s := Final(r);
            s.mode.Healthy? && s.acked == 3 && |s.hist| == 3 && Touches(s.hist[2].tx, 1) && ServesExactly(s, s.hist)
  {
    hide Init, Inv, Extends, Takes, S.EmptyLeaf, WriteAll, Touches, ServesExactly;
    FreshIsInit();
    r := TwoCommits();
    InitKeeps(FRESH);
    RunInvariant(r, |r.states| - 1);
    HealthyServes(Final(r));
    TouchesRooted(2, 1, 3, map[], 1);
  }

  lemma {:induction false} TwoCommits() returns (r: Run)
    ensures Stepwise(r) && r.states[0] == FRESH
    ensures Final(r) == Acknowledging(Acknowledging(FRESH, Single(1, 2, 3)), Single(2, 1, 3))
  {
    hide Extends, Takes, S.EmptyLeaf, WriteAll;
    FirstFollows();
    var r0 := Starting(FRESH);
    var r1 := Commits(r0, Single(1, 2, 3));
    assert Final(r1).hist == [FIRST, Single(1, 2, 3)];
    r := Commits(r1, Single(2, 1, 3));
    assert r.states[0] == r1.states[0] == r0.states[0];
  }

  // ---------- a slot or a log that was not flushed ----------

  /**
   * A fresh database commits and acknowledges, and its first checkpoint fails at the flush of
   * the superblock slot: from here, closing and opening the files can lose the commit.
   */
  lemma {:induction false} UnflushedSlotIsReached() returns (r: Run)
    ensures Stepwise(r) && Init(r.states[0]) && Inv(Final(r))
    ensures var s := Final(r); s.mode.Poisoned? && BelievesUnflushed(s) && s.base + 1 < s.acked && LastOf(s.hist) == Single(1, 2, 3)
    ensures exists lost ::
              Reopening(Final(r), lost) && Final(lost).mode.Healthy? && !ServesBeyond(Final(lost), [FIRST, Single(1, 2, 3)])
  {
    hide Init, Inv, Extends, Reopening, ServesBeyond, Stepwise, Takes, S.EmptyLeaf, WriteAll;
    FreshIsInit();
    FirstFollows();
    var r0 := Starting(FRESH);
    var r1 := Commits(r0, Single(1, 2, 3));
    DirtyAfter(map[], Single(1, 2, 3));
    var r2 := WritesSlot(r1);
    r := Fails(r2);
    assert r.states[0] == FRESH;
    InitKeeps(FRESH);
    RunInvariant(r, |r.states| - 1);
    var s := Final(r);
    assert s.slots[1].value.generation == 2;
    var lost := AcknowledgedLost(s);
    assert Acknowledged(s) == [FIRST, Single(1, 2, 3)];
  }

  /**
   * Two commits, a checkpoint that publishes them, and a failed flush of the truncated log: from
   * here, closing and opening the files can end in a log that opening refuses.
   */
  lemma {:induction false} StaleLogIsReached() returns (r: Run)
    ensures Stepwise(r) && Init(r.states[0]) && Inv(Final(r))
    ensures var s := Final(r); s.mode.Poisoned? && !BelievesUnflushed(s) && KeepsStaleLog(s) && s.acked == 3
    ensures exists refused :: Reopening(Final(r), refused) && Final(refused).mode.Down? && !Loadable(Final(refused))
  {
    hide Init, Inv, Extends, Reopening, Loadable, Takes, S.EmptyLeaf, WriteAll, Select;
    FreshIsInit();
    var r2 := TwoCommits();
    DirtyAfter(Acknowledging(FRESH, Single(1, 2, 3)).dirty, Single(2, 1, 3));
    var r3 := WritesSlot(r2);
    var r4 := Empties(r3);
    r := Fails(r4);
    assert r.states[0] == FRESH;
    InitKeeps(FRESH);
    RunInvariant(r, |r.states| - 1);
    var s := Final(r);
    assert s.slots == s.durableSlots;
    assert RoomToGrow(s);
    var refused := LogRefused(s);
  }

  /** The slot becomes durable and the log is emptied, without a flush so far. */
  lemma {:induction false} Empties(r: Run) returns (r': Run)
    requires Stepwise(r) && Final(r).mode.SlotWritten? && Final(r).hist != [] && Final(r).wal != []
    requires Final(r).walDurableTxid == Final(r).mode.target.txid && Newer(Final(r), Final(r).slots) && Final(r).pending.None?
    ensures Stepwise(r') && r.states <= r'.states
    ensures var s := Final(r);
            Final(r') == s.(durableSlots := s.slots, active := Other(s.active), base := |s.hist| - 1, wal := [], torn := false, mode := Truncated(s.mode.target))
  {
    var s := Final(r);
    var t := s.(durableSlots := s.slots, active := Other(s.active), base := |s.hist| - 1, mode := Published(s.mode.target));
    var r1 := Longer(r, FlushSlot, t);
    r' := Longer(r1, Truncate, t.(wal := [], torn := false, mode := Truncated(s.mode.target)));
  }

  // ---------- a payload extent reused too early ----------

  /** A failed engine flushes its files and reads them again. */
  lemma {:induction false} Reloads(r: Run, sb: Superblock, found: Superblock, images: seq<Image>) returns (r': Run)
    requires Stepwise(r) && Final(r).mode.Poisoned? && Final(r).hist != [] && Final(r).pending.None? && !Newer(Final(r), Final(r).slots)
    requires Select(Final(r).slots) == Some(sb) && Recover(sb, Final(r).wal) == Recovered(found, images) && found.txid > sb.txid
    ensures Stepwise(r') && r.states <= r'.states
    ensures var s := Final(r);
            Final(r') == s.(loose := {}, dirty := map[], durableSlots := s.slots, durableWal := s.wal, durableStart := s.start, walDurableTxid := found.txid,
                            mode := Replaying(WriteAll(map[], images), found.(generation := sb.generation + 1, slot := Other(sb.slot))))
  {
    hide Select, Recover, WriteAll, Newer;
    var s := Final(r);
    var r1 := Longer(r, BeginRecover, s.(mode := FlushingMain, dirty := map[]));
    var b := s.(dirty := map[], loose := {}, mode := FlushingManifest);
    var r2 := Longer(r1, FlushVisible, b);
    var c := b.(durableSlots := s.slots, mode := FlushingWal);
    SettlesNot(s, c);
    var r3 := Longer(r2, FlushVisible, c);
    var d := c.(durableWal := s.wal, durableStart := s.start, mode := Down);
    var r4 := Longer(r3, FlushVisible, d);
    var l := d.(walDurableTxid := found.txid, mode := Replaying(WriteAll(map[], images), found.(generation := sb.generation + 1, slot := Other(sb.slot))));
    TakesLoad(d, sb, found, images);
    r' := Longer(r4, Load, l);
  }

  lemma {:induction false} SettlesNot(s: State, c: State)
    requires !Newer(s, s.slots) && c.slots == s.slots && c.active == s.active
    ensures Settled(c) == c
  {
  }

  lemma {:induction false} TakesLoad(d: State, sb: Superblock, found: Superblock, images: seq<Image>)
    requires d.mode.Down? && d.hist != [] && d.pending.None? && d.dirty == map[]
    requires Select(d.slots) == Some(sb) && Recover(sb, d.wal) == Recovered(found, images) && found.txid > sb.txid
    ensures Takes(d, Load, d.(walDurableTxid := found.txid, mode := Replaying(WriteAll(map[], images), found.(generation := sb.generation + 1, slot := Other(sb.slot)))))
  {
    hide Select, Recover, WriteAll, LogDurable;
  }

  /** A failed engine recovers up to its superblock, which is written and not yet flushed. */
  lemma {:induction false} RecoversToSlot(r: Run, sb: Superblock, found: Superblock, images: seq<Image>) returns (r': Run)
    requires Stepwise(r) && Final(r).mode.Poisoned? && Final(r).hist != [] && Final(r).pending.None? && !Newer(Final(r), Final(r).slots)
    requires Select(Final(r).slots) == Some(sb) && Recover(sb, Final(r).wal) == Recovered(found, images) && found.txid > sb.txid && sb.slot < 2
    ensures Stepwise(r') && r.states <= r'.states
    ensures var s, target := Final(r), found.(generation := sb.generation + 1, slot := Other(sb.slot));
            Final(r') == s.(main := Final(r').main, loose := {}, dirty := map[], durableWal := s.wal, durableStart := s.start, walDurableTxid := found.txid,
                            slots := s.slots[target.slot := Some(target)], durableSlots := s.slots, mode := SlotWritten(target))
    ensures forall p :: p !in WriteAll(map[], images) && p in Final(r).main ==> p in Final(r').main && Final(r').main[p] == Final(r).main[p]
  {
    hide Select, Recover, WriteAll, Newer;
    var target := found.(generation := sb.generation + 1, slot := Other(sb.slot));
    var r1 := Reloads(r, sb, found, images);
    var r2 := Replays(r1);
    var f := Final(r2).(loose := {}, mode := Ready(target));
    var r3 := Longer(r2, FlushMain, f);
    r' := Longer(r3, WriteSlot, f.(slots := f.slots[target.slot := Some(target)], mode := SlotWritten(target)));
  }

  lemma {:induction false} Replays(r: Run) returns (r': Run)
    requires Stepwise(r) && Final(r).mode.Replaying? && Final(r).hist != []
    ensures Stepwise(r') && r.states <= r'.states
    ensures Final(r') == Final(r).(main := Final(r').main, loose := Final(r').loose, mode := Replaying(map[], Final(r).mode.target))
    ensures forall p :: p !in Final(r).mode.todo && p in Final(r).main ==> p in Final(r').main && Final(r').main[p] == Final(r).main[p]
    decreases |Final(r).mode.todo|
  {
    var s := Final(r);
    if s.mode.todo == map[] {
      r' := r;
    } else {
      var p :| p in s.mode.todo;
      var rest := s.mode.todo - {p};
      assert rest.Keys == s.mode.todo.Keys - {p} && |rest.Keys| < |s.mode.todo.Keys|;
      var t := s.(main := s.main[p := s.mode.todo[p]], loose := s.loose + {p}, mode := Replaying(rest, s.mode.target));
      var r1 := Longer(r, ReplayPage(p), t);
      r' := Replays(r1);
    }
  }

  const PAYLOAD: Bytes := [1]
  const OTHER: Bytes := [2]

  /** A commit with a payload body on page 3, and one that no longer names it. */
  const HOLDING := Rooted(1, 2, 4, map[3 := PAYLOAD])
  const DROPPING := Single(2, 1, 4)

  lemma {:induction false} HoldingFollows()
    ensures Extends([FIRST], HOLDING) && Extends([FIRST, HOLDING], DROPPING)
  {
    hide S.EmptyLeaf, Extends, Touches;
    TouchesFirst(3);
    RootedFollows([FIRST], 1, 2, 4, map[3 := PAYLOAD]);
    RootedFollows([FIRST, HOLDING], 2, 1, 4, map[]);
  }

  /** A database that holds the body, checkpointed. */
  ghost function Held(main: MainFile): State {
    State(
      main, {},
      [Some(Publishing(FIRST, 1, 0)), Some(Publishing(HOLDING, 2, 1))], [Some(Publishing(FIRST, 1, 0)), Some(Publishing(HOLDING, 2, 1))],
      [], false, [],
      Healthy, Publishing(HOLDING, 2, 1), map[], 1, 1,
      [FIRST, HOLDING], None, 2,
      1, 1, 1, 1)
  }

  /** The body is written and flushed, the commit acknowledged, and the checkpoint goes through. */
  lemma {:induction false} Holds() returns (r: Run, main: MainFile)
    ensures Stepwise(r) && r.states[0] == FRESH && Final(r) == Held(main)
  {
    hide Extends, Takes, S.EmptyLeaf, WriteAll;
    HoldingFollows();
    var r0 := Starting(FRESH);
    var s0 := FRESH.(main := FRESH.main[3 := PAYLOAD], loose := {3});
    assert !InUse(FRESH, 3) by { hide Touches; TouchesFirst(3); }
    TakesWriteBody(FRESH, 3, PAYLOAD);
    assert FRESH.loose + {3} == {3};
    var r1 := Longer(r0, WriteBody(3, PAYLOAD), s0);
    var s1 := s0.(loose := {});
    assert Takes(s0, FlushBodies, s1) by { TakesFlushBodies(s0); }
    var r2 := Longer(r1, FlushBodies, s1);
    var r3 := CommitsBodies(r2, HOLDING);
    assert Final(r3).hist == [FIRST, HOLDING];
    DirtyAfter(map[], HOLDING);
    var r4 := WritesSlot(r3);
    assert Newer(Final(r4), Final(r4).slots);
    var r5 := Empties(r4);
    main := Final(r5).main;
    var t := Held(main);
    TakesFlushTruncate(Final(r5), t);
    r := Longer(r5, FlushTruncate, t);
  }

  lemma {:induction false} TakesFlushTruncate(s: State, t: State)
    requires s.mode.Truncated? && s.hist != []
    requires t == Serving(s, s.mode.target).(durableWal := s.wal, start := |s.hist| - 1, durableStart := |s.hist| - 1)
    ensures Takes(s, FlushTruncate, t)
  {
  }

  /**
   * The failed checkpoint can belong to a recovery. Then the commit beyond the durable
   * superblock was never acknowledged, yet losing it can still damage the acknowledged one
   * before it: the reopened engine may write another body over the extent that the unflushed
   * commit no longer names, while the durable superblock still needs it.
   */
  lemma {:induction false} AcknowledgedOverwritten() returns (r: Run, lost: Run)
    ensures Stepwise(r) && Init(r.states[0]) && Inv(Final(r))
    ensures var s := Final(r); s.mode.Poisoned? && BelievesUnflushed(s) && s.base + 1 == s.acked
    ensures Reopening(Final(r), lost) && Final(lost).mode.Healthy? && !ServesBeyond(Final(lost), Acknowledged(Final(r)))
    ensures exists i :: 0 <= i < |lost.steps| && lost.steps[i] == WriteBody(3, OTHER) && MayWrite(lost.states[i].hist, 3)
  {
    hide Init, Inv, Extends, Takes, S.EmptyLeaf, WriteAll, Recover, Newer, ServesBeyond, Adopts, MayWrite;
    r := RecoveryFails();
    var s := Final(r);
    var at;
    lost, at := ReusesExtent(s);
    assert Acknowledged(s) == [FIRST, HOLDING];
    NotServedBeyond(Final(lost));
  }

  ghost predicate RecoveryFailed(s: State) {
    && s.mode.Poisoned? && s.hist == [FIRST, HOLDING, DROPPING] && s.acked == 2 && s.base == 1 && s.active == 1 && s.pending.None?
    && s.slots == [Some(Publishing(DROPPING, 3, 0)), Some(Publishing(HOLDING, 2, 1))]
    && s.durableSlots == [Some(Publishing(FIRST, 1, 0)), Some(Publishing(HOLDING, 2, 1))]
    && s.wal == [DROPPING.tx]
  }

  lemma {:induction false} RecoveryFails() returns (r: Run)
    ensures Stepwise(r) && Init(r.states[0]) && Inv(Final(r)) && RecoveryFailed(Final(r))
  {
    hide Init, Inv, Extends, Takes, S.EmptyLeaf, WriteAll, Recover, Newer;
    FreshIsInit();
    HoldingFollows();
    var r0, main := Holds();
    var r1 := Logs(r0, DROPPING);
    var r2 := Fails(r1);
    var s := Final(r2);
    var sb, found := Publishing(HOLDING, 2, 1), Publishing(DROPPING, 2, 1);
    assert s.wal == [DROPPING.tx];
    RecoversDropping();
    assert !Newer(s, s.slots) by { OlderSlot(s); }
    var r3 := RecoversToSlot(r2, sb, found, DROPPING.tx.images);
    r := Fails(r3);
    assert r.states[0] == FRESH;
    InitKeeps(FRESH);
    RunInvariant(r, |r.states| - 1);
  }

  lemma {:induction false} OlderSlot(s: State)
    requires s.active == 1 && s.slots[0] == Some(Publishing(FIRST, 1, 0)) && s.slots[1] == Some(Publishing(HOLDING, 2, 1))
    ensures !Newer(s, s.slots) && Select(s.slots) == Some(Publishing(HOLDING, 2, 1))
  {
  }

  lemma {:induction false} RecoversDropping()
    ensures Recover(Publishing(HOLDING, 2, 1), [DROPPING.tx]) == Recovered(Publishing(DROPPING, 2, 1), DROPPING.tx.images)
  {
    hide S.EmptyLeaf;
    var sb, wal := Publishing(HOLDING, 2, 1), [DROPPING.tx];
    assert wal[1..] == [];
    var r1 := Visit1(Recovered(sb, []), sb, wal[0]);
    assert VisitAll(r1, sb, []) == r1;
    assert VisitAll(Recovered(sb, []), sb, wal) == VisitAll(r1, sb, wal[1..]);
  }

  // ---------- the extent is one that planning may take ----------

  /** In some state of both reclamation schemes that fits this history, planning may write a body to this page. */
  ghost predicate MayWrite(h: Chronicle, p: PageId) {
    exists rs: R.State, ps: PR.State, writes: map<PageId, PR.BodyWrite> ::
      R.Inv(rs) && PR.Inv(ps) && Linked(h, rs, ps.now) && PR.PlannedWrites(ps, writes) && InWrites(writes, p)
  }

  const BODY := PayloadRef(3, 1, 0)

  /** The registry after the body lost its last reference: a retired extent in the queue. */
  const RETIRED := Extent(BODY, 0, 1, 2, 1)

  ghost function Registry(): PR.Committed {
    PR.Committed(map[3 := RETIRED], map[KeyOf(RETIRED) := ValueOf(RETIRED)], multiset{}, 2, 4, iset{1, 2})
  }

  ghost function Pages1(): R.State {
    R.State(R.Version(2, map[1 := LeafPage([])]), map[], F.Pool([], [F.Batch(2, [2], [])]), 4, map[1 := LeafPage([])], R.Healthy)
  }

  lemma {:induction false} ExtentIsFree()
    ensures MayWrite([FIRST, HOLDING, DROPPING], 3)
  {
    hide S.EmptyLeaf, Touches, Linked, R.Inv, PR.Inv, PR.IsOldest;
    var ps := PR.State(Registry(), map[], map[3 := BODY], None);
    var rs := Pages1();
    var writes := map[3 := PR.BodyWrite(PayloadRef(3, 2, 0), 1, 2)];
    PagesInOrder();
    ExtentsInOrder(ps);
    ExtentsLinked();
    assert PR.Allowed(ps.now, 2, writes[3]);
    assert InWrites(writes, 3);
  }

  lemma {:induction false} PagesInOrder()
    ensures R.Inv(Pages1())
  {
    var rs := Pages1();
    assert F.PagesIn(rs.pool.retired[1..]) == [];
    assert F.PagesIn(rs.pool.retired) == [2];
  }

  lemma {:induction false} ExtentsInOrder(ps: PR.State)
    requires ps == PR.State(Registry(), map[], map[3 := BODY], None)
    ensures PR.Inv(ps) && PR.IsOldest(ps, 2)
  {
  }

  lemma {:induction false} ExtentsLinked()
    ensures Linked([FIRST, HOLDING, DROPPING], Pages1(), Registry())
  {
    hide S.EmptyLeaf, Touches;
    var h, now := [FIRST, HOLDING, DROPPING], Registry();
    forall p: PageId ensures Touches(FIRST.tx, p) <==> p == 1 {
      TouchesFirst(p);
    }
    forall p: PageId ensures (Touches(HOLDING.tx, p) <==> p == 2) && (Touches(DROPPING.tx, p) <==> p == 1) {
      TouchesRooted(1, 2, 4, map[3 := PAYLOAD], p);
      TouchesRooted(2, 1, 4, map[], p);
    }
    forall i, p | 0 <= i < |h| && Touches(h[i].tx, p) ensures p in now.tree {
      assert i == 0 || i == 1 || i == 2;
    }
    forall i, p | 0 <= i < |h| && p in h[i].bodies ensures InExtent(now, p) {
      assert i == 1 && p == 3;
      assert 3 in now.entries;
    }
  }

  /** The reopened engine writes a body over page 3, and a crash brings back the superblock that needs it. */
  lemma {:induction false} ReusesExtent(s: State) returns (r: Run, at: nat)
    requires Inv(s) && RecoveryFailed(s)
    ensures Reopening(s, r) && BelievesUnflushed(s)
    ensures at < |r.steps| && at < |r.states| && r.steps[at] == WriteBody(3, OTHER) && MayWrite(r.states[at].hist, 3)
    ensures var t := Final(r); t.mode.Healthy? && t.memory.txid == 1 && t.dirty == map[] && 3 in t.main && t.main[3] == OTHER
  {
    hide Inv, Extends, Takes, S.EmptyLeaf, WriteAll, Recover, Newer, Adopts, Read, Cleared, MayWrite;
    assert s.slots[0].value.generation == 3;
    assert BelievesUnflushed(s);
    var newer, older := UnflushedSlot(s);
    var start := Starting(s.(mode := Down));
    var reopened := OpensAt(start, newer);
    OpenedFacts(start.states[0], newer);
    OpenedRest(start.states[0], newer);
    var t := Final(reopened);
    var u := t.(main := t.main[3 := OTHER], loose := t.loose + {3});
    ExtentIsFree();
    FreeToWrite(t);
    TakesWriteBody(t, 3, OTHER);
    var r1 := Longer(reopened, WriteBody(3, OTHER), u);
    at := |reopened.steps|;
    SameNewer(s, u);
    var crashed := SlotsRevert(r1);
    r := OpensAt(crashed, older);
    OpenedFacts(Final(crashed), older);
    OpenedRest(Final(crashed), older);
    assert r.states[0] == start.states[0];
    StepKept(r1, r, at);
  }

  /** Longer runs keep the steps of their beginnings. */
  lemma {:induction false} StepKept(a: Run, b: Run, i: nat)
    requires a.steps <= b.steps && a.states <= b.states && i < |a.steps| && i < |a.states|
    ensures i < |b.steps| && i < |b.states| && b.steps[i] == a.steps[i] && b.states[i] == a.states[i]
  {
  }

  /** What planning may take, the crash model lets it write. */
  lemma {:induction false} FreeToWrite(s: State)
    requires MayWrite(s.hist, 3)
    ensures !InUse(s, 3)
  {
    hide R.Inv, PR.Inv, Linked, PR.PlannedWrites, InWrites, InUse;
    var rs: R.State, ps: PR.State, writes: map<PageId, PR.BodyWrite> :|
      R.Inv(rs) && PR.Inv(ps) && Linked(s.hist, rs, ps.now) && PR.PlannedWrites(ps, writes) && InWrites(writes, 3);
    assert PR.Good(ps.now) by { NowIsGood(ps); }
    WritesNotReached(s.hist, rs, ps, writes, 3);
  }

  lemma {:induction false} NowIsGood(ps: PR.State)
    requires PR.Inv(ps)
    ensures PR.Good(ps.now)
  {
    hide PR.Good;
  }

  lemma {:induction false} OpenedRest(s: State, sb: Superblock)
    requires s.hist != [] && Read(s, sb).hist != []
    ensures var t := Cleared(Read(s, sb), sb); t.main == s.main && t.dirty == map[] && (s.pending.None? ==> t.hist == s.hist)
  {
    hide LogDurable;
  }

  /** An engine at the older commit with another body on page 3 serves no history that begins with both. */
  lemma {:induction false} NotServedBeyond(t: State)
    requires t.memory.txid == 1 && t.dirty == map[] && 3 in t.main && t.main[3] == OTHER
    ensures !ServesBeyond(t, [FIRST, HOLDING])
  {
    hide Content, Valid, S.EmptyLeaf, ServesExactly;
    forall g | Valid(g) && [FIRST, HOLDING] <= g && ServesExactly(t, g) ensures false {
      ServedIds(t, g);
      if |g| > 2 {
        TxidsIncrease(g, 1, |g| - 1);
      } else {
        OnlyHolding(t, g);
      }
    }
  }

  lemma {:induction false} ServedIds(t: State, g: Chronicle)
    requires ServesExactly(t, g)
    ensures g != [] && t.memory.txid == LastOf(g).tx.txid
  {
    hide Content;
  }

  lemma {:induction false} OnlyHolding(t: State, g: Chronicle)
    requires t.dirty == map[] && 3 in t.main && [FIRST, HOLDING] <= g && |g| == 2 && ServesExactly(t, g)
    ensures t.main[3] == PAYLOAD
  {
    hide Content, S.EmptyLeaf, Extends, Touches;
    assert g == [FIRST] + [HOLDING];
    HoldingFollows();
    TouchesRooted(1, 2, 4, map[3 := PAYLOAD], 3);
    ContentStep([FIRST], HOLDING, 3);
    assert 3 in LastOf(g).reach;
    assert View(t)[3] == t.main[3];
  }
}
