/** Recovery as the engine runs it: scan the log bytes, replay the latest images, pick the superblock. */
module RecoveryProcedure {
  import opened Keys
  import opened Pages
  import opened PageHeaders
  import opened WalRecords
  import opened WalScan
  import opened WalReplay
  import opened History
  import opened Crash
  import opened CrashProof

  datatype Outcome = Done(superblock: Superblock, main: MainFile) | Failed

  /** What the step system says recovery does with the transactions of the log. */
  ghost function Specified(base: Superblock, txs: seq<Tx>, main: MainFile): Outcome {
    var recovery := Recover(base, txs);
    if recovery.Corrupted? then Failed
    else if recovery.superblock.txid > base.txid then
      Done(recovery.superblock.(generation := base.generation + 1, slot := Other(base.slot)), WriteAll(main, recovery.images))
    else Done(recovery.superblock, main)
  }

  lemma {:induction false} VisitAllSnoc(r: Recovery, base: Superblock, a: seq<Tx>, tx: Tx)
    ensures VisitAll(r, base, a + [tx]) == Visit1(VisitAll(r, base, a), base, tx)
    decreases |a|
  {
    hide Visit1;
    if a == [] {
      assert a + [tx] == [tx];
      assert VisitAll(r, base, [tx]) == VisitAll(Visit1(r, base, tx), base, []);
    } else {
      assert (a + [tx])[1..] == a[1..] + [tx];
      VisitAllSnoc(Visit1(r, base, a[0]), base, a[1..], tx);
    }
  }

  lemma {:induction false} CorruptStays(base: Superblock, txs: seq<Tx>)
    ensures VisitAll(Corrupted, base, txs) == Corrupted
    decreases |txs|
  {
    if txs != [] {
      CorruptStays(base, txs[1..]);
    }
  }

  lemma {:induction false} VisitAllSplit(r: Recovery, base: Superblock, a: seq<Tx>, b: seq<Tx>)
    ensures VisitAll(r, base, a + b) == VisitAll(VisitAll(r, base, a), base, b)
    decreases |a|
  {
    hide Visit1;
    if a == [] {
      assert a + b == b;
    } else {
      assert (a + b)[1..] == a[1..] + b;
      VisitAllSplit(Visit1(r, base, a[0]), base, a[1..], b);
    }
  }

  lemma {:induction false} PutAllAppend(latest: seq<Location>, a: seq<Location>, b: seq<Location>)
    ensures PutAll(latest, a + b) == PutAll(PutAll(latest, a), b)
    decreases |a|
  {
    hide Put;
    if a == [] {
      assert a + b == b;
    } else {
      assert (a + b)[1..] == a[1..] + b;
      PutAllAppend(Put(latest, a[0]), a[1..], b);
    }
  }

  /** The scan's `k`th visit carries the `k`th transaction. */
  lemma {:induction false} VisitMatches(txs: seq<Tx>, wal: Bytes, torn: Bytes, k: nat)
    requires ValidLog(txs, 0, 0) && wal == Log(txs) + torn && k < |txs|
    ensures |VisitsOf(txs, 0)| == |txs|
    ensures VisitsOf(txs, 0)[k].commit == CommitOf(txs[k])
    ensures ImagesAt(wal, VisitsOf(txs, 0)[k].pages) == txs[k].images
  {
    hide ValidLog, Log, VisitsOf, ImageAt, Holds;
    VisitsCount(txs, 0);
    VisitCommit(txs, 0, k);
    assert wal[0..] == wal;
    var pages := VisitsOf(txs, 0)[k].pages;
    TxPagesWhole(txs, 0, 0, k);
    forall i | 0 <= i < |txs[k].images| ensures ImageAt(wal, pages[i]) == txs[k].images[i] {
      LocationsHoldImages(txs, 0, 0, wal, 0, torn, k, i);
      HeldImage(wal, pages[i], txs[k].images[i]);
    }
    assert ImagesAt(wal, pages) == txs[k].images;
  }

  lemma {:induction false} TxPagesWhole(txs: seq<Tx>, lastTxid: nat, lastNext: PageId, k: nat)
    requires ValidLog(txs, lastTxid, lastNext) && k < |txs|
    ensures forall i :: 0 <= i < |txs[k].images| ==> |txs[k].images[i].bytes| == PAGE_SIZE && ImageVerifies(txs[k].images[i].bytes, txs[k].images[i].page)
    decreases |txs|
  {
    hide ImageVerifies;
    if k > 0 {
      TxPagesWhole(txs[1..], txs[0].txid, txs[0].next, k - 1);
    }
  }

  lemma {:induction false} VisitCommit(txs: seq<Tx>, offset: nat, k: nat)
    requires k < |txs|
    ensures |VisitsOf(txs, offset)| == |txs|
    ensures VisitsOf(txs, offset)[k].commit == CommitOf(txs[k]) && |VisitsOf(txs, offset)[k].pages| == |txs[k].images|
    decreases |txs|
  {
    VisitsCount(txs, offset);
    if k > 0 {
      VisitCommit(txs[1..], offset + TxLen(txs[0]), k - 1);
    }
  }

  /** Recovery has visited the first `k` transactions. */
  ghost predicate Visiting(base: Superblock, txs: seq<Tx>, wal: Bytes, k: nat, recovered: Superblock, latest: seq<Location>, locations: seq<Location>)
    requires k <= |txs|
  {
    && VisitAll(Recovered(base, []), base, txs[..k]) == Recovered(recovered, ImagesAt(wal, locations))
    && latest == PutAll([], locations)
    && AllVerify(ImagesAt(wal, locations))
  }

  lemma {:induction false} VisitsOn(base: Superblock, txs: seq<Tx>, wal: Bytes, torn: Bytes, k: nat, recovered: Superblock, latest: seq<Location>, locations: seq<Location>)
    requires ValidLog(txs, 0, 0) && wal == Log(txs) + torn && k < |txs| && Visiting(base, txs, wal, k, recovered, latest, locations)
    ensures txs[k].txid <= base.txid ==> Visiting(base, txs, wal, k + 1, recovered, latest, locations)
    ensures txs[k].txid > base.txid && txs[k].next < recovered.next ==> VisitAll(Recovered(base, []), base, txs) == Corrupted
    ensures txs[k].txid > base.txid && txs[k].next >= recovered.next ==>
              |VisitsOf(txs, 0)| == |txs| &&
              var pages := VisitsOf(txs, 0)[k].pages;
              Visiting(base, txs, wal, k + 1, recovered.(txid := txs[k].txid, root := txs[k].root, next := txs[k].next), PutAll(latest, pages), locations + pages)
  {
    hide ValidLog, Log, VisitsOf, ImageAt, PutAll, VisitAll, ImageVerifies;
    VisitMatches(txs, wal, torn, k);
    assert txs[..k + 1] == txs[..k] + [txs[k]];
    VisitAllSnoc(Recovered(base, []), base, txs[..k], txs[k]);
    assert txs == txs[..k + 1] + txs[k + 1..];
    VisitAllSplit(Recovered(base, []), base, txs[..k + 1], txs[k + 1..]);
    CorruptStays(base, txs[k + 1..]);
    var pages := VisitsOf(txs, 0)[k].pages;
    ImagesAtAppend(wal, locations, pages);
    PutAllAppend([], locations, pages);
    TxPagesWhole(txs, 0, 0, k);
  }

  lemma {:induction false} LatestVerify(wal: Bytes, latest: seq<Location>, locations: seq<Location>)
    requires AllVerify(ImagesAt(wal, latest)) && AllVerify(ImagesAt(wal, locations))
    ensures AllVerify(ImagesAt(wal, PutAll(latest, locations)))
    decreases |locations|
  {
    hide ImageVerifies, ImageAt;
    if locations != [] {
      assert ImagesAt(wal, locations)[0] == ImageAt(wal, locations[0]);
      assert forall i :: 0 <= i < |locations[1..]| ==> ImagesAt(wal, locations[1..])[i] == ImagesAt(wal, locations)[i + 1];
      PutVerifies(wal, latest, locations[0]);
      LatestVerify(wal, Put(latest, locations[0]), locations[1..]);
    }
  }

  lemma {:induction false} PutVerifies(wal: Bytes, latest: seq<Location>, at: Location)
    requires AllVerify(ImagesAt(wal, latest)) && ImageVerifies(ImageAt(wal, at).bytes, ImageAt(wal, at).page)
    ensures AllVerify(ImagesAt(wal, Put(latest, at)))
    decreases |latest|
  {
    hide ImageVerifies, ImageAt;
    if latest != [] && latest[0].page < at.page {
      assert forall i :: 0 <= i < |latest[1..]| ==> ImagesAt(wal, latest[1..])[i] == ImagesAt(wal, latest)[i + 1];
      PutVerifies(wal, latest[1..], at);
      var rest := Put(latest[1..], at);
      assert forall i :: 0 < i < |rest| + 1 ==> ImagesAt(wal, [latest[0]] + rest)[i] == ImagesAt(wal, rest)[i - 1];
      assert ImagesAt(wal, [latest[0]] + rest)[0] == ImagesAt(wal, latest)[0];
    } else if latest != [] && latest[0].page == at.page {
      assert forall i :: 0 < i < |latest| ==> ImagesAt(wal, [at] + latest[1..])[i] == ImagesAt(wal, latest)[i];
    } else {
      assert forall i :: 0 < i < |latest| + 1 ==> ImagesAt(wal, [at] + latest)[i] == ImagesAt(wal, latest)[i - 1];
    }
  }

  /** A valid log ascends. */
  lemma {:induction false} ValidAscends(txs: seq<Tx>, lastTxid: nat, lastNext: PageId)
    requires ValidLog(txs, lastTxid, lastNext)
    ensures Ascending(txs) && forall i :: 0 <= i < |txs| ==> lastTxid < txs[i].txid
    decreases |txs|
  {
    hide TxValid;
    if txs != [] {
      ValidAscends(txs[1..], txs[0].txid, txs[0].next);
      assert forall i :: 0 < i < |txs| ==> txs[i] == txs[1..][i - 1];
    }
  }

  /** `recover_if_needed` on the bytes of a log agrees with the step system's recovery. */
  method RecoverIfNeeded(base: Superblock, wal: Bytes, main: MainFile, ghost txs: seq<Tx>, ghost last: Tx, ghost torn: Bytes) returns (r: Outcome)
    requires ValidLog(txs, 0, 0) && wal == Log(txs) + torn
    requires TxEncodable(last) && ImagesVerify(last.images)
    requires torn <= EncodeAll(RecordsOf(last)) && |torn| < |EncodeAll(RecordsOf(last))|
    ensures r == Specified(base, txs, main)
  {
    hide ValidLog, Log, VisitsOf, ImageAt, PutAll, VisitAll, ImageVerifies, EncodeAll, RecordsOf, TxEncodable, ImagesVerify, ScanFrom, WriteAll, Visiting, Ascending;
    ValidAscends(txs, 0, 0);
    if base.root == 0 || base.root >= base.next {
      return Failed;
    }
    var scan := VisitTransactions(wal);
    ScanUndoesAppend(txs, last, torn);
    VisitsCount(txs, 0);
    var visits := scan.visits;
    var recovered := base;
    var latest: seq<Location> := [];
    ghost var locations: seq<Location> := [];
    var k: nat := 0;
    assert Visiting(base, txs, wal, 0, base, [], []) by { VisitingStarts(base, txs, wal); }
    while k < |visits|
      invariant k <= |visits|
      invariant Visiting(base, txs, wal, k, recovered, latest, locations)
    {
      var commit, pages := visits[k].commit, visits[k].pages;
      VisitMatches(txs, wal, torn, k);
      VisitsOn(base, txs, wal, torn, k, recovered, latest, locations);
      if commit.txid > base.txid {
        if commit.next < recovered.next {
          return Failed;
        }
        recovered := recovered.(txid := commit.txid, root := commit.root, next := commit.next);
        latest := PutAll(latest, pages);
        locations := locations + pages;
      }
      k := k + 1;
    }
    assert txs[..k] == txs;
    VisitingDone(base, txs, wal, recovered, latest, locations, main);
    if recovered.txid > base.txid {
      var replay := ReplayLatestPages(wal, main, latest);
      return Done(recovered.(generation := recovered.generation + 1, slot := Other(base.slot)), replay.main);
    }
    return Done(recovered, main);
  }

  lemma {:induction false} VisitingStarts(base: Superblock, txs: seq<Tx>, wal: Bytes)
    ensures Visiting(base, txs, wal, 0, base, [], [])
  {
    assert txs[..0] == [];
    assert ImagesAt(wal, []) == [];
  }

  lemma {:induction false} VisitingDone(base: Superblock, txs: seq<Tx>, wal: Bytes, recovered: Superblock, latest: seq<Location>, locations: seq<Location>, main: MainFile)
    requires Visiting(base, txs, wal, |txs|, recovered, latest, locations)
    ensures VisitAll(Recovered(base, []), base, txs) == Recovered(recovered, ImagesAt(wal, locations))
    ensures recovered.generation == base.generation && recovered.slot == base.slot
    ensures AllVerify(ImagesAt(wal, latest))
    ensures WriteAll(main, ImagesAt(wal, latest)) == WriteAll(main, ImagesAt(wal, locations))
  {
    hide ImageAt, PutAll, VisitAll, ImageVerifies, WriteAll;
    assert txs[..|txs|] == txs;
    LatestEqualsSequential(wal, locations, main);
    assert AllVerify(ImagesAt(wal, []));
    LatestVerify(wal, [], locations);
    SlotKept(Recovered(base, []), base, txs);
  }

  // ---------- the slot that recovery publishes in ----------

  /** Recovery visits nothing, or ends beyond what was published. */
  lemma {:induction false} VisitsGrow(r: Recovery, base: Superblock, txs: seq<Tx>)
    requires r.Recovered? && (r.superblock == base || r.superblock.txid > base.txid)
    ensures var v := VisitAll(r, base, txs); v.Recovered? ==> v.superblock == base || v.superblock.txid > base.txid
    decreases |txs|
  {
    if txs != [] {
      var next := Visit1(r, base, txs[0]);
      if next.Recovered? {
        VisitsGrow(next, base, txs[1..]);
      } else {
        CorruptStays(base, txs[1..]);
      }
    }
  }

  /**
   * What recovery publishes never goes into the slot it has just read: while it is being written,
   * the old superblock is still the one selected, and once it is written it is selected itself.
   */
  lemma {:induction false} PublishesAside(slots: Slots, base: Superblock, txs: seq<Tx>, main: MainFile, sb: Superblock, main': MainFile)
    requires Select(slots) == Some(base) && base.slot < 2 && slots[base.slot] == Some(base)
    requires Specified(base, txs, main) == Done(sb, main') && sb != base
    ensures sb.slot < 2 && Select(slots[sb.slot := None]) == Some(base) && Select(slots[sb.slot := Some(sb)]) == Some(sb)
  {
    hide VisitAll, WriteAll, Ascending;
    VisitsGrow(Recovered(base, []), base, txs);
  }

  /**
   * Recovery from the bytes and the step that loads files agree: the superblock it returns is the
   * one the step then publishes, and the main file it leaves is the one with everything replayed.
   */
  lemma {:induction false} LoadIsSpecified(s: State, s': State)
    requires s.hist != [] && Takes(s, Load, s') && Select(s.slots).Some?
    ensures s'.mode.Replaying? ==> Specified(Select(s.slots).value, s.wal, s.main) == Done(s'.mode.target, s.main + s'.mode.todo)
    ensures s'.mode.Published? ==> Specified(Select(s.slots).value, s.wal, s.main) == Done(s'.mode.target, s.main)
    ensures s'.mode.Replaying? || s'.mode.Published?
  {
    hide VisitAll, WriteAll, Ascending, Adopts;
    var recovery := Recover(Select(s.slots).value, s.wal);
    WriteOver(s.main, recovery.images);
  }

  lemma {:induction false} WriteOver(main: MainFile, images: seq<Image>)
    ensures WriteAll(main, images) == main + WriteAll(map[], images)
  {
    hide WriteAll;
    forall p ensures p in WriteAll(main, images) <==> p in main + WriteAll(map[], images) {
      WriteAllAt(main, images, p);
      WriteAllAt(map[], images, p);
    }
    forall p | p in WriteAll(main, images) ensures WriteAll(main, images)[p] == (main + WriteAll(map[], images))[p] {
      WriteAllAt(main, images, p);
      WriteAllAt(map[], images, p);
    }
  }

  lemma {:induction false} SlotKept(r: Recovery, base: Superblock, txs: seq<Tx>)
    requires r.Recovered? && r.superblock.generation == base.generation && r.superblock.slot == base.slot
    ensures var v := VisitAll(r, base, txs);
            v.Recovered? ==> v.superblock.generation == base.generation && v.superblock.slot == base.slot
    decreases |txs|
  {
    if txs != [] {
      var next := Visit1(r, base, txs[0]);
      if next.Recovered? {
        SlotKept(next, base, txs[1..]);
      } else {
        CorruptStays(base, txs[1..]);
      }
    }
  }
}
