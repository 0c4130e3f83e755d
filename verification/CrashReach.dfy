/** Whatever commits may follow one another, a run makes them. */
module CrashReach {
  import opened Keys
  import opened Pages
  import opened WalScan
  import opened WalReplay
  import opened History
  import opened Crash
  import opened CrashRuns
  import opened CrashReopen

  /** The engine once a commit has gone through. */
  function Acknowledging(s: State, c: Commit): State {
    s.(wal := s.wal + [c.tx], durableWal := s.wal + [c.tx], durableStart := s.start, torn := false,
       hist := s.hist + [c], pending := None, walDurableTxid := c.tx.txid,
       dirty := WriteAll(s.dirty, c.tx.images), acked := |s.hist| + 1,
       memory := s.memory.(txid := c.tx.txid, root := c.tx.root, next := c.tx.next))
  }

  lemma {:induction false} LogsBodies(r: Run, c: Commit) returns (r': Run)
    requires Stepwise(r) && Final(r).mode.Healthy? && Final(r).hist != [] && Extends(Final(r).hist, c)
    requires forall p :: p in c.bodies ==> p in Final(r).main && Final(r).main[p] == c.bodies[p] && p !in Final(r).loose
    ensures Stepwise(r') && r.states <= r'.states
    ensures var s := Final(r);
            Final(r') == s.(wal := s.wal + [c.tx], durableWal := s.wal + [c.tx], durableStart := s.start, torn := false,
                            hist := s.hist + [c], pending := None, walDurableTxid := c.tx.txid, mode := Logged(c))
  {
    hide Extends;
    var s := Final(r);
    var r1 := Longer(r, BeginAppend(c), s.(mode := Appending(c), pending := Some(c), torn := true));
    var r2 := Longer(r1, CompleteAppend, s.(mode := LogWritten(c), pending := Some(c), torn := false, wal := s.wal + [c.tx]));
    r' := Longer(r2, FlushAppend, s.(wal := s.wal + [c.tx], durableWal := s.wal + [c.tx], durableStart := s.start, torn := false,
                                     hist := s.hist + [c], pending := None, walDurableTxid := c.tx.txid, mode := Logged(c)));
  }

  /** A commit whose bodies are in place goes through. */
  lemma {:induction false} CommitsBodies(r: Run, c: Commit) returns (r': Run)
    requires Stepwise(r) && Final(r).mode.Healthy? && Final(r).hist != [] && Extends(Final(r).hist, c)
    requires forall p :: p in c.bodies ==> p in Final(r).main && Final(r).main[p] == c.bodies[p] && p !in Final(r).loose
    ensures Stepwise(r') && r.states <= r'.states && Final(r') == Acknowledging(Final(r), c)
  {
    hide Extends, WriteAll;
    var s := Final(r);
    var r1 := LogsBodies(r, c);
    r' := Longer(r1, Stage, Acknowledging(s, c));
  }

  lemma {:induction false} TakesWriteBody(s: State, p: PageId, bytes: Bytes)
    requires s.mode.Healthy? && s.hist != [] && !InUse(s, p)
    ensures Takes(s, WriteBody(p, bytes), s.(main := s.main[p := bytes], loose := s.loose + {p}))
  {
    hide InUse;
  }

  lemma {:induction false} TakesFlushBodies(s: State)
    requires s.mode.Healthy? && s.hist != []
    ensures Takes(s, FlushBodies, s.(loose := {}))
  {
  }

  /** Bodies go to the main file one by one. */
  lemma {:induction false} WritesBodies(r: Run, bodies: MainFile) returns (r': Run)
    requires Stepwise(r) && Final(r).mode.Healthy? && Final(r).hist != [] && forall p :: p in bodies ==> !InUse(Final(r), p)
    ensures Stepwise(r') && r.states <= r'.states
    ensures Final(r') == Final(r).(main := Final(r).main + bodies, loose := Final(r').loose)
    decreases |bodies|
  {
    hide InUse, Takes;
    var s := Final(r);
    if bodies == map[] {
      r' := r;
      assert s.main + bodies == s.main;
    } else {
      var p :| p in bodies;
      var rest := bodies - {p};
      FewerBodies(bodies, p);
      var t := s.(main := s.main[p := bodies[p]], loose := s.loose + {p});
      TakesWriteBody(s, p, bodies[p]);
      var r1 := Longer(r, WriteBody(p, bodies[p]), t);
      SameUse(s, t);
      r' := WritesBodies(r1, rest);
      WriteFirst(s.main, bodies, p);
    }
  }

  lemma {:induction false} FewerBodies(bodies: MainFile, p: PageId)
    requires p in bodies
    ensures |bodies - {p}| < |bodies| && forall q :: q in bodies - {p} ==> q in bodies
  {
    assert (bodies - {p}).Keys == bodies.Keys - {p};
    assert |(bodies - {p}).Keys| < |bodies.Keys|;
  }

  lemma {:induction false} WriteFirst(main: MainFile, bodies: MainFile, p: PageId)
    requires p in bodies
    ensures main[p := bodies[p]] + (bodies - {p}) == main + bodies
  {
  }

  lemma {:induction false} SameUse(s: State, t: State)
    requires s.hist != [] && t.hist == s.hist
    ensures forall q :: InUse(t, q) <==> InUse(s, q)
  {
  }

  lemma {:induction false} BodiesUnused(s: State, c: Commit)
    requires s.hist != [] && Extends(s.hist, c)
    ensures forall p :: p in c.bodies ==> !InUse(s, p)
  {
    hide TxValid, Touches;
  }

  /** A commit from its first body to its acknowledgement. */
  lemma {:induction false} CommitsWhole(r: Run, c: Commit) returns (r': Run)
    requires Stepwise(r) && Final(r).mode.Healthy? && Final(r).hist != [] && Extends(Final(r).hist, c)
    ensures Stepwise(r') && r.states <= r'.states
    ensures Final(r').mode.Healthy? && Final(r').hist == Final(r).hist + [c] && Final(r').acked == |Final(r').hist|
  {
    hide Extends, WriteAll, InUse, Takes;
    BodiesUnused(Final(r), c);
    var r1 := WritesBodies(r, c.bodies);
    var t := Final(r1).(loose := {});
    TakesFlushBodies(Final(r1));
    var r2 := Longer(r1, FlushBodies, t);
    r' := CommitsBodies(r2, c);
  }

  /**
   * Every valid history of a new database is that of a run in which each of its commits, bodies
   * included, goes through and is acknowledged.
   */
  lemma {:induction false} EveryHistoryIsReached(start: State, h: Chronicle) returns (r: Run)
    requires Valid(h) && Init(start) && start.hist == h[..1]
    ensures Stepwise(r) && r.states[0] == start && Final(r).mode.Healthy? && Final(r).hist == h
    ensures |h| > 1 ==> Final(r).acked == |h|
    decreases |h|
  {
    hide Valid, Init, Extends;
    var n := |h| - 1;
    if n <= 0 {
      OnlyStart(start, h);
      r := Starting(start);
    } else {
      ValidPrefix(h, n);
      LastExtends(h);
      assert h[..n][..1] == h[..1];
      var r0 := EveryHistoryIsReached(start, h[..n]);
      r := CommitsWhole(r0, h[n]);
      assert h[..n] + [h[n]] == h;
    }
  }

  lemma {:induction false} OnlyStart(start: State, h: Chronicle)
    requires Valid(h) && |h| <= 1 && Init(start) && start.hist == h[..1]
    ensures start.mode.Healthy? && start.hist == h
  {
    hide Content;
    assert h[..|h|] == h;
  }

  lemma {:induction false} LastExtends(h: Chronicle)
    requires Valid(h) && |h| > 1
    ensures Extends(h[..|h| - 1], h[|h| - 1])
  {
    hide Content, Extends;
  }
}
