/** Change records: what a commit logs, and what replaying the log gives back. */
module ChangeLog {
  import opened Keys
  import opened Numbers
  import opened Pages

  type Store = string

  /** User data: the rows of every store. */
  type Data = map<Store, map<Key, Bytes>>

  datatype Kind = PutChange | DeleteChange | ClearChange | DropChange

  datatype Change = Change(store: Store, key: Key, kind: Kind, value: Bytes)

  /** A staged write: a new value, or none to delete. */
  datatype Write = Write(key: Key, value: Option<Bytes>)

  /** What a transaction staged for one store. */
  datatype Stage = Stage(name: Store, hasBase: bool, created: bool, dropped: bool, cleared: bool, writes: seq<Write>)

  // ---------- data ----------

  function Rows(d: Data, s: Store): map<Key, Bytes> {
    if s in d then d[s] else map[]
  }

  /** Equal rows in every store; an empty store is like no store. */
  ghost predicate Same(a: Data, b: Data) {
    forall s :: Rows(a, s) == Rows(b, s)
  }

  function Written(rows: map<Key, Bytes>, writes: seq<Write>): map<Key, Bytes>
    decreases |writes|
  {
    if writes == [] then rows
    else
      var w := writes[0];
      Written(if w.value.Some? then rows[w.key := w.value.value] else rows - {w.key}, writes[1..])
  }

  /** The effect of one staged store on the data. */
  function ApplyStage(d: Data, st: Stage): Data {
    if st.dropped then d - {st.name}
    else d[st.name := Written(if st.created || st.cleared then map[] else Rows(d, st.name), st.writes)]
  }

  function ApplyStages(d: Data, stages: seq<Stage>): Data
    decreases |stages|
  {
    if stages == [] then d else ApplyStages(ApplyStage(d, stages[0]), stages[1..])
  }

  /** A stage is created for a missing store, or opened on an existing one. */
  ghost predicate StageOk(d: Data, st: Stage) {
    && (st.hasBase <==> st.name in d)
    && (st.created <==> !st.hasBase)
    && forall i, j :: 0 <= i < j < |st.writes| ==> st.writes[i].key != st.writes[j].key
  }

  ghost predicate StagesOk(d: Data, stages: seq<Stage>) {
    && (forall i :: 0 <= i < |stages| ==> StageOk(d, stages[i]))
    && (forall i, j :: 0 <= i < j < |stages| ==> stages[i].name != stages[j].name)
  }

  // ---------- what is logged ----------

  /** Put records for every put; delete records only for rows that are there. */
  function WriteChange(st: Stage, base: map<Key, Bytes>, w: Write): seq<Change> {
    if w.value.Some? then [Change(st.name, w.key, PutChange, w.value.value)]
    else if st.cleared || st.created || w.key !in base then []
    else [Change(st.name, w.key, DeleteChange, [])]
  }

  function WriteChanges(st: Stage, base: map<Key, Bytes>, writes: seq<Write>): seq<Change>
    decreases |writes|
  {
    if writes == [] then [] else WriteChange(st, base, writes[0]) + WriteChanges(st, base, writes[1..])
  }

  function ChangesOf(d: Data, st: Stage): seq<Change> {
    if st.dropped then (if st.hasBase && !st.created then [Change(st.name, [], DropChange, [])] else [])
    else
      (if st.cleared && st.hasBase then [Change(st.name, [], ClearChange, [])] else [])
      + WriteChanges(st, Rows(d, st.name), st.writes)
  }

  function AllChanges(d: Data, stages: seq<Stage>): seq<Change>
    decreases |stages|
  {
    if stages == [] then [] else ChangesOf(d, stages[0]) + AllChanges(d, stages[1..])
  }

  // ---------- replaying ----------

  function Replay(d: Data, c: Change): Data {
    match c.kind
    case PutChange => d[c.store := Rows(d, c.store)[c.key := c.value]]
    case DeleteChange => d[c.store := Rows(d, c.store) - {c.key}]
    case ClearChange => d[c.store := map[]]
    case DropChange => d - {c.store}
  }

  function ReplayAll(d: Data, cs: seq<Change>): Data
    decreases |cs|
  {
    if cs == [] then d else ReplayAll(Replay(d, cs[0]), cs[1..])
  }

  lemma {:induction false} ReplayAppend(d: Data, a: seq<Change>, b: seq<Change>)
    ensures ReplayAll(d, a + b) == ReplayAll(ReplayAll(d, a), b)
    decreases |a|
  {
    hide Replay;
    if a == [] {
      assert a + b == b;
    } else {
      assert (a + b)[1..] == a[1..] + b;
      ReplayAppend(Replay(d, a[0]), a[1..], b);
    }
  }

  lemma {:induction false} ReplaySame(a: Data, b: Data, c: Change)
    requires Same(a, b)
    ensures Same(Replay(a, c), Replay(b, c))
  {
    assert Rows(a, c.store) == Rows(b, c.store);
    forall s ensures Rows(Replay(a, c), s) == Rows(Replay(b, c), s) {
      assert Rows(a, s) == Rows(b, s);
    }
  }

  lemma {:induction false} ReplayAllSame(a: Data, b: Data, cs: seq<Change>)
    requires Same(a, b)
    ensures Same(ReplayAll(a, cs), ReplayAll(b, cs))
    decreases |cs|
  {
    hide Replay, Same;
    if cs != [] {
      ReplaySame(a, b, cs[0]);
      ReplayAllSame(Replay(a, cs[0]), Replay(b, cs[0]), cs[1..]);
    }
  }

  /** Changes of one store leave the others alone. */
  lemma {:induction false} WritesReplay(d: Data, st: Stage, base: map<Key, Bytes>, writes: seq<Write>, rows: map<Key, Bytes>)
    requires Rows(d, st.name) == rows
    requires forall k :: k in rows ==> k in base || (exists w :: w in st.writes && w.key == k && w !in writes) || st.cleared || st.created
    requires forall i, j :: 0 <= i < j < |writes| ==> writes[i].key != writes[j].key
    requires forall w :: w in writes ==> w in st.writes
    requires forall v, w :: v in st.writes && w in st.writes && v.key == w.key ==> v == w
    requires st.cleared || st.created ==> forall w :: w in writes ==> w.key !in rows
    ensures var after := ReplayAll(d, WriteChanges(st, base, writes));
            Rows(after, st.name) == Written(rows, writes) && forall s :: s != st.name ==> Rows(after, s) == Rows(d, s)
    decreases |writes|
  {
    if writes != [] {
      var w, rest := writes[0], writes[1..];
      var step := WriteChange(st, base, w);
      var rows' := if w.value.Some? then rows[w.key := w.value.value] else rows - {w.key};
      ReplayAppend(d, step, WriteChanges(st, base, rest));
      var d' := ReplayAll(d, step);
      OneWriteReplays(d, st, base, w, rows, writes);
      assert forall v :: v in rest ==> v in writes;
      assert w !in rest;
      forall k | k in rows' ensures k in base || (exists v :: v in st.writes && v.key == k && v !in rest) || st.cleared || st.created {
        if k == w.key {
          assert w in st.writes && w !in rest;
        } else if k in rows && !(k in base) && !st.cleared && !st.created {
          var v :| v in st.writes && v.key == k && v !in writes;
          assert v !in rest;
        }
      }
      WritesReplay(d', st, base, rest, rows');
    }
  }

  lemma {:induction false} OneWriteReplays(d: Data, st: Stage, base: map<Key, Bytes>, w: Write, rows: map<Key, Bytes>, writes: seq<Write>)
    requires Rows(d, st.name) == rows && w in writes && w in st.writes
    requires forall k :: k in rows ==> k in base || (exists v :: v in st.writes && v.key == k && v !in writes) || st.cleared || st.created
    requires forall u, v :: u in st.writes && v in st.writes && u.key == v.key ==> u == v
    requires st.cleared || st.created ==> w.key !in rows
    ensures var after := ReplayAll(d, WriteChange(st, base, w));
            && Rows(after, st.name) == (if w.value.Some? then rows[w.key := w.value.value] else rows - {w.key})
            && forall s :: s != st.name ==> Rows(after, s) == Rows(d, s)
  {
    var step := WriteChange(st, base, w);
    if step == [] {
      assert w.key !in rows;
      assert rows - {w.key} == rows;
    } else {
      assert step[1..] == [];
      assert ReplayAll(d, step) == Replay(d, step[0]);
    }
  }

  lemma {:induction false} StageWritesUnique(st: Stage)
    requires forall i, j :: 0 <= i < j < |st.writes| ==> st.writes[i].key != st.writes[j].key
    ensures forall v, w :: v in st.writes && w in st.writes && v.key == w.key ==> v == w
  {
  }

  /** Replaying what a stage logs is applying the stage. */
  lemma {:induction false} StageReplays(d: Data, st: Stage)
    requires StageOk(d, st)
    ensures Same(ReplayAll(d, ChangesOf(d, st)), ApplyStage(d, st))
  {
    var changes := ChangesOf(d, st);
    if st.dropped {
      if st.hasBase {
        assert changes[1..] == [];
        assert ReplayAll(d, changes) == Replay(d, changes[0]);
      } else {
        assert d - {st.name} == d;
      }
    } else {
      StageWritesUnique(st);
      var head := if st.cleared && st.hasBase then [Change(st.name, [], ClearChange, [])] else [];
      var base := Rows(d, st.name);
      ReplayAppend(d, head, WriteChanges(st, base, st.writes));
      var d' := ReplayAll(d, head);
      var rows := if st.created || st.cleared then map[] else base;
      assert Rows(d', st.name) == rows && forall s :: s != st.name ==> Rows(d', s) == Rows(d, s) by {
        HeadReplays(d, st);
      }
      WritesReplay(d', st, base, st.writes, rows);
    }
  }

  lemma {:induction false} HeadReplays(d: Data, st: Stage)
    requires StageOk(d, st)
    ensures var d' := ReplayAll(d, if st.cleared && st.hasBase then [Change(st.name, [], ClearChange, [])] else []);
            && Rows(d', st.name) == (if st.created || st.cleared then map[] else Rows(d, st.name))
            && forall s :: s != st.name ==> Rows(d', s) == Rows(d, s)
  {
    if st.cleared && st.hasBase {
      var c := Change(st.name, [], ClearChange, []);
      assert [c][1..] == [];
      assert ReplayAll(d, [c]) == Replay(d, c);
    }
  }

  lemma {:induction false} OtherStagesUnaffected(d: Data, st: Stage, other: Stage)
    requires other.name != st.name
    ensures StageOk(d, other) ==> StageOk(ApplyStage(d, st), other)
    ensures ChangesOf(ApplyStage(d, st), other) == ChangesOf(d, other)
  {
    assert Rows(ApplyStage(d, st), other.name) == Rows(d, other.name);
  }

  lemma {:induction false} AllChangesUnaffected(d: Data, st: Stage, stages: seq<Stage>)
    requires forall i :: 0 <= i < |stages| ==> stages[i].name != st.name
    ensures AllChanges(ApplyStage(d, st), stages) == AllChanges(d, stages)
    decreases |stages|
  {
    hide ApplyStage, ChangesOf;
    if stages != [] {
      OtherStagesUnaffected(d, st, stages[0]);
      AllChangesUnaffected(d, st, stages[1..]);
    }
  }

  /** Replaying a commit's change records gives the committed data. */
  lemma {:induction false} CommitReplays(d: Data, stages: seq<Stage>)
    requires StagesOk(d, stages)
    ensures Same(ReplayAll(d, AllChanges(d, stages)), ApplyStages(d, stages))
    decreases |stages|
  {
    hide ApplyStage, ChangesOf, Replay, StageOk, Same;
    if stages == [] {
      assert Same(d, d) by { Reflexive(d); }
    } else {
      var st, rest := stages[0], stages[1..];
      StageReplays(d, st);
      var d' := ApplyStage(d, st);
      forall i | 0 <= i < |rest| ensures StageOk(d', rest[i]) {
        assert rest[i] == stages[i + 1];
        OtherStagesUnaffected(d, st, rest[i]);
      }
      CommitReplays(d', rest);
      AllChangesUnaffected(d, st, rest);
      ReplayAppend(d, ChangesOf(d, st), AllChanges(d, rest));
      ReplayAllSame(ReplayAll(d, ChangesOf(d, st)), d', AllChanges(d, rest));
      SameTransitive(ReplayAll(d, AllChanges(d, stages)), ReplayAll(d', AllChanges(d, rest)), ApplyStages(d, stages));
    }
  }

  lemma {:induction false} Reflexive(d: Data)
    ensures Same(d, d)
  {
  }

  lemma {:induction false} SameTransitive(a: Data, b: Data, c: Data)
    requires Same(a, b) && Same(b, c)
    ensures Same(a, c)
  {
    forall s ensures Rows(a, s) == Rows(c, s) {
      assert Rows(a, s) == Rows(b, s) && Rows(b, s) == Rows(c, s);
    }
  }

  // ---------- log keys ----------

  function LogKey(txid: nat, sequence: nat): Bytes {
    Be(txid, 8) + Be(sequence, 4)
  }

  /** Log keys sort by transaction, then by position in it. */
  lemma {:induction false} LogKeyOrder(t1: nat, s1: nat, t2: nat, s2: nat)
    requires t1 < U64 && t2 < U64 && s1 < U32 && s2 < U32
    ensures Less(LogKey(t1, s1), LogKey(t2, s2)) <==> t1 < t2 || (t1 == t2 && s1 < s2)
  {
    hide Be, Less;
    Ranges();
    BeOrder(t1, t2, 8);
    BeOrder(s1, s2, 4);
    LessAppend(Be(t1, 8), Be(t2, 8), Be(s1, 4), Be(s2, 4));
  }

  /** A scan after the cursor's key sees exactly the later transactions. */
  lemma {:induction false} AfterTxidKey(cursor: nat, txid: nat, sequence: nat)
    requires cursor < U64 && txid < U64 && sequence < U32
    ensures Less(LogKey(cursor, U32 - 1), LogKey(txid, sequence)) <==> cursor < txid
  {
    LogKeyOrder(cursor, U32 - 1, txid, sequence);
  }

  /** A scan below the bound sees exactly the transactions up to the target. */
  lemma {:induction false} BelowTargetKey(target: nat, txid: nat, sequence: nat)
    requires target + 1 < U64 && txid < U64 && sequence < U32
    ensures Less(LogKey(txid, sequence), LogKey(target + 1, 0)) <==> txid <= target
  {
    LogKeyOrder(txid, sequence, target + 1, 0);
  }
}
