/** Value revisions: an epoch peeked from the commit counter and an ordinal per write. */
module Revisions {
  import opened Pages

  datatype Revision = Revision(epoch: nat, ordinal: nat)

  /** A committed primary write: which write it was, and the transaction that committed it. */
  datatype Committed = Committed(revision: Revision, txid: nat)

  /** An open read-write transaction: its snapshot, its epoch once it writes, and its writes. */
  datatype Writer = Writer(snapshot: nat, epoch: Option<nat>, writes: map<nat, Revision>)

  /** Distinct writes carry distinct revisions. */
  ghost predicate Unique(committed: map<nat, Committed>) {
    forall a, b :: a in committed && b in committed && a != b ==> committed[a].revision != committed[b].revision
  }

  /** No epoch exceeds its commit, and nothing is committed beyond `last`. */
  ghost predicate Settled(committed: map<nat, Committed>, last: nat) {
    forall a :: a in committed ==> committed[a].revision.epoch <= committed[a].txid <= last
  }

  ghost predicate WriterOk(w: Writer, last: nat, next: nat, ordinal: nat) {
    && w.snapshot <= last
    && (w.epoch.Some? ==> w.snapshot < w.epoch.value <= next)
    && (w.writes != map[] ==> w.epoch.Some?)
    && (forall a :: a in w.writes ==> w.writes[a].epoch == w.epoch.value && w.writes[a].ordinal <= ordinal)
    && (forall a, b :: a in w.writes && b in w.writes && a != b ==> w.writes[a].ordinal != w.writes[b].ordinal)
  }

  /** Every write has its own number: no number is committed twice or staged in two places. */
  ghost predicate Numbered(committed: map<nat, Committed>, writers: map<nat, Writer>, pending: Option<(nat, map<nat, Revision>)>, issued: nat) {
    && (forall a :: a in committed ==> a < issued)
    && (forall t, a :: t in writers && a in writers[t].writes ==> a < issued && a !in committed)
    && (forall t, u, a :: t in writers && u in writers && t != u && a in writers[t].writes ==> a !in writers[u].writes)
    && (pending.Some? ==> forall a :: a in pending.value.1 ==> a < issued && a !in committed && forall t :: t in writers ==> a !in writers[t].writes)
  }

  lemma {:induction false} WriterJoins(committed: map<nat, Committed>, writers: map<nat, Writer>, t: nat, txid: nat, issued: nat)
    requires Numbered(committed, writers, None, issued) && t in writers
    ensures Numbered(committed + CommittedBy(writers[t].writes, txid), writers - {t}, None, issued)
    ensures Numbered(committed, writers - {t}, Some((txid, writers[t].writes)), issued)
    ensures Numbered(committed, writers - {t}, None, issued)
    ensures committed.Keys !! writers[t].writes.Keys
  {
    var w, rest := writers[t].writes, writers - {t};
    forall u, a | u in rest && a in rest[u].writes ensures a < issued && a !in committed && a !in w {
    }
    forall u, v, a | u in rest && v in rest && u != v && a in rest[u].writes ensures a !in rest[v].writes {
    }
    assert forall a :: a in committed + CommittedBy(w, txid) <==> a in committed || a in w;
  }

  function CommittedBy(writes: map<nat, Revision>, txid: nat): map<nat, Committed> {
    map a | a in writes :: Committed(writes[a], txid)
  }

  /** Writes whose epoch is newer than every commit join without a clash. */
  lemma {:induction false} JoinKeepsUnique(committed: map<nat, Committed>, writes: map<nat, Revision>, last: nat, txid: nat)
    requires Unique(committed) && Settled(committed, last) && last < txid
    requires forall a :: a in writes ==> last < writes[a].epoch <= txid
    requires forall a, b :: a in writes && b in writes && a != b ==> writes[a] != writes[b]
    ensures Unique(committed + CommittedBy(writes, txid)) && Settled(committed + CommittedBy(writes, txid), txid)
  {
  }

  class RevisionEngine {
    var nextCommitTxid: nat
    var nextOrdinal: nat
    var lastCommitted: nat
    var writers: map<nat, Writer>
    /** A commit whose publication failed: recovery decides about it. */
    var pending: Option<(nat, map<nat, Revision>)>
    /** Numbers the writes, to tell them apart. */
    var issued: nat
    /** Every primary write ever committed, by its number. */
    ghost var committed: map<nat, Committed>

    ghost predicate Valid()
      reads this
    {
      && lastCommitted < nextCommitTxid
      && Unique(committed) && Settled(committed, lastCommitted)
      && (forall t :: t in writers ==> WriterOk(writers[t], lastCommitted, nextCommitTxid, nextOrdinal))
      && Numbered(committed, writers, pending, issued)
      && (pending.Some? ==>
            && lastCommitted < pending.value.0 < nextCommitTxid
            && (forall a :: a in pending.value.1 ==> lastCommitted < pending.value.1[a].epoch <= pending.value.0)
            && (forall a, b :: a in pending.value.1 && b in pending.value.1 && a != b ==> pending.value.1[a] != pending.value.1[b]))
    }

    constructor ()
      ensures Valid() && committed == map[]
    {
      nextCommitTxid, nextOrdinal, lastCommitted, issued := 1, 0, 0, 0;
      writers, pending, committed := map[], None, map[];
    }

    method Begin(t: nat)
      requires Valid() && t !in writers
      modifies this`writers
      ensures Valid() && committed == old(committed) && writers == old(writers)[t := Writer(lastCommitted, None, map[])]
    {
      writers := writers[t := Writer(lastCommitted, None, map[])];
    }

    /** Stages one write: the first fixes the epoch, each takes the next ordinal. */
    method Write(t: nat) returns (id: nat)
      requires Valid() && t in writers
      modifies this`writers, this`nextOrdinal, this`issued
      ensures Valid() && committed == old(committed) && id == old(issued)
      ensures nextOrdinal == old(nextOrdinal) + 1 && issued == old(issued) + 1
      ensures t in writers && writers == old(writers)[t := writers[t]] && writers[t].snapshot == old(writers)[t].snapshot && writers[t].epoch.Some?
      ensures writers[t].epoch == (if old(writers)[t].epoch.Some? then old(writers)[t].epoch else Some(nextCommitTxid))
      ensures writers[t].writes == old(writers)[t].writes[id := Revision(writers[t].epoch.value, old(nextOrdinal) + 1)]
    {
      hide Unique, Settled, WriterOk, Numbered;
      id := issued;
      issued := issued + 1;
      var w := writers[t];
      var epoch := if w.epoch.None? then nextCommitTxid else w.epoch.value;
      nextOrdinal := nextOrdinal + 1;
      var w' := Writer(w.snapshot, Some(epoch), w.writes[id := Revision(epoch, nextOrdinal)]);
      WriteOk(w, w', id, epoch, lastCommitted, nextCommitTxid, nextOrdinal);
      WriteNumbered(committed, writers, pending, id, t, w');
      OrdinalGrows(writers, lastCommitted, nextCommitTxid, nextOrdinal - 1);
      writers := writers[t := w'];
    }

    method Rollback(t: nat)
      requires Valid()
      modifies this`writers
      ensures Valid() && committed == old(committed)
    {
      writers := writers - {t};
    }

    /**
     * Tries to commit. A transaction whose snapshot is not the latest is rejected. Otherwise an
     * id is reserved; planning may fail, publication may fail with an unknown outcome, or the
     * writes are committed.
     */
    method Commit(t: nat, plans: bool, publishes: bool) returns (txid: Option<nat>)
      requires Valid() && t in writers && pending.None?
      modifies this
      ensures Valid() && t !in writers
      ensures old(writers)[t].snapshot != old(lastCommitted) ==> txid.None? && committed == old(committed) && pending.None?
      ensures txid.Some? <==> old(writers)[t].snapshot == old(lastCommitted) && plans && publishes
      ensures txid.Some? ==> txid.value > old(lastCommitted) && lastCommitted == txid.value
                             && committed == old(committed) + CommittedBy(old(writers)[t].writes, txid.value)
      ensures txid.None? ==> committed == old(committed)
    {
      hide Numbered, Unique, Settled, WriterOk;
      var w := writers[t];
      WriterJoins(committed, writers, t, nextCommitTxid, issued);
      WriterFacts(w, lastCommitted, nextCommitTxid, nextOrdinal);
      LaterOk(writers, lastCommitted, nextCommitTxid, nextOrdinal);
      writers := writers - {t};
      if w.snapshot != lastCommitted {
        return None;
      }
      var reserved := nextCommitTxid;
      nextCommitTxid := nextCommitTxid + 1;
      if !plans {
        return None;
      }
      if !publishes {
        pending := Some((reserved, w.writes));
        return None;
      }
      JoinKeepsUnique(committed, w.writes, lastCommitted, reserved);
      committed := committed + CommittedBy(w.writes, reserved);
      lastCommitted := reserved;
      return Some(reserved);
    }

    /**
     * Replaces everything by a snapshot: all its rows get this commit's id as epoch. Like any
     * commit, planning it may fail, and publishing it may fail with an unknown outcome.
     */
    method Import(count: nat, minimum: nat, plans: bool, publishes: bool) returns (txid: Option<nat>)
      requires Valid() && pending.None?
      modifies this
      ensures Valid() && writers == old(writers) && (txid.Some? <==> plans && publishes)
      ensures txid.Some? ==> txid.value >= minimum && txid.value > old(lastCommitted) && lastCommitted == txid.value && pending.None?
      ensures txid.Some? ==> committed == old(committed) + CommittedBy(ImportedRevisions(old(issued), count, txid.value), txid.value)
      ensures txid.None? ==> committed == old(committed) && lastCommitted == old(lastCommitted)
      ensures pending.Some? ==> plans && pending.value.0 >= minimum && pending.value.1 == ImportedRevisions(old(issued), count, pending.value.0)
    {
      hide Unique, Settled, WriterOk, Numbered, ImportedRevisions, CommittedBy;
      var reserved := if nextCommitTxid >= minimum then nextCommitTxid else minimum;
      nextCommitTxid := reserved + 1;
      StillOk(writers, lastCommitted, old(nextCommitTxid), reserved, nextOrdinal);
      if !plans {
        return None;
      }
      var writes := ImportRows(issued, count, reserved);
      ImportedFacts(issued, count, reserved);
      ImportJoins(committed, writers, issued, count, writes, reserved);
      issued := issued + count;
      if !publishes {
        pending := Some((reserved, writes));
        return None;
      }
      JoinKeepsUnique(committed, writes, lastCommitted, reserved);
      committed := committed + CommittedBy(writes, reserved);
      lastCommitted := reserved;
      return Some(reserved);
    }

    /** Recovery or reopening: transactions are gone, counters restart after the last commit. */
    method Reload(pendingSurvived: bool)
      requires Valid()
      modifies this
      ensures Valid() && writers == map[] && pending.None? && nextOrdinal == 0 && nextCommitTxid == lastCommitted + 1
      ensures committed == if pendingSurvived && old(pending).Some? then old(committed) + CommittedBy(old(pending).value.1, old(pending).value.0) else old(committed)
    {
      if pendingSurvived && pending.Some? {
        JoinKeepsUnique(committed, pending.value.1, lastCommitted, pending.value.0);
        committed := committed + CommittedBy(pending.value.1, pending.value.0);
        lastCommitted := pending.value.0;
      }
      writers, pending := map[], None;
      nextCommitTxid, nextOrdinal := lastCommitted + 1, 0;
    }
  }

  /** One revision per imported row, in order. */
  function ImportedRevisions(base: nat, count: nat, txid: nat): (writes: map<nat, Revision>)
    ensures forall a :: a in writes <==> base <= a < base + count
    ensures forall a :: a in writes ==> writes[a] == Revision(txid, a - base + 1)
  {
    if count == 0 then map[] else ImportedRevisions(base, count - 1, txid)[base + count - 1 := Revision(txid, count)]
  }

  method ImportRows(base: nat, count: nat, txid: nat) returns (writes: map<nat, Revision>)
    ensures writes == ImportedRevisions(base, count, txid)
  {
    writes := map[];
    var ordinal: nat := 0;
    while ordinal < count
      invariant ordinal <= count
      invariant writes == ImportedRevisions(base, ordinal, txid)
    {
      assert ImportedRevisions(base, ordinal + 1, txid) == ImportedRevisions(base, ordinal, txid)[base + ordinal := Revision(txid, ordinal + 1)];
      writes := writes[base + ordinal := Revision(txid, ordinal + 1)];
      ordinal := ordinal + 1;
    }
  }

  lemma {:induction false} ImportedFacts(base: nat, count: nat, txid: nat)
    ensures var writes := ImportedRevisions(base, count, txid);
            && (forall a :: a in writes ==> writes[a].epoch == txid)
            && forall a, b :: a in writes && b in writes && a != b ==> writes[a] != writes[b]
  {
  }

  lemma {:induction false} ImportJoins(committed: map<nat, Committed>, writers: map<nat, Writer>, issued: nat, count: nat, writes: map<nat, Revision>, txid: nat)
    requires Numbered(committed, writers, None, issued) && writes == ImportedRevisions(issued, count, txid)
    ensures Numbered(committed + CommittedBy(writes, txid), writers, None, issued + count)
    ensures Numbered(committed, writers, Some((txid, writes)), issued + count)
    ensures forall a :: a in committed ==> a !in writes
  {
  }

  /** A fresh number for one more staged write. */
  lemma {:induction false} WriteNumbered(committed: map<nat, Committed>, writers: map<nat, Writer>, pending: Option<(nat, map<nat, Revision>)>, issued: nat, t: nat, w: Writer)
    requires Numbered(committed, writers, pending, issued) && t in writers
    requires forall a :: a in w.writes ==> a == issued || a in writers[t].writes
    ensures Numbered(committed, writers[t := w], pending, issued + 1)
  {
  }

  lemma {:induction false} WriterFacts(w: Writer, last: nat, next: nat, ordinal: nat)
    requires WriterOk(w, last, next, ordinal) && last < next
    ensures w.snapshot == last ==> forall a :: a in w.writes ==> last < w.writes[a].epoch <= next
    ensures forall a, b :: a in w.writes && b in w.writes && a != b ==> w.writes[a] != w.writes[b]
  {
  }

  /** Open transactions stay in order when a commit takes an id at or after the next one. */
  lemma {:induction false} LaterOk(writers: map<nat, Writer>, last: nat, next: nat, ordinal: nat)
    requires last < next && forall t :: t in writers ==> WriterOk(writers[t], last, next, ordinal)
    ensures forall t :: t in writers ==> WriterOk(writers[t], last, next + 1, ordinal) && WriterOk(writers[t], next, next + 1, ordinal)
  {
  }

  lemma {:induction false} OrdinalGrows(writers: map<nat, Writer>, last: nat, next: nat, ordinal: nat)
    requires forall t :: t in writers ==> WriterOk(writers[t], last, next, ordinal)
    ensures forall t :: t in writers ==> WriterOk(writers[t], last, next, ordinal + 1)
  {
  }

  lemma {:induction false} StillOk(writers: map<nat, Writer>, last: nat, next: nat, txid: nat, ordinal: nat)
    requires last < next <= txid && forall t :: t in writers ==> WriterOk(writers[t], last, next, ordinal)
    ensures forall t :: t in writers ==> WriterOk(writers[t], last, txid + 1, ordinal) && WriterOk(writers[t], txid, txid + 1, ordinal)
  {
  }

  lemma {:induction false} WriteOk(w: Writer, w': Writer, id: nat, epoch: nat, last: nat, next: nat, ordinal: nat)
    requires ordinal > 0 && WriterOk(w, last, next, ordinal - 1) && last < next
    requires epoch == if w.epoch.None? then next else w.epoch.value
    requires w' == Writer(w.snapshot, Some(epoch), w.writes[id := Revision(epoch, ordinal)])
    ensures WriterOk(w', last, next, ordinal)
  {
  }
}
