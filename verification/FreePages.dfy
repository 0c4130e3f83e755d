/** The pool of page ids that commits gave up, kept back while a snapshot may still read them. */
module FreePages {
  import opened Pages

  datatype DirtyImage = DirtyImage(page: PageId, generation: nat)

  /** Pages one commit stopped using, and the staged images they had. */
  datatype Batch = Batch(txid: nat, pages: seq<PageId>, dirty: seq<DirtyImage>)

  datatype Pool = Pool(ready: seq<PageId>, retired: seq<Batch>)

  /** How many leading batches no snapshot at or after `oldest` can reach. */
  function Ripe(retired: seq<Batch>, oldest: nat): (n: nat)
    ensures n <= |retired|
    ensures forall i :: 0 <= i < n ==> retired[i].txid <= oldest
    ensures n < |retired| ==> retired[n].txid > oldest
  {
    if retired == [] || retired[0].txid > oldest then 0 else 1 + Ripe(retired[1..], oldest)
  }

  function PagesIn(batches: seq<Batch>): seq<PageId> {
    if batches == [] then [] else batches[0].pages + PagesIn(batches[1..])
  }

  function DirtyIn(batches: seq<Batch>): seq<DirtyImage> {
    if batches == [] then [] else batches[0].dirty + DirtyIn(batches[1..])
  }

  function Promoted(pool: Pool, oldest: nat): Pool {
    var n := Ripe(pool.retired, oldest);
    Pool(pool.ready + PagesIn(pool.retired[..n]), pool.retired[n..])
  }

  lemma {:induction false} PagesInSnoc(batches: seq<Batch>, b: Batch)
    ensures PagesIn(batches + [b]) == PagesIn(batches) + b.pages
    ensures DirtyIn(batches + [b]) == DirtyIn(batches) + b.dirty
    decreases |batches|
  {
    if batches == [] {
      assert batches + [b] == [b];
      assert PagesIn([b]) == b.pages + PagesIn([]) && DirtyIn([b]) == b.dirty + DirtyIn([]);
    } else {
      assert (batches + [b])[1..] == batches[1..] + [b];
      PagesInSnoc(batches[1..], b);
    }
  }

  lemma {:induction false} RipeIs(retired: seq<Batch>, oldest: nat, n: nat)
    requires n <= |retired| && (forall i :: 0 <= i < n ==> retired[i].txid <= oldest)
    requires n < |retired| ==> retired[n].txid > oldest
    ensures Ripe(retired, oldest) == n
  {
  }

  /** The pool as the engine holds it. */
  class FreePagePool {
    var ready: seq<PageId>
    var retired: seq<Batch>

    function Contents(): Pool
      reads this
    {
      Pool(ready, retired)
    }

    constructor ()
      ensures Contents() == Pool([], [])
    {
      ready, retired := [], [];
    }

    /** Makes every ripe batch available, and names the staged images to drop. */
    method Promote(oldest: nat) returns (discarded: seq<DirtyImage>)
      modifies this
      ensures Contents() == Promoted(old(Contents()), oldest)
      ensures discarded == DirtyIn(old(retired)[..Ripe(old(retired), oldest)])
    {
      discarded := [];
      ghost var n: nat := 0;
      ghost var before := retired;
      assert before[..0] == [];
      while retired != [] && retired[0].txid <= oldest
        invariant n <= |before| && retired == before[n..]
        invariant forall i :: 0 <= i < n ==> before[i].txid <= oldest
        invariant ready == old(ready) + PagesIn(before[..n])
        invariant discarded == DirtyIn(before[..n])
        decreases |retired|
      {
        var batch := retired[0];
        assert before[..n + 1] == before[..n] + [batch];
        PagesInSnoc(before[..n], batch);
        retired := retired[1..];
        discarded := discarded + batch.dirty;
        ready := ready + batch.pages;
        n := n + 1;
      }
      RipeIs(before, oldest, n);
    }

    method TakeReady() returns (pages: seq<PageId>)
      modifies this
      ensures pages == old(ready) && Contents() == Pool([], old(retired))
    {
      pages := ready;
      ready := [];
    }

    method Restore(pages: seq<PageId>)
      modifies this
      ensures Contents() == Pool(old(ready) + pages, old(retired))
    {
      ready := ready + pages;
    }

    method Retire(txid: nat, pages: seq<PageId>, dirty: seq<DirtyImage>)
      modifies this
      ensures Contents() == Retiring(old(Contents()), txid, pages, dirty)
    {
      if pages != [] {
        retired := retired + [Batch(txid, pages, dirty)];
      }
    }

    method Clear()
      modifies this
      ensures Contents() == Pool([], [])
    {
      ready, retired := [], [];
    }
  }

  function Retiring(pool: Pool, txid: nat, pages: seq<PageId>, dirty: seq<DirtyImage>): Pool {
    if pages == [] then pool else Pool(pool.ready, pool.retired + [Batch(txid, pages, dirty)])
  }
}
