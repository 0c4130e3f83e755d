/** Page ids for one commit, and overflow chains written with them. */
module Allocator {
  import opened Keys
  import opened Pages

  datatype Error =
    | Corruption
    | UnsortedMutations
    | PageOverflow
    | HeightLimit
    | ValueTooLarge
    | EmptyValue

  datatype Result<+T> = Ok(value: T) | Err(error: Error) {
    predicate IsFailure() { Err? }
    function PropagateFailure<U>(): Result<U> requires Err? { Err(error) }
    function Extract(): T requires Ok? { value }
  }

  predicate Descending(s: seq<PageId>) {
    forall i, j :: 0 <= i < j < |s| ==> s[i] >= s[j]
  }

  function InsertDescending(x: PageId, s: seq<PageId>): (r: seq<PageId>)
    ensures multiset(r) == multiset(s) + multiset{x}
  {
    if s == [] || s[0] <= x then [x] + s
    else
      assert s == [s[0]] + s[1..];
      [s[0]] + InsertDescending(x, s[1..])
  }

  function SortDescending(s: seq<PageId>): (r: seq<PageId>)
    ensures multiset(r) == multiset(s)
  {
    if s == [] then []
    else
      assert s == [s[0]] + s[1..];
      InsertDescending(s[0], SortDescending(s[1..]))
  }

  lemma {:induction false} InsertOrder(x: PageId, s: seq<PageId>)
    requires Descending(s)
    ensures Descending(InsertDescending(x, s)) && forall i :: 0 <= i < |InsertDescending(x, s)| ==> InsertDescending(x, s)[i] == x || InsertDescending(x, s)[i] in s
    decreases |s|
  {
    if s != [] && s[0] > x {
      InsertOrder(x, s[1..]);
    }
  }

  lemma {:induction false} SortOrder(s: seq<PageId>)
    ensures Descending(SortDescending(s))
    decreases |s|
  {
    if s != [] {
      SortOrder(s[1..]);
      InsertOrder(s[0], SortDescending(s[1..]));
    }
  }

  lemma {:induction false} DistinctBySum(s: seq<PageId>, r: seq<PageId>)
    requires multiset(s) == multiset(r)
    requires forall i, j :: 0 <= i < j < |s| ==> s[i] != s[j]
    ensures forall i, j :: 0 <= i < j < |r| ==> r[i] != r[j]
    ensures forall x :: x in s <==> x in r
  {
    forall x ensures x in s <==> x in r {
      assert x in multiset(s) <==> x in multiset(r);
    }
    forall i, j | 0 <= i < j < |r| ensures r[i] != r[j] {
      if r[i] == r[j] {
        var x := r[i];
        Twice(r, i, j);
        assert multiset(s)[x] >= 2;
        AtMostOnce(s, x);
      }
    }
  }

  lemma {:induction false} Twice(r: seq<PageId>, i: nat, j: nat)
    requires i < j < |r| && r[i] == r[j]
    ensures multiset(r)[r[i]] >= 2
  {
    assert r == r[..j] + [r[j]] + r[j + 1..];
    assert r[i] in r[..j];
    assert r[i] in multiset(r[..j]);
  }

  lemma {:induction false} AtMostOnce(s: seq<PageId>, x: PageId)
    requires forall i, j :: 0 <= i < j < |s| ==> s[i] != s[j]
    ensures multiset(s)[x] <= 1
    decreases |s|
  {
    if s != [] {
      AtMostOnce(s[1..], x);
      assert s == [s[0]] + s[1..];
      if s[0] == x {
        assert x !in s[1..];
        assert multiset(s[1..])[x] == 0;
      }
    }
  }

  class PageAllocator {
    var nextPageId: PageId
    var reusable: seq<PageId>
    var freed: seq<PageId>
    var addedPayloadRefs: seq<PayloadRef>
    var droppedPayloadRefs: seq<PayloadRef>

    ghost predicate Valid()
      reads this
    {
      && nextPageId > 0
      && (forall i :: 0 <= i < |reusable| ==> 0 < reusable[i] < nextPageId)
      && (forall i, j :: 0 <= i < j < |reusable| ==> reusable[i] != reusable[j])
    }

    /** Ids a later `Allocate` may still hand out. */
    ghost predicate Available(x: PageId)
      reads this
    {
      x >= nextPageId || x in reusable
    }

    constructor WithReusable(next: PageId, ids: seq<PageId>)
      requires forall i :: 0 <= i < |ids| ==> 0 < ids[i] < next
      requires forall i, j :: 0 <= i < j < |ids| ==> ids[i] != ids[j]
      ensures Valid()
      ensures nextPageId == (if next == 0 then 1 else next)
      ensures forall x :: x in reusable <==> x in ids
      ensures Descending(reusable)
      ensures freed == [] && addedPayloadRefs == [] && droppedPayloadRefs == []
    {
      nextPageId := if next == 0 then 1 else next;
      reusable := SortDescending(ids);
      freed, addedPayloadRefs, droppedPayloadRefs := [], [], [];
      new;
      SortOrder(ids);
      DistinctBySum(ids, reusable);
      forall i | 0 <= i < |reusable| ensures 0 < reusable[i] < nextPageId {
        assert reusable[i] in ids;
      }
    }

    method Allocate() returns (id: PageId)
      requires Valid()
      modifies this`nextPageId, this`reusable
      ensures Valid()
      ensures id > 0 && old(Available(id)) && !Available(id)
      ensures if old(reusable) != [] then id in old(reusable) && nextPageId == old(nextPageId) else id == old(nextPageId)
      // the lowest id first, as long as none has been given back
      ensures Descending(old(reusable)) ==> Descending(reusable) && forall x :: x in old(reusable) ==> id <= x
      ensures forall x :: Available(x) <==> old(Available(x)) && x != id
      ensures nextPageId >= old(nextPageId)
    {
      if |reusable| > 0 {
        id := reusable[|reusable| - 1];
        reusable := reusable[..|reusable| - 1];
        assert forall x :: x in old(reusable) <==> x in reusable || x == id;
        return;
      }
      id := nextPageId;
      nextPageId := nextPageId + 1;
    }

    /** A contiguous range at the end of the file, outside the reusable tree pages. */
    method ReserveFreshPages(count: nat) returns (first: PageId)
      requires Valid() && count > 0
      modifies this`nextPageId
      ensures Valid() && first == old(nextPageId) && nextPageId == first + count
      ensures forall x: PageId :: Available(x) <==> old(Available(x)) && !(first <= x && x < first + count)
    {
      first := nextPageId;
      nextPageId := nextPageId + count;
    }

    method Free(id: PageId)
      modifies this`freed
      ensures freed == old(freed) + [id]
    {
      freed := freed + [id];
    }

    /** An id no published page uses can be handed out again at once. */
    method ReleaseUnpublished(id: PageId)
      requires Valid() && 0 < id && !Available(id)
      modifies this`reusable
      ensures Valid()
      ensures forall x :: Available(x) <==> old(Available(x)) || x == id
    {
      reusable := reusable + [id];
    }
  }

  // ---------- overflow chains ----------

  function Chunk(value: Bytes, i: nat): Bytes
    requires i < ChunkCount(|value|)
  {
    var end := if (i + 1) * OVERFLOW_CHUNK_LEN < |value| then (i + 1) * OVERFLOW_CHUNK_LEN else |value|;
    value[i * OVERFLOW_CHUNK_LEN..end]
  }

  lemma {:induction false} ChunkBounds(value: Bytes, i: nat)
    requires i < ChunkCount(|value|)
    ensures 0 < |Chunk(value, i)| <= OVERFLOW_CHUNK_LEN
    ensures i + 1 < ChunkCount(|value|) ==> |Chunk(value, i)| == OVERFLOW_CHUNK_LEN
    ensures i + 1 == ChunkCount(|value|) ==> i * OVERFLOW_CHUNK_LEN + |Chunk(value, i)| == |value|
  {
  }

  function ChainPage(ids: seq<PageId>, value: Bytes, i: nat): Page
    requires |ids| == ChunkCount(|value|) && i < |ids|
  {
    OverflowPage(if i + 1 < |ids| then ids[i + 1] else 0, Chunk(value, i))
  }

  lemma {:induction false} ChainSpellsFrom(pages: map<PageId, Page>, ids: seq<PageId>, value: Bytes, i: nat)
    requires |ids| == ChunkCount(|value|) && i <= |ids|
    requires forall n :: 0 <= n < |ids| ==> ids[n] > 0 && ids[n] in pages && pages[ids[n]] == ChainPage(ids, value, n)
    requires i * OVERFLOW_CHUNK_LEN <= |value| || i == |ids|
    ensures ChainSpells(pages, ids[i..], value[if i < |ids| then i * OVERFLOW_CHUNK_LEN else |value|..])
    decreases |ids| - i
  {
    if i < |ids| {
      ChunkBounds(value, i);
      ChainSpellsFrom(pages, ids, value, i + 1);
      assert ids[i..][1..] == ids[i + 1..];
      assert value[i * OVERFLOW_CHUNK_LEN..][|Chunk(value, i)|..] == value[i * OVERFLOW_CHUNK_LEN + |Chunk(value, i)|..];
    }
  }

  datatype Chain = Chain(ids: seq<PageId>, pages: map<PageId, Page>)

  ghost predicate Distinct(ids: seq<PageId>) {
    forall i, j :: 0 <= i < j < |ids| ==> ids[i] != ids[j]
  }

  method AllocateMany(count: nat, alloc: PageAllocator) returns (ids: seq<PageId>)
    requires alloc.Valid()
    modifies alloc`nextPageId, alloc`reusable
    ensures alloc.Valid() && alloc.nextPageId >= old(alloc.nextPageId)
    ensures |ids| == count && Distinct(ids)
    ensures forall i :: 0 <= i < |ids| ==> ids[i] > 0 && old(alloc.Available(ids[i]))
    ensures forall x :: alloc.Available(x) <==> old(alloc.Available(x)) && x !in ids
  {
    ids := [];
    while |ids| < count
      invariant alloc.Valid() && |ids| <= count && alloc.nextPageId >= old(alloc.nextPageId)
      invariant Distinct(ids)
      invariant forall i :: 0 <= i < |ids| ==> ids[i] > 0 && old(alloc.Available(ids[i]))
      invariant forall x :: alloc.Available(x) <==> old(alloc.Available(x)) && x !in ids
    {
      var id := alloc.Allocate();
      ids := ids + [id];
    }
  }

  lemma {:induction false} ChainSpellsWhole(pages: map<PageId, Page>, ids: seq<PageId>, value: Bytes)
    requires |ids| == ChunkCount(|value|)
    requires forall n :: 0 <= n < |ids| ==> ids[n] > 0 && ids[n] in pages && pages[ids[n]] == ChainPage(ids, value, n)
    ensures ChainSpells(pages, ids, value)
  {
    ChainSpellsFrom(pages, ids, value, 0);
    assert ids[0..] == ids && value[0..] == value;
    assert ids == [] ==> value == [];
  }

  method LinkChunks(value: Bytes, ids: seq<PageId>) returns (pages: map<PageId, Page>)
    requires |ids| == ChunkCount(|value|) && Distinct(ids)
    requires forall i :: 0 <= i < |ids| ==> ids[i] > 0
    ensures forall x :: x in pages <==> x in ids
    ensures forall x :: x in pages ==> pages[x].OverflowPage?
    ensures ChainSpells(pages, ids, value)
  {
    pages := map[];
    var index := 0;
    while index < |ids|
      invariant index <= |ids|
      invariant forall x :: x in pages ==> x in ids && pages[x].OverflowPage?
      invariant forall n :: 0 <= n < index ==> ids[n] in pages && pages[ids[n]] == ChainPage(ids, value, n)
    {
      pages := pages[ids[index] := ChainPage(ids, value, index)];
      index := index + 1;
    }
    ChainSpellsWhole(pages, ids, value);
  }

  /** Writes a value over freshly allocated pages; reading the chain back gives the value. */
  method WriteOverflowValue(value: Bytes, alloc: PageAllocator) returns (r: Result<Chain>)
    requires alloc.Valid()
    modifies alloc`nextPageId, alloc`reusable
    ensures alloc.Valid() && alloc.nextPageId >= old(alloc.nextPageId)
    ensures r.Err? <==> value == []
    ensures r.Err? ==> r.error == EmptyValue
    ensures r.Ok? ==>
      && var ids := r.value.ids;
      && |ids| == ChunkCount(|value|) && |ids| > 0 && Distinct(ids)
      && (forall i :: 0 <= i < |ids| ==> ids[i] > 0 && old(alloc.Available(ids[i])))
      && (forall x :: alloc.Available(x) <==> old(alloc.Available(x)) && x !in ids)
      && (forall x :: x in r.value.pages <==> x in ids)
      && (forall x :: x in r.value.pages ==> r.value.pages[x].OverflowPage?)
      && ChainSpells(r.value.pages, ids, value)
  {
    if |value| == 0 {
      return Err(EmptyValue);
    }
    var ids := AllocateMany(ChunkCount(|value|), alloc);
    var pages := LinkChunks(value, ids);
    return Ok(Chain(ids, pages));
  }

  /** `ids` is the chain a cell declares by its head page and total length. */
  ghost predicate DeclaredChain(pages: map<PageId, Page>, head: PageId, totalLen: nat, ids: seq<PageId>, bytes: Bytes) {
    && 0 < totalLen <= MAX_STORED_VALUE_BYTES
    && |bytes| == totalLen
    && 0 < |ids| <= ChunkCount(totalLen)
    && ids[0] == head
    && ChainSpells(pages, ids, bytes)
  }

  datatype Walk = Walk(ids: seq<PageId>, bytes: Bytes)

  lemma {:induction false} ChainSpellsSnoc(pages: map<PageId, Page>, ids: seq<PageId>, bytes: Bytes, id: PageId)
    requires Linked(pages, ids, bytes, id)
    requires id > 0 && id in pages && pages[id].OverflowPage? && |pages[id].chunk| > 0
    ensures Linked(pages, ids + [id], bytes + pages[id].chunk, pages[id].next)
    decreases |ids|
  {
    if ids != [] {
      var page := pages[ids[0]];
      ChainSpellsSnoc(pages, ids[1..], bytes[|page.chunk|..], id);
      assert (ids + [id])[1..] == ids[1..] + [id];
      assert (bytes + pages[id].chunk)[|page.chunk|..] == bytes[|page.chunk|..] + pages[id].chunk;
    } else {
      assert [id][1..] == [];
      assert (bytes + pages[id].chunk)[|pages[id].chunk|..] == [];
    }
  }

  /** `ids` spells `bytes` and links on to `next`. */
  ghost predicate Linked(pages: map<PageId, Page>, ids: seq<PageId>, bytes: Bytes, next: PageId) {
    if ids == [] then bytes == []
    else
      && ids[0] > 0
      && ids[0] in pages
      && pages[ids[0]].OverflowPage?
      && var page := pages[ids[0]];
      && 0 < |page.chunk| <= |bytes|
      && page.chunk == bytes[..|page.chunk|]
      && page.next == (if |ids| > 1 then ids[1] else next)
      && Linked(pages, ids[1..], bytes[|page.chunk|..], next)
  }

  lemma {:induction false} LinkedToZeroSpells(pages: map<PageId, Page>, ids: seq<PageId>, bytes: Bytes)
    requires Linked(pages, ids, bytes, 0)
    ensures ChainSpells(pages, ids, bytes)
    decreases |ids|
  {
    if ids != [] {
      LinkedToZeroSpells(pages, ids[1..], bytes[|pages[ids[0]].chunk|..]);
    }
  }

  /** How far a walk over the declared chain `cs` of `bs` has come. */
  ghost predicate Walked(pages: map<PageId, Page>, cs: seq<PageId>, bs: Bytes, w: Walk, current: PageId) {
    && |w.ids| <= |cs| && cs[..|w.ids|] == w.ids
    && |w.bytes| <= |bs| && bs[..|w.bytes|] == w.bytes
    && current == (if |w.ids| < |cs| then cs[|w.ids|] else 0)
    && ChainSpells(pages, cs[|w.ids|..], bs[|w.bytes|..])
  }

  lemma {:induction false} WalkedStep(pages: map<PageId, Page>, cs: seq<PageId>, bs: Bytes, w: Walk, current: PageId)
    requires Walked(pages, cs, bs, w, current) && current > 0
    ensures current in pages && pages[current].OverflowPage?
    ensures 0 < |pages[current].chunk| <= |bs| - |w.bytes| && |w.ids| < |cs|
    ensures Walked(pages, cs, bs, Walk(w.ids + [current], w.bytes + pages[current].chunk), pages[current].next)
  {
    var n, m := |w.ids|, |w.bytes|;
    var page := pages[current];
    assert cs[n..][0] == current && cs[n..][1..] == cs[n + 1..];
    assert bs[m..][|page.chunk|..] == bs[m + |page.chunk|..];
    assert bs[m..][..|page.chunk|] == bs[m..m + |page.chunk|];
    assert cs[..n + 1] == cs[..n] + [current];
    assert bs[..m + |page.chunk|] == bs[..m] + page.chunk;
  }

  lemma {:induction false} WalkedDone(pages: map<PageId, Page>, cs: seq<PageId>, bs: Bytes, w: Walk)
    requires Walked(pages, cs, bs, w, 0) && forall i :: 0 <= i < |cs| ==> cs[i] > 0
    ensures w == Walk(cs, bs)
  {
    assert |cs| == |w.ids|;
    assert cs[|cs|..] == [];
    assert bs[|w.bytes|..] == [];
    assert cs[..|cs|] == cs && bs[..|bs|] == bs;
  }

  lemma {:induction false} ChainPositive(pages: map<PageId, Page>, ids: seq<PageId>, bytes: Bytes)
    requires ChainSpells(pages, ids, bytes)
    ensures forall i :: 0 <= i < |ids| ==> ids[i] > 0
    decreases |ids|
  {
    if ids != [] {
      ChainPositive(pages, ids[1..], bytes[|pages[ids[0]].chunk|..]);
      assert forall i :: 1 <= i < |ids| ==> ids[i] == ids[1..][i - 1];
    }
  }

  /**
   * `walk_chain` with a visitor that keeps going: collects the pages it visits and
   * their bytes. It succeeds exactly on the chain that the cell declares.
   */
  method WalkChain(pages: map<PageId, Page>, head: PageId, totalLen: nat) returns (r: Result<Walk>)
    ensures r.Ok? ==> DeclaredChain(pages, head, totalLen, r.value.ids, r.value.bytes)
    ensures r.Err? ==> r.error == Corruption
    ensures forall ids, bytes :: DeclaredChain(pages, head, totalLen, ids, bytes) ==> r == Ok(Walk(ids, bytes))
  {
    if totalLen == 0 || totalLen > MAX_STORED_VALUE_BYTES {
      return Err(Corruption);
    }
    var maxPages := ChunkCount(totalLen);
    var current := head;
    var w := Walk([], []);
    forall cs, bs | DeclaredChain(pages, head, totalLen, cs, bs) ensures Walked(pages, cs, bs, w, current) {
      assert cs[0..] == cs && bs[0..] == bs;
    }
    while current != 0
      invariant |w.ids| <= maxPages && |w.bytes| <= totalLen
      invariant Linked(pages, w.ids, w.bytes, current)
      invariant if w.ids == [] then current == head else w.ids[0] == head
      invariant forall cs, bs :: DeclaredChain(pages, head, totalLen, cs, bs) ==> Walked(pages, cs, bs, w, current)
      decreases maxPages - |w.ids|
    {
      forall cs, bs | DeclaredChain(pages, head, totalLen, cs, bs)
        ensures current in pages && pages[current].OverflowPage? && |w.ids| < maxPages
        ensures 0 < |pages[current].chunk| && |w.bytes| + |pages[current].chunk| <= totalLen
        ensures Walked(pages, cs, bs, Walk(w.ids + [current], w.bytes + pages[current].chunk), pages[current].next)
      {
        WalkedStep(pages, cs, bs, w, current);
      }
      if |w.ids| + 1 > maxPages || current !in pages || !pages[current].OverflowPage? || |pages[current].chunk| == 0 {
        return Err(Corruption);
      }
      var page := pages[current];
      if |w.bytes| + |page.chunk| > totalLen {
        return Err(Corruption);
      }
      ChainSpellsSnoc(pages, w.ids, w.bytes, current);
      w, current := Walk(w.ids + [current], w.bytes + page.chunk), page.next;
    }
    forall cs, bs | DeclaredChain(pages, head, totalLen, cs, bs) ensures w == Walk(cs, bs) {
      ChainPositive(pages, cs, bs);
      WalkedDone(pages, cs, bs, w);
    }
    if |w.bytes| != totalLen {
      return Err(Corruption);
    }
    LinkedToZeroSpells(pages, w.ids, w.bytes);
    return Ok(w);
  }
}
