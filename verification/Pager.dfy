/** The write-back page cache over the main file. */
module PageCache {
  import opened Keys
  import opened Pages
  import opened Allocator
  import opened WalScan
  import opened WalReplay

  const DIRTY_PAGE_WRITE_BATCH_PAGES := 1024

  datatype CacheEntry = CacheEntry(bytes: Bytes, generation: nat, dirty: bool)

  /** A use of a clean page, in order of use. */
  datatype Use = Use(page: PageId, generation: nat)

  type Cache = map<PageId, CacheEntry>

  ghost function DirtyIds(cache: Cache): set<PageId> {
    set p | p in cache && cache[p].dirty
  }

  ghost function CleanIds(cache: Cache): set<PageId> {
    set p | p in cache && !cache[p].dirty
  }

  lemma {:induction false} CacheSplits(cache: Cache)
    ensures |cache| == |DirtyIds(cache)| + |CleanIds(cache)|
  {
    assert cache.Keys == DirtyIds(cache) + CleanIds(cache);
    assert |cache.Keys| == |cache|;
  }

  /** `u` is the latest use of a clean cached page. */
  predicate Current(cache: Cache, u: Use) {
    u.page in cache && !cache[u.page].dirty && cache[u.page].generation == u.generation
  }

  /** The queue is in the order of use, generations numbering the uses. */
  ghost predicate ByUse(lru: seq<Use>) {
    forall i, j :: 0 <= i < j < |lru| ==> lru[i].generation < lru[j].generation
  }

  /** Every clean page has its latest use in the queue. */
  ghost predicate Queued(cache: Cache, lru: seq<Use>) {
    forall p :: p in cache && !cache[p].dirty ==> Use(p, cache[p].generation) in lru
  }

  ghost predicate Numbered(cache: Cache, lru: seq<Use>, next: nat) {
    && (forall p :: p in cache ==> cache[p].generation < next)
    && (forall i :: 0 <= i < |lru| ==> lru[i].generation < next)
  }

  /** Clean pages hold what the file holds. */
  ghost predicate CleanAgrees(cache: Cache, main: MainFile) {
    forall p :: p in cache && !cache[p].dirty ==> p in main && main[p] == cache[p].bytes
  }

  ghost predicate Consistent(cache: Cache, lru: seq<Use>, next: nat, main: MainFile) {
    ByUse(lru) && Queued(cache, lru) && Numbered(cache, lru, next) && CleanAgrees(cache, main)
  }

  ghost predicate AllWhole(cache: Cache) {
    forall p :: p in cache ==> p > 0 && |cache[p].bytes| == PAGE_SIZE
  }

  /** The page map the cache and the file stand for. */
  ghost function ViewOf(cache: Cache, main: MainFile): MainFile {
    main + (map p | p in cache :: cache[p].bytes)
  }

  /** The effect of setting one entry on the dirty set, its size and the view. */
  lemma {:induction false} SetEntry(cache: Cache, p: PageId, e: CacheEntry, main: MainFile)
    ensures DirtyIds(cache[p := e]) == (DirtyIds(cache) - {p}) + if e.dirty then {p} else {}
    ensures |DirtyIds(cache[p := e])| == |DirtyIds(cache)| - (if p in cache && cache[p].dirty then 1 else 0) + if e.dirty then 1 else 0
    ensures ViewOf(cache[p := e], main) == ViewOf(cache, main)[p := e.bytes]
  {
    SetEntryDirty(cache, p, e);
    SetEntryView(cache, p, e, main);
    hide DirtyIds, ViewOf;
    SizeWith(DirtyIds(cache), p, p in cache && cache[p].dirty);
    SizeWith(DirtyIds(cache[p := e]), p, e.dirty);
    var others := DirtyIds(cache) - {p};
    assert DirtyIds(cache[p := e]) - {p} == others;
  }

  lemma {:induction false} SizeWith(s: set<PageId>, p: PageId, there: bool)
    requires there <==> p in s
    ensures |s| == |s - {p}| + if there then 1 else 0
  {
    if there {
      assert s == (s - {p}) + {p};
    } else {
      assert s == s - {p};
    }
  }

  lemma {:induction false} SetEntryDirty(cache: Cache, p: PageId, e: CacheEntry)
    ensures DirtyIds(cache[p := e]) == (DirtyIds(cache) - {p}) + if e.dirty then {p} else {}
    ensures p in DirtyIds(cache) <==> p in cache && cache[p].dirty
    ensures p in DirtyIds(cache[p := e]) <==> e.dirty
  {
  }

  lemma {:induction false} SetEntryView(cache: Cache, p: PageId, e: CacheEntry, main: MainFile)
    ensures ViewOf(cache[p := e], main) == ViewOf(cache, main)[p := e.bytes]
  {
  }

  lemma {:induction false} DropDirty(cache: Cache, p: PageId, main: MainFile)
    requires p in cache && cache[p].dirty
    ensures DirtyIds(cache - {p}) == DirtyIds(cache) - {p} && |DirtyIds(cache - {p})| == |DirtyIds(cache)| - 1
    ensures CleanIds(cache - {p}) == CleanIds(cache)
    ensures forall q :: q != p ==> (q in ViewOf(cache - {p}, main) <==> q in ViewOf(cache, main)) && (q in ViewOf(cache, main) ==> ViewOf(cache - {p}, main)[q] == ViewOf(cache, main)[q])
    ensures (p in ViewOf(cache - {p}, main) <==> p in main) && (p in main ==> ViewOf(cache - {p}, main)[p] == main[p])
  {
    assert DirtyIds(cache) == (DirtyIds(cache) - {p}) + {p};
  }

  // ---------- queue steps ----------

  lemma {:induction false} PushUse(cache: Cache, lru: seq<Use>, next: nat, main: MainFile, p: PageId, bytes: Bytes)
    requires Consistent(cache - {p}, lru, next, main) && p in main && main[p] == bytes
    ensures Consistent(cache[p := CacheEntry(bytes, next, false)], lru + [Use(p, next)], next + 1, main)
  {
    var cache' := cache[p := CacheEntry(bytes, next, false)];
    forall q | q in cache' && !cache'[q].dirty ensures Use(q, cache'[q].generation) in lru + [Use(p, next)] {
      if q != p {
        assert q in cache - {p};
      }
    }
    assert forall q :: q in cache' && q != p ==> q in cache - {p};
  }

  lemma {:induction false} Pin(cache: Cache, lru: seq<Use>, next: nat, main: MainFile, p: PageId, bytes: Bytes)
    requires Consistent(cache - {p}, lru, next, main)
    ensures Consistent(cache[p := CacheEntry(bytes, next, true)], lru, next + 1, main)
  {
    var cache' := cache[p := CacheEntry(bytes, next, true)];
    assert forall q :: q in cache' && q != p ==> q in cache - {p};
  }

  lemma {:induction false} Without(cache: Cache, lru: seq<Use>, next: nat, main: MainFile, p: PageId)
    requires Consistent(cache, lru, next, main)
    ensures Consistent(cache - {p}, lru, next, main)
  {
  }

  /** Dropping a use that is not current, or whose page is evicted. */
  lemma {:induction false} PopUse(cache: Cache, lru: seq<Use>, next: nat, main: MainFile)
    requires Consistent(cache, lru, next, main) && lru != []
    ensures !Current(cache, lru[0]) ==> Consistent(cache, lru[1..], next, main)
    ensures Consistent(cache - {lru[0].page}, lru[1..], next, main)
  {
    assert forall i :: 0 <= i < |lru[1..]| ==> lru[1..][i] == lru[i + 1];
    var rest := lru[1..];
    forall p | p in cache && !cache[p].dirty && Use(p, cache[p].generation) != lru[0] ensures Use(p, cache[p].generation) in rest {
      var i :| 0 <= i < |lru| && lru[i] == Use(p, cache[p].generation);
      assert rest[i - 1] == lru[i];
    }
  }

  lemma {:induction false} EvictView(cache: Cache, main: MainFile, p: PageId)
    requires CleanAgrees(cache, main) && p in cache && !cache[p].dirty
    ensures ViewOf(cache - {p}, main) == ViewOf(cache, main) && DirtyIds(cache - {p}) == DirtyIds(cache)
  {
  }

  /** With one use left in the queue at most one page is clean. */
  lemma {:induction false} LastUse(cache: Cache, lru: seq<Use>)
    requires Queued(cache, lru) && |lru| <= 1
    ensures |CleanIds(cache)| <= |lru|
  {
    if lru == [] {
      assert CleanIds(cache) == {};
    } else {
      assert CleanIds(cache) <= {lru[0].page};
      CardinalityOf(CleanIds(cache), lru[0].page);
    }
  }

  lemma {:induction false} CardinalityOf(s: set<PageId>, p: PageId)
    requires s <= {p}
    ensures |s| <= 1
  {
    if p in s {
      assert s == {p};
    } else {
      assert s == {};
    }
  }

  /** The uses that are still current. */
  function Retained(cache: Cache, lru: seq<Use>): seq<Use> {
    if lru == [] then [] else (if Current(cache, lru[0]) then [lru[0]] else []) + Retained(cache, lru[1..])
  }

  lemma {:induction false} RetainedFacts(cache: Cache, lru: seq<Use>)
    requires ByUse(lru)
    ensures ByUse(Retained(cache, lru))
    ensures forall u :: u in Retained(cache, lru) <==> u in lru && Current(cache, u)
    decreases |lru|
  {
    if lru != [] {
      var rest := Retained(cache, lru[1..]);
      assert forall i :: 0 <= i < |lru[1..]| ==> lru[1..][i] == lru[i + 1];
      RetainedFacts(cache, lru[1..]);
      forall i | 0 <= i < |rest| ensures lru[0].generation < rest[i].generation {
        assert rest[i] in rest;
        assert rest[i] in lru[1..];
      }
      assert forall u :: u in lru <==> u == lru[0] || u in lru[1..];
    }
  }

  lemma {:induction false} Compacted(cache: Cache, lru: seq<Use>, next: nat, main: MainFile)
    requires Consistent(cache, lru, next, main)
    ensures Consistent(cache, Retained(cache, lru), next, main)
  {
    RetainedFacts(cache, lru);
    var kept := Retained(cache, lru);
    forall i | 0 <= i < |kept| ensures kept[i].generation < next {
      assert kept[i] in kept;
      assert kept[i] in lru;
    }
  }

  // ---------- write-back ----------

  ghost predicate Least(s: set<PageId>, p: PageId) {
    p in s && forall q :: q in s ==> p <= q
  }

  lemma {:induction false} HasLeast(s: set<PageId>)
    requires s != {}
    ensures exists p :: Least(s, p)
    decreases |s|
  {
    var x :| x in s;
    var rest := s - {x};
    if rest == {} {
      assert s == {x};
      assert Least(s, x);
    } else {
      HasLeast(rest);
      var m :| Least(rest, m);
      LeastWith(s, x, m);
    }
  }

  lemma {:induction false} LeastWith(s: set<PageId>, x: PageId, m: PageId)
    requires x in s && Least(s - {x}, m)
    ensures Least(s, if x < m then x else m)
  {
    forall q | q in s ensures (if x < m then x else m) <= q {
      assert q == x || q in s - {x};
    }
  }

  ghost predicate Increasing(ids: seq<PageId>) {
    forall i, j :: 0 <= i < j < |ids| ==> ids[i] < ids[j]
  }

  /** `done` and `rest` make up `ids`, everything done being smaller. */
  ghost predicate Sorting(ids: set<PageId>, done: seq<PageId>, rest: set<PageId>) {
    && Increasing(done)
    && (forall p :: p in ids <==> p in done || p in rest)
    && (forall i, q :: 0 <= i < |done| && q in rest ==> done[i] < q)
  }

  lemma {:induction false} SortingNext(ids: set<PageId>, done: seq<PageId>, rest: set<PageId>, p: PageId)
    requires Sorting(ids, done, rest) && Least(rest, p)
    ensures Sorting(ids, done + [p], rest - {p})
  {
    forall i, q | 0 <= i < |done + [p]| && q in rest - {p} ensures (done + [p])[i] < q {
      assert q in rest;
    }
    forall q ensures q in ids <==> q in done + [p] || q in rest - {p} {
      assert q in done + [p] <==> q in done || q == p;
    }
  }

  /** Page ids in increasing order. */
  method SortIds(ids: set<PageId>) returns (r: seq<PageId>)
    ensures Increasing(r) && forall p :: p in r <==> p in ids
  {
    hide Sorting, Increasing;
    r := [];
    var rest := ids;
    assert Sorting(ids, [], ids) by { SortingStarts(ids); }
    while rest != {}
      invariant Sorting(ids, r, rest)
      decreases |rest|
    {
      HasLeast(rest);
      var p :| p in rest && forall q :: q in rest ==> p <= q;
      SortingNext(ids, r, rest, p);
      r := r + [p];
      rest := rest - {p};
    }
    SortingDone(ids, r);
  }

  lemma {:induction false} SortingStarts(ids: set<PageId>)
    ensures Sorting(ids, [], ids)
  {
  }

  lemma {:induction false} SortingDone(ids: set<PageId>, r: seq<PageId>)
    requires Sorting(ids, r, {})
    ensures Increasing(r) && forall p :: p in r <==> p in ids
  {
  }

  ghost function ImagesFor(cache: Cache, ids: seq<PageId>): (r: seq<Image>)
    requires forall p :: p in ids ==> p in cache
    ensures |r| == |ids|
  {
    seq(|ids|, i requires 0 <= i < |ids| => assert ids[i] in ids; Image(ids[i], cache[ids[i]].bytes))
  }

  /** Joins the bytes of a run of cached pages. */
  method JoinRun(cache: Cache, ids: seq<PageId>) returns (batch: Bytes)
    requires forall p :: p in ids ==> p in cache
    ensures batch == Joined(ImagesFor(cache, ids))
  {
    batch := [];
    var i: nat := 0;
    assert ids[..0] == [];
    while i < |ids|
      invariant i <= |ids|
      invariant forall p :: p in ids[..i] ==> p in cache
      invariant batch == Joined(ImagesFor(cache, ids[..i]))
    {
      var id := ids[i];
      assert id in ids && ids[..i + 1] == ids[..i] + [id];
      JoinedSnoc(ImagesFor(cache, ids[..i]), Image(id, cache[id].bytes));
      assert ImagesFor(cache, ids[..i + 1]) == ImagesFor(cache, ids[..i]) + [Image(id, cache[id].bytes)];
      batch := batch + cache[id].bytes;
      i := i + 1;
    }
    assert ids[..i] == ids;
  }

  lemma {:induction false} JoinedSnoc(images: seq<Image>, image: Image)
    ensures Joined(images + [image]) == Joined(images) + image.bytes
    decreases |images|
  {
    if images == [] {
      assert images + [image] == [image];
      assert Joined([image]) == image.bytes + Joined([]);
    } else {
      assert (images + [image])[1..] == images[1..] + [image];
      JoinedSnoc(images[1..], image);
    }
  }

  /** The end of the run of consecutive ids from `start`. */
  method RunEnd(ids: seq<PageId>, start: nat) returns (end: nat)
    requires start < |ids|
    ensures start < end <= |ids| && end - start <= DIRTY_PAGE_WRITE_BATCH_PAGES
    ensures forall i :: start < i < end ==> ids[i] == ids[i - 1] + 1
  {
    end := start + 1;
    while end < |ids| && end - start < DIRTY_PAGE_WRITE_BATCH_PAGES && ids[end - 1] + 1 == ids[end]
      invariant start < end <= |ids| && end - start <= DIRTY_PAGE_WRITE_BATCH_PAGES
      invariant forall i :: start < i < end ==> ids[i] == ids[i - 1] + 1
    {
      end := end + 1;
    }
  }

  /** Writes the given cached pages, one write per run of consecutive ids. */
  method WriteSorted(cache: Cache, ids: seq<PageId>, main: MainFile) returns (main': MainFile)
    requires forall p :: p in ids ==> p in cache && |cache[p].bytes| == PAGE_SIZE
    ensures main' == WriteAll(main, ImagesFor(cache, ids))
  {
    hide WriteAll, WriteRun, Joined;
    main' := main;
    var start: nat := 0;
    WriteNothing(main);
    ghost var images := ImagesFor(cache, ids);
    assert images[..0] == [];
    while start < |ids|
      invariant start <= |ids|
      invariant main' == WriteAll(main, images[..start])
    {
      var end := RunEnd(ids, start);
      ghost var run := images[start..end];
      assert forall p :: p in ids[start..end] ==> p in ids;
      var batch := JoinRun(cache, ids[start..end]);
      assert ImagesFor(cache, ids[start..end]) == run;
      assert WholePages(run) by {
        forall i | 0 <= i < |run| ensures |run[i].bytes| == PAGE_SIZE {
          assert ids[start + i] in ids;
        }
      }
      assert Consecutive(run);
      RunIsSequence(main', run);
      assert images[..end] == images[..start] + run;
      WriteAllAppend(main, images[..start], run);
      main' := WriteRun(main', ids[start], batch);
      start := end;
    }
    assert images[..start] == images;
  }

  /** Write-back leaves in the file exactly the dirty pages' images. */
  lemma {:induction false} WrittenExactly(cache: Cache, ids: seq<PageId>, main: MainFile, p: PageId)
    requires forall q :: q in ids ==> q in cache
    ensures var main' := WriteAll(main, ImagesFor(cache, ids));
            && (p in main' <==> p in main || p in ids)
            && (p in ids ==> main'[p] == cache[p].bytes)
            && (p !in ids && p in main ==> main'[p] == main[p])
    decreases |ids|
  {
    if ids == [] {
      assert ImagesFor(cache, ids) == [];
    } else {
      var n := |ids| - 1;
      var before, last := ids[..n], ids[n];
      assert ids == before + [last] && last in ids;
      assert forall q :: q in before ==> q in ids;
      WrittenExactly(cache, before, main, p);
      var images, one := ImagesFor(cache, before), [Image(last, cache[last].bytes)];
      assert ImagesFor(cache, ids) == images + one;
      WriteAllAppend(main, images, one);
      var mid := WriteAll(main, images);
      assert WriteAll(mid, one) == mid[last := cache[last].bytes];
    }
  }

  // ---------- the pager ----------

  class Pager {
    const cachePages: nat
    const accepts: (PageId, Bytes) -> bool
    var main: MainFile
    var cache: Cache
    var lru: seq<Use>
    var nextGeneration: nat
    var pageLimit: PageId
    var dirtyCount: nat

    ghost predicate Coherent()
      reads this
    {
      && cachePages > 0
      && Consistent(cache, lru, nextGeneration, main)
      && dirtyCount == |DirtyIds(cache)|
      && AllWhole(cache)
    }

    /** Between operations: clean pages are within the budget. */
    ghost predicate Valid()
      reads this
    {
      Coherent() && |CleanIds(cache)| <= cachePages
    }

    /** What a read of each page returns. */
    ghost function View(): MainFile
      reads this
    {
      ViewOf(cache, main)
    }

    constructor (main: MainFile, cachePages: nat, accepts: (PageId, Bytes) -> bool, pageLimit: PageId)
      ensures Valid() && View() == main && this.main == main && this.accepts == accepts && cache == map[]
    {
      this.main, this.accepts, this.pageLimit := main, accepts, pageLimit;
      this.cachePages := if cachePages == 0 then 1 else cachePages;
      cache, lru, nextGeneration, dirtyCount := map[], [], 1, 0;
      new;
      assert DirtyIds(cache) == {} && CleanIds(cache) == {};
    }

    /** Drops least recently used clean pages until the budget is met. Dirty pages stay. */
    method EvictIfNeeded(protected: PageId)
      requires Coherent()
      requires Shielded(cache, lru, protected)
      modifies this`cache, this`lru
      ensures Valid() && View() == old(View()) && DirtyIds(cache) == old(DirtyIds(cache))
      ensures Shrunk(old(cache), cache, protected)
      // only as many as the budget asks for, and those used longest ago
      ensures cache == old(cache) || |CleanIds(cache)| >= cachePages
      ensures forall p, q :: p in old(cache) && p !in cache && q in CleanIds(cache) ==> old(cache)[p].generation < cache[q].generation
    {
      hide Consistent, Queued, DirtyIds, CleanIds, ViewOf, Shielded, UsedBefore;
      NothingEvicted(cache, lru);
      while |cache| - dirtyCount > cachePages
        invariant Coherent() && View() == old(View()) && DirtyIds(cache) == old(DirtyIds(cache))
        invariant Shielded(cache, lru, protected)
        invariant Shrunk(old(cache), cache, protected) && UsedBefore(old(cache), cache, lru)
        invariant cache == old(cache) || |cache| - dirtyCount >= cachePages
        decreases |lru|
      {
        CacheSplits(cache);
        SomeUse(cache, lru, nextGeneration, main);
        if lru == [] {
          break;
        }
        var use := lru[0];
        UsedBeforePop(old(cache), cache, lru, nextGeneration, main);
        PopUse(cache, lru, nextGeneration, main);
        ShieldPop(cache, lru, protected);
        if !Current(cache, use) {
          lru := lru[1..];
          continue;
        }
        if use.page == protected {
          ghost var before := lru;
          lru := lru[1..] + [use];
          OnlyShielded(cache, before, protected, nextGeneration, main);
          break;
        }
        CleanPageLeaves(cache, lru, nextGeneration, main, use.page);
        lru := lru[1..];
        cache := cache - {use.page};
      }
      CacheSplits(cache);
      OldestLeft(old(cache), cache, lru, nextGeneration, main);
    }

    /** Forgets outdated uses when the queue has grown long. */
    method CompactLruIfNeeded()
      requires Coherent()
      modifies this`lru
      ensures Coherent() && (lru == old(lru) || lru == Retained(cache, old(lru)))
    {
      hide Consistent, DirtyIds;
      var compactAfter := if cachePages * 4 > 64 then cachePages * 4 else 64;
      if |lru| > compactAfter {
        Compacted(cache, lru, nextGeneration, main);
        lru := Retained(cache, lru);
      }
    }

    /** Records a use of a cached clean page at the back of the queue. */
    method NoteCachedUse(p: PageId) returns (appended: bool)
      requires p in cache && cachePages > 0 && Consistent(cache - {p}, lru, nextGeneration, main)
      requires cache[p].dirty || (p in main && main[p] == cache[p].bytes)
      requires cache[p].generation < nextGeneration && dirtyCount == |DirtyIds(cache)|
      requires AllWhole(cache)
      modifies this`cache, this`lru, this`nextGeneration
      ensures Coherent() && Shielded(cache, lru, p) && p in cache
      ensures View() == old(View()) && DirtyIds(cache) == old(DirtyIds(cache))
      ensures forall q :: q in cache <==> q in old(cache)
      ensures forall q :: q in cache ==> cache[q].bytes == old(cache)[q].bytes && cache[q].dirty == old(cache)[q].dirty
    {
      hide Consistent, DirtyIds, CleanIds, ViewOf, AllWhole;
      var entry := cache[p];
      if entry.dirty || (lru != [] && lru[|lru| - 1] == Use(p, entry.generation)) {
        PutBack(cache, lru, nextGeneration, main, p);
        return false;
      }
      var generation := nextGeneration;
      PushUse(cache, lru, nextGeneration, main, p, entry.bytes);
      SetEntry(cache, p, entry.(generation := generation), main);
      SameEntry(cache, p, main);
      EntryWhole(cache, p);
      SetWhole(cache, p, entry.(generation := generation));
      nextGeneration := nextGeneration + 1;
      cache := cache[p := entry.(generation := generation)];
      lru := lru + [Use(p, generation)];
      return true;
    }

    method InsertCache(p: PageId, bytes: Bytes, dirty: bool)
      requires Valid() && p > 0 && p !in cache && |bytes| == PAGE_SIZE
      requires !dirty ==> p in main && main[p] == bytes
      modifies this`cache, this`lru, this`nextGeneration, this`dirtyCount
      ensures Valid() && p in cache && View() == old(View())[p := bytes]
      ensures DirtyIds(cache) == old(DirtyIds(cache)) + if dirty then {p} else {}
    {
      hide Consistent, Queued, Numbered, DirtyIds, CleanIds, ViewOf, Retained, AllWhole, Shrunk;
      assert cache - {p} == cache;
      var generation := nextGeneration;
      SetWhole(cache, p, CacheEntry(bytes, generation, dirty));
      SetEntry(cache, p, CacheEntry(bytes, generation, dirty), main);
      NotCached(cache, p);
      if dirty {
        Pin(cache, lru, nextGeneration, main, p, bytes);
        dirtyCount := dirtyCount + 1;
      } else {
        PushUse(cache, lru, nextGeneration, main, p, bytes);
        lru := lru + [Use(p, generation)];
      }
      nextGeneration := nextGeneration + 1;
      cache := cache[p := CacheEntry(bytes, generation, dirty)];
      ghost var full := cache;
      EvictIfNeeded(p);
      ShrunkKeeps(full, cache, p);
      CompactLruIfNeeded();
    }

    /** Stores an image over whatever the cache holds for the page. */
    method StoreCachedPage(p: PageId, bytes: Bytes, dirty: bool)
      requires Valid0(p) && p > 0 && |bytes| == PAGE_SIZE
      requires !dirty ==> p in main && main[p] == bytes
      modifies this`cache, this`lru, this`nextGeneration, this`dirtyCount
      ensures Valid() && p in cache && View() == old(View())[p := bytes]
      ensures DirtyIds(cache) == old(DirtyIds(cache)) - {p} + if dirty then {p} else {}
    {
      hide Consistent, Queued, Numbered, DirtyIds, CleanIds, ViewOf, Retained, Shielded, AllWhole, Shrunk;
      if p !in cache {
        assert cache - {p} == cache;
        NotCached(cache, p);
        InsertCache(p, bytes, dirty);
        return;
      }
      var entry := cache[p];
      if !entry.dirty && dirty {
        dirtyCount := dirtyCount + 1;
      } else if entry.dirty && !dirty {
        DropDirty(cache, p, main);
        dirtyCount := dirtyCount - 1;
      }
      var generation := if dirty then nextGeneration else entry.generation;
      if dirty {
        NumberedLater(cache - {p}, lru, nextGeneration, main);
        nextGeneration := nextGeneration + 1;
      }
      SetEntry(cache, p, CacheEntry(bytes, generation, dirty), main);
      SetWhole(cache, p, CacheEntry(bytes, generation, dirty));
      cache := cache[p := CacheEntry(bytes, generation, dirty)];
      var appended := NoteCachedUse(p);
      if appended {
        CompactKeepsShield(cache, lru, p);
        CompactLruIfNeeded();
      }
      ghost var full := cache;
      EvictIfNeeded(p);
      ShrunkKeeps(full, cache, p);
    }

    /** As `Valid`, except that the entry of `p` may be out of date with the file. */
    ghost predicate Valid0(p: PageId)
      reads this
    {
      && cachePages > 0 && |CleanIds(cache)| <= cachePages
      && Consistent(cache - {p}, lru, nextGeneration, main)
      && (p in cache ==> cache[p].generation < nextGeneration)
      && dirtyCount == |DirtyIds(cache)|
      && AllWhole(cache)
    }

    /** Reads a page: the latest staged or written image. */
    method WithPage(p: PageId) returns (r: Result<Bytes>)
      requires Valid() && forall q, b :: accepts(q, b) ==> |b| == PAGE_SIZE
      modifies this`cache, this`lru, this`nextGeneration, this`dirtyCount
      ensures Valid() && View() == old(View()) && DirtyIds(cache) == old(DirtyIds(cache))
      ensures r.Ok? ==> p in View() && r.value == View()[p]
      ensures r.Err? ==> r.error == Error.Corruption
      ensures r.Ok? <==> p > 0 && (p in old(cache) || (p < pageLimit && p in main && accepts(p, main[p])))
    {
      hide Consistent, Queued, Numbered;
      if p == 0 {
        return Err(Error.Corruption);
      }
      if p in cache {
        Without(cache, lru, nextGeneration, main, p);
        EntryFacts(cache, lru, nextGeneration, main, p);
        var bytes := cache[p].bytes;
        var appended := NoteCachedUse(p);
        SameClean(old(cache), cache);
        if appended {
          CompactLruIfNeeded();
        }
        return Ok(bytes);
      }
      if p >= pageLimit || p !in main || !accepts(p, main[p]) {
        return Err(Error.Corruption);
      }
      var bytes := main[p];
      InsertCache(p, bytes, false);
      assert View() == old(View());
      return Ok(bytes);
    }

    /** Writes through to the file. */
    method WritePageImage(p: PageId, bytes: Bytes) returns (r: Result<()>)
      requires Valid()
      modifies this
      ensures Valid()
      ensures r.Ok? <==> p > 0 && |bytes| == PAGE_SIZE
      ensures r.Err? ==> View() == old(View()) && main == old(main)
      ensures r.Ok? ==> View() == old(View())[p := bytes] && main == old(main)[p := bytes]
    {
      hide Queued, Numbered;
      if p == 0 || |bytes| != PAGE_SIZE {
        return Err(Error.Corruption);
      }
      Without(cache, lru, nextGeneration, main, p);
      main := main[p := bytes];
      EntryFacts(cache, lru, nextGeneration, old(main), p);
      assert Consistent(cache - {p}, lru, nextGeneration, main);
      assert ViewOf(cache, main)[p := bytes] == old(View())[p := bytes];
      StoreCachedPage(p, bytes, false);
      return Ok(());
    }

    /** Pins a committed image until a checkpoint writes it back. */
    method StagePageImage(p: PageId, bytes: Bytes) returns (r: Result<()>)
      requires Valid()
      modifies this`cache, this`lru, this`nextGeneration, this`dirtyCount
      ensures Valid()
      ensures r.Ok? <==> p > 0 && |bytes| == PAGE_SIZE
      ensures r.Err? ==> View() == old(View())
      ensures r.Ok? ==> View() == old(View())[p := bytes] && DirtyIds(cache) == old(DirtyIds(cache)) + {p}
    {
      hide Consistent, Queued, Numbered;
      if p == 0 || |bytes| != PAGE_SIZE {
        return Err(Error.Corruption);
      }
      Without(cache, lru, nextGeneration, main, p);
      EntryFacts(cache, lru, nextGeneration, main, p);
      StoreCachedPage(p, bytes, true);
      return Ok(());
    }

    /** Drops a staged image if it is still the one the caller saw. */
    method DiscardDirtyPageIfGeneration(p: PageId, generation: nat) returns (discarded: bool)
      requires Valid()
      modifies this`cache, this`lru, this`dirtyCount
      ensures Valid()
      ensures discarded <==> p in old(cache) && old(cache)[p].dirty && old(cache)[p].generation == generation
      ensures DirtyIds(cache) == old(DirtyIds(cache)) - if discarded then {p} else {}
      ensures forall q :: q != p ==> (q in View() <==> q in old(View())) && (q in View() ==> View()[q] == old(View())[q])
      ensures !discarded ==> View() == old(View())
      ensures discarded ==> (p in View() <==> p in main) && (p in main ==> View()[p] == main[p])
    {
      hide Consistent, Queued, Numbered;
      if p !in cache || !cache[p].dirty || cache[p].generation != generation {
        return false;
      }
      Without(cache, lru, nextGeneration, main, p);
      DropDirty(cache, p, main);
      hide DirtyIds, CleanIds, ViewOf, Retained;
      cache := cache - {p};
      dirtyCount := dirtyCount - 1;
      CompactLruIfNeeded();
      return true;
    }

    /** Writes every dirty page to the file, and no other. */
    method WriteBackDirty()
      requires Valid()
      modifies this`main
      ensures Valid() && View() == old(View())
      ensures forall p :: p in DirtyIds(cache) ==> p in main && main[p] == cache[p].bytes
      ensures forall p :: p !in DirtyIds(cache) ==> (p in main <==> p in old(main)) && (p in main ==> main[p] == old(main)[p])
    {
      hide WriteAll, Queued, Numbered, ByUse, CleanIds, Increasing;
      if dirtyCount == 0 {
        assert DirtyIds(cache) == {};
        return;
      }
      var ids := SortIds(set p | p in cache && cache[p].dirty);
      var written := WriteSorted(cache, ids, main);
      forall p: PageId
        ensures p in written <==> p in main || p in DirtyIds(cache)
        ensures p in DirtyIds(cache) ==> written[p] == cache[p].bytes
        ensures p !in DirtyIds(cache) && p in main ==> written[p] == main[p]
      {
        WrittenExactly(cache, ids, main, p);
      }
      WrittenKeeps(cache, lru, nextGeneration, main, written);
      main := written;
    }

    /** After a durable checkpoint every page is clean, and eviction resumes. */
    method MarkDirtyClean()
      requires Valid() && forall p :: p in DirtyIds(cache) ==> p in main && main[p] == cache[p].bytes
      modifies this`cache, this`lru, this`nextGeneration, this`dirtyCount
      ensures Valid() && View() == old(View()) && DirtyIds(cache) == {}
    {
      hide Consistent, Queued, Numbered, CleanIds, ViewOf, Retained;
      if dirtyCount == 0 {
        assert DirtyIds(cache) == {};
        return;
      }
      var rest := set p | p in cache && cache[p].dirty;
      hide DirtyIds, AllWhole;
      while rest != {}
        invariant rest == DirtyIds(cache) && View() == old(View()) && cachePages > 0
        invariant Consistent(cache, lru, nextGeneration, main)
        invariant AllWhole(cache)
        invariant forall p :: p in rest ==> p in main && p in cache && main[p] == cache[p].bytes
        decreases |rest|
      {
        var p :| p in rest;
        Without(cache, lru, nextGeneration, main, p);
        PushUse(cache, lru, nextGeneration, main, p, cache[p].bytes);
        SetEntry(cache, p, CacheEntry(cache[p].bytes, nextGeneration, false), main);
        SameEntry(cache, p, main);
        EntryWhole(cache, p);
        SetWhole(cache, p, CacheEntry(cache[p].bytes, nextGeneration, false));
        lru := lru + [Use(p, nextGeneration)];
        cache := cache[p := CacheEntry(cache[p].bytes, nextGeneration, false)];
        nextGeneration := nextGeneration + 1;
        rest := rest - {p};
      }
      dirtyCount := 0;
      assert Shielded(cache, lru, 0) by { ZeroShielded(cache, lru); }
      EvictIfNeeded(0);
      CompactLruIfNeeded();
    }

    /** Recovery drops staged images too. */
    method DiscardCache()
      requires Valid()
      modifies this`cache, this`lru, this`dirtyCount
      ensures Valid() && View() == main
    {
      cache, lru, dirtyCount := map[], [], 0;
      assert DirtyIds(cache) == {} && CleanIds(cache) == {};
    }
  }

  lemma {:induction false} WrittenKeeps(cache: Cache, lru: seq<Use>, next: nat, main: MainFile, written: MainFile)
    requires Consistent(cache, lru, next, main)
    requires forall p :: p in written <==> p in main || p in DirtyIds(cache)
    requires forall p :: p in DirtyIds(cache) ==> written[p] == cache[p].bytes
    requires forall p :: p !in DirtyIds(cache) && p in main ==> written[p] == main[p]
    ensures Consistent(cache, lru, next, written) && ViewOf(cache, written) == ViewOf(cache, main)
  {
    hide Queued, Numbered, ByUse;
  }

  lemma {:induction false} EntryWhole(cache: Cache, p: PageId)
    requires AllWhole(cache) && p in cache
    ensures p > 0 && |cache[p].bytes| == PAGE_SIZE
  {
  }

  lemma {:induction false} SetWhole(cache: Cache, p: PageId, e: CacheEntry)
    requires AllWhole(cache) && p > 0 && |e.bytes| == PAGE_SIZE
    ensures AllWhole(cache[p := e]) && cache[p := e] - {p} == cache - {p}
  {
  }

  lemma {:induction false} ShrunkKeeps(before: Cache, after: Cache, p: PageId)
    requires Shrunk(before, after, p) && p in before
    ensures p in after
  {
  }

  lemma {:induction false} NotCached(cache: Cache, p: PageId)
    requires p !in cache
    ensures DirtyIds(cache) - {p} == DirtyIds(cache)
  {
  }

  lemma {:induction false} SameEntry(cache: Cache, p: PageId, main: MainFile)
    requires p in cache
    ensures ViewOf(cache, main)[p := cache[p].bytes] == ViewOf(cache, main)
    ensures !cache[p].dirty ==> p !in DirtyIds(cache)
  {
  }

  /** Eviction only removes entries, and neither dirty nor protected ones. */
  ghost predicate Shrunk(before: Cache, after: Cache, protected: PageId) {
    && (forall p :: p in after ==> p in before && after[p] == before[p])
    && (forall p :: p in before && (before[p].dirty || p == protected) ==> p in after)
  }

  /** What was evicted had its last use before every use still queued. */
  ghost predicate UsedBefore(before: Cache, after: Cache, lru: seq<Use>) {
    forall p, i :: p in before && p !in after && 0 <= i < |lru| ==> before[p].generation < lru[i].generation
  }

  lemma {:induction false} NothingEvicted(cache: Cache, lru: seq<Use>)
    ensures UsedBefore(cache, cache, lru)
  {
  }

  lemma {:induction false} UsedBeforePop(before: Cache, after: Cache, lru: seq<Use>, next: nat, main: MainFile)
    requires Consistent(after, lru, next, main) && lru != [] && UsedBefore(before, after, lru)
    requires forall p :: p in after ==> p in before && after[p] == before[p]
    ensures UsedBefore(before, after, lru[1..])
    ensures Current(after, lru[0]) ==> UsedBefore(before, after - {lru[0].page}, lru[1..])
  {
    hide Queued, Numbered, CleanAgrees;
    assert forall i :: 0 <= i < |lru[1..]| ==> lru[1..][i] == lru[i + 1];
  }

  lemma {:induction false} OldestLeft(before: Cache, after: Cache, lru: seq<Use>, next: nat, main: MainFile)
    requires Consistent(after, lru, next, main) && UsedBefore(before, after, lru)
    ensures forall p, q :: p in before && p !in after && q in CleanIds(after) ==> before[p].generation < after[q].generation
  {
    hide Numbered, CleanAgrees, ByUse;
    forall p, q | p in before && p !in after && q in CleanIds(after) ensures before[p].generation < after[q].generation {
      assert Use(q, after[q].generation) in lru;
    }
  }

  /** The protected page is absent, dirty, or the most recently used one. */
  ghost predicate Shielded(cache: Cache, lru: seq<Use>, p: PageId) {
    p in cache && !cache[p].dirty ==> lru != [] && lru[|lru| - 1] == Use(p, cache[p].generation)
  }

  lemma {:induction false} ZeroShielded(cache: Cache, lru: seq<Use>)
    requires AllWhole(cache)
    ensures Shielded(cache, lru, 0)
  {
  }

  lemma {:induction false} ShieldPop(cache: Cache, lru: seq<Use>, p: PageId)
    requires Shielded(cache, lru, p) && lru != []
    ensures !Current(cache, lru[0]) ==> Shielded(cache, lru[1..], p)
    ensures lru[0].page != p ==> Shielded(cache - {lru[0].page}, lru[1..], p)
    ensures Current(cache, lru[0]) && lru[0].page == p ==> Shielded(cache, lru[1..] + [lru[0]], p)
  {
  }

  /** Popping the protected page's use means that no other clean page is left. */
  lemma {:induction false} OnlyShielded(cache: Cache, lru: seq<Use>, p: PageId, next: nat, main: MainFile)
    requires Consistent(cache, lru, next, main) && lru != [] && Shielded(cache, lru, p) && Current(cache, lru[0]) && lru[0].page == p
    ensures lru[1..] + [lru[0]] == lru && |CleanIds(cache)| <= 1
  {
    assert lru[|lru| - 1] == lru[0];
    assert |lru| == 1;
    LastUse(cache, lru);
  }

  lemma {:induction false} SomeUse(cache: Cache, lru: seq<Use>, next: nat, main: MainFile)
    requires Consistent(cache, lru, next, main)
    ensures lru == [] ==> |CleanIds(cache)| == 0
  {
    if lru == [] {
      LastUse(cache, lru);
    }
  }

  lemma {:induction false} CleanPageLeaves(cache: Cache, lru: seq<Use>, next: nat, main: MainFile, p: PageId)
    requires Consistent(cache, lru, next, main) && p in cache && !cache[p].dirty
    ensures ViewOf(cache - {p}, main) == ViewOf(cache, main) && DirtyIds(cache - {p}) == DirtyIds(cache)
  {
    EvictView(cache, main, p);
  }

  lemma {:induction false} PutBack(cache: Cache, lru: seq<Use>, next: nat, main: MainFile, p: PageId)
    requires p in cache && Consistent(cache - {p}, lru, next, main) && cache[p].generation < next
    requires cache[p].dirty || (p in main && main[p] == cache[p].bytes)
    requires cache[p].dirty || Use(p, cache[p].generation) in lru
    ensures Consistent(cache, lru, next, main)
  {
    forall q | q in cache && !cache[q].dirty ensures Use(q, cache[q].generation) in lru {
      if q != p {
        assert q in cache - {p};
      }
    }
    assert forall q :: q in cache && q != p ==> q in cache - {p};
  }

  lemma {:induction false} NumberedLater(cache: Cache, lru: seq<Use>, next: nat, main: MainFile)
    requires Consistent(cache, lru, next, main)
    ensures Consistent(cache, lru, next + 1, main)
  {
  }

  lemma {:induction false} EntryFacts(cache: Cache, lru: seq<Use>, next: nat, main: MainFile, p: PageId)
    requires Consistent(cache, lru, next, main)
    ensures p in cache ==> cache[p].generation < next && (cache[p].dirty || (p in main && main[p] == cache[p].bytes))
  {
  }

  lemma {:induction false} SameClean(a: Cache, b: Cache)
    requires (forall q :: q in a <==> q in b) && forall q :: q in a ==> a[q].dirty == b[q].dirty
    ensures CleanIds(a) == CleanIds(b)
  {
  }

  /** Compaction keeps the use of the page that was used last. */
  lemma {:induction false} CompactKeepsShield(cache: Cache, lru: seq<Use>, p: PageId)
    requires Shielded(cache, lru, p)
    ensures Shielded(cache, Retained(cache, lru), p)
  {
    if p in cache && !cache[p].dirty {
      LastRetained(cache, lru);
    }
  }

  lemma {:induction false} LastRetained(cache: Cache, lru: seq<Use>)
    requires lru != [] && Current(cache, lru[|lru| - 1])
    ensures Retained(cache, lru) != [] && Retained(cache, lru)[|Retained(cache, lru)| - 1] == lru[|lru| - 1]
    decreases |lru|
  {
    if |lru| > 1 {
      LastRetained(cache, lru[1..]);
    } else {
      assert Retained(cache, lru[1..]) == [];
    }
  }
}
