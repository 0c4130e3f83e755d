/** Replaying the latest image of each page in bounded batches. */
module WalReplay {
  import opened Keys
  import opened Pages
  import opened PageHeaders
  import opened WalRecords
  import opened WalScan

  const PAGE_WRITE_BATCH_PAGES := 64

  /** The main file: the bytes of each page. */
  type MainFile = map<PageId, Bytes>

  // ---------- writing pages ----------

  /** Images written one after the other. */
  function WriteAll(main: MainFile, images: seq<Image>): MainFile
    decreases |images|
  {
    if images == [] then main else WriteAll(main[images[0].page := images[0].bytes], images[1..])
  }

  /** One write of consecutive pages, starting at page `first`. */
  function WriteRun(main: MainFile, first: PageId, run: Bytes): MainFile
    requires |run| % PAGE_SIZE == 0
    decreases |run|
  {
    if run == [] then main else WriteRun(main[first := run[..PAGE_SIZE]], first + 1, run[PAGE_SIZE..])
  }

  function Joined(images: seq<Image>): Bytes {
    if images == [] then [] else images[0].bytes + Joined(images[1..])
  }

  ghost predicate WholePages(images: seq<Image>) {
    forall i :: 0 <= i < |images| ==> |images[i].bytes| == PAGE_SIZE
  }

  ghost predicate Consecutive(images: seq<Image>) {
    forall i :: 0 < i < |images| ==> images[i].page == images[i - 1].page + 1
  }

  lemma {:induction false} JoinedLength(images: seq<Image>)
    requires WholePages(images)
    ensures |Joined(images)| % PAGE_SIZE == 0
    decreases |images|
  {
    if images != [] {
      JoinedLength(images[1..]);
    }
  }

  lemma {:induction false} RunIsSequence(main: MainFile, images: seq<Image>)
    requires WholePages(images) && Consecutive(images) && images != []
    ensures |Joined(images)| % PAGE_SIZE == 0
    ensures WriteRun(main, images[0].page, Joined(images)) == WriteAll(main, images)
    decreases |images|
  {
    JoinedLength(images);
    var run, rest := Joined(images), images[1..];
    assert run[..PAGE_SIZE] == images[0].bytes && run[PAGE_SIZE..] == Joined(rest);
    var main' := main[images[0].page := images[0].bytes];
    if rest != [] {
      RunIsSequence(main', rest);
    } else {
      assert Joined(rest) == [];
    }
  }

  lemma {:induction false} WriteAllAppend(main: MainFile, a: seq<Image>, b: seq<Image>)
    ensures WriteAll(main, a + b) == WriteAll(WriteAll(main, a), b)
    decreases |a|
  {
    if a == [] {
      assert a + b == b;
    } else {
      assert (a + b)[1..] == a[1..] + b;
      WriteAllAppend(main[a[0].page := a[0].bytes], a[1..], b);
    }
  }

  /** The last of `images` for page `p`. */
  function Last(images: seq<Image>, p: PageId): Option<Bytes>
    decreases |images|
  {
    if images == [] then None
    else if images[|images| - 1].page == p then Some(images[|images| - 1].bytes)
    else Last(images[..|images| - 1], p)
  }

  lemma {:induction false} WriteAllAt(main: MainFile, images: seq<Image>, p: PageId)
    ensures p in WriteAll(main, images) <==> Last(images, p).Some? || p in main
    ensures p in WriteAll(main, images) ==> WriteAll(main, images)[p] == if Last(images, p).Some? then Last(images, p).value else main[p]
    decreases |images|
  {
    if images != [] {
      var n := |images| - 1;
      assert images == images[..n] + [images[n]];
      WriteAllAppend(main, images[..n], [images[n]]);
      WriteAllAt(main, images[..n], p);
      var before := WriteAll(main, images[..n]);
      assert WriteAll(before, [images[n]]) == before[images[n].page := images[n].bytes];
    }
  }

  lemma {:induction false} SameLast(main: MainFile, a: seq<Image>, b: seq<Image>)
    requires forall p :: Last(a, p) == Last(b, p)
    ensures WriteAll(main, a) == WriteAll(main, b)
  {
    hide Last, WriteAll;
    forall p: PageId
      ensures p in WriteAll(main, a) <==> p in WriteAll(main, b)
      ensures p in WriteAll(main, a) ==> WriteAll(main, a)[p] == WriteAll(main, b)[p]
    {
      WriteAllAt(main, a, p);
      WriteAllAt(main, b, p);
    }
  }

  // ---------- the latest location of each page ----------

  /** Inserting into a map ordered by page id. */
  function Put(latest: seq<Location>, at: Location): seq<Location> {
    if latest == [] then [at]
    else if latest[0].page < at.page then [latest[0]] + Put(latest[1..], at)
    else if latest[0].page == at.page then [at] + latest[1..]
    else [at] + latest
  }

  function PutAll(latest: seq<Location>, locations: seq<Location>): seq<Location>
    decreases |locations|
  {
    if locations == [] then latest else PutAll(Put(latest, locations[0]), locations[1..])
  }

  ghost predicate Ordered(latest: seq<Location>) {
    forall i, j :: 0 <= i < j < |latest| ==> latest[i].page < latest[j].page
  }

  /** What the log holds at a location. */
  function ImageAt(wal: Bytes, at: Location): Image {
    Image(at.page, ReadAt(wal, at.offset, PAGE_SIZE))
  }

  function ImagesAt(wal: Bytes, locations: seq<Location>): (r: seq<Image>)
    ensures |r| == |locations|
  {
    seq(|locations|, i requires 0 <= i < |locations| => ImageAt(wal, locations[i]))
  }

  /** A file read is cut off at the end of the file. */
  function ReadAt(file: Bytes, offset: nat, len: nat): Bytes {
    if offset >= |file| then [] else if offset + len <= |file| then file[offset..offset + len] else file[offset..]
  }

  lemma {:induction false} PutOrdered(latest: seq<Location>, at: Location)
    requires Ordered(latest)
    ensures Ordered(Put(latest, at))
    ensures forall x :: x in Put(latest, at) ==> x == at || x in latest
    decreases |latest|
  {
    if latest != [] && latest[0].page < at.page {
      PutOrdered(latest[1..], at);
      var rest := Put(latest[1..], at);
      forall j | 0 <= j < |rest| ensures latest[0].page < rest[j].page {
        assert rest[j] in rest;
      }
    }
  }

  lemma {:induction false} ImagesAtAppend(wal: Bytes, a: seq<Location>, b: seq<Location>)
    ensures ImagesAt(wal, a + b) == ImagesAt(wal, a) + ImagesAt(wal, b)
  {
  }

  lemma {:induction false} LastAppend(a: seq<Image>, b: seq<Image>, p: PageId)
    ensures Last(a + b, p) == if Last(b, p).Some? then Last(b, p) else Last(a, p)
    decreases |b|
  {
    if b == [] {
      assert a + b == a;
    } else {
      var n := |b| - 1;
      assert (a + b)[..|a + b| - 1] == a + b[..n];
      LastAppend(a, b[..n], p);
    }
  }

  lemma {:induction false} LastAbsent(images: seq<Image>, p: PageId)
    requires forall i :: 0 <= i < |images| ==> images[i].page != p
    ensures Last(images, p).None?
    decreases |images|
  {
    if images != [] {
      LastAbsent(images[..|images| - 1], p);
    }
  }

  lemma {:induction false} LastOne(image: Image, p: PageId)
    ensures Last([image], p) == if image.page == p then Some(image.bytes) else None
  {
    assert Last([image][..0], p) == None;
  }

  /** Inserting a location overrides that page and no other. */
  lemma {:induction false} LastOfPut(wal: Bytes, latest: seq<Location>, at: Location, p: PageId)
    requires Ordered(latest)
    ensures Last(ImagesAt(wal, Put(latest, at)), p) == Last(ImagesAt(wal, latest) + [ImageAt(wal, at)], p)
    decreases |latest|
  {
    hide ImageAt, Last;
    var images, one := ImagesAt(wal, latest), [ImageAt(wal, at)];
    LastAppend(images, one, p);
    LastOne(ImageAt(wal, at), p);
    PageOfImage(wal, at);
    if latest == [] {
      assert Put(latest, at) == [at] && ImagesAt(wal, [at]) == one && images == [];
      LastAbsent([], p);
    } else {
      var head, tail := [latest[0]], latest[1..];
      assert latest == head + tail;
      ImagesAtAppend(wal, head, tail);
      if latest[0].page < at.page {
        LastOfPut(wal, tail, at, p);
        ImagesAtAppend(wal, head, Put(tail, at));
        LastAppend(ImagesAt(wal, head), ImagesAt(wal, Put(tail, at)), p);
        LastAppend(ImagesAt(wal, head), ImagesAt(wal, tail), p);
        LastAppend(ImagesAt(wal, tail), one, p);
      } else {
        var rest := if latest[0].page == at.page then tail else latest;
        assert ImagesAt(wal, [at]) == one;
        ImagesAtAppend(wal, [at], rest);
        LastAppend(one, ImagesAt(wal, rest), p);
        if p == at.page {
          forall i | 0 <= i < |rest| ensures ImagesAt(wal, rest)[i].page != p {
            PageOfImage(wal, rest[i]);
          }
          LastAbsent(ImagesAt(wal, rest), p);
        } else if latest[0].page == at.page {
          LastAppend(ImagesAt(wal, head), ImagesAt(wal, tail), p);
          assert ImagesAt(wal, head) == [ImageAt(wal, latest[0])];
          LastOne(ImageAt(wal, latest[0]), p);
          PageOfImage(wal, latest[0]);
        }
      }
    }
  }

  lemma {:induction false} PageOfImage(wal: Bytes, at: Location)
    ensures ImageAt(wal, at).page == at.page
  {
  }

  lemma {:induction false} LastOfPutAll(wal: Bytes, latest: seq<Location>, locations: seq<Location>, p: PageId)
    requires Ordered(latest)
    ensures Ordered(PutAll(latest, locations))
    ensures Last(ImagesAt(wal, PutAll(latest, locations)), p) == Last(ImagesAt(wal, latest) + ImagesAt(wal, locations), p)
    decreases |locations|
  {
    hide ImageAt, Last, Put;
    var images := ImagesAt(wal, latest);
    if locations == [] {
      assert images + ImagesAt(wal, locations) == images;
    } else {
      var at, rest := locations[0], locations[1..];
      PutOrdered(latest, at);
      LastOfPutAll(wal, Put(latest, at), rest, p);
      LastOfPut(wal, latest, at, p);
      assert locations == [at] + rest;
      ImagesAtAppend(wal, [at], rest);
      assert ImagesAt(wal, [at]) == [ImageAt(wal, at)];
      assert images + ImagesAt(wal, locations) == (images + [ImageAt(wal, at)]) + ImagesAt(wal, rest);
      LastAppend(ImagesAt(wal, Put(latest, at)), ImagesAt(wal, rest), p);
      LastAppend(images + [ImageAt(wal, at)], ImagesAt(wal, rest), p);
    }
  }

  /** Writing only the latest image of each page leaves the same file as writing all of them. */
  lemma {:induction false} LatestEqualsSequential(wal: Bytes, locations: seq<Location>, main: MainFile)
    ensures Ordered(PutAll([], locations))
    ensures WriteAll(main, ImagesAt(wal, PutAll([], locations))) == WriteAll(main, ImagesAt(wal, locations))
  {
    hide Last, WriteAll, PutAll, ImagesAt;
    var a, b := ImagesAt(wal, PutAll([], locations)), ImagesAt(wal, locations);
    forall p: PageId ensures Last(a, p) == Last(b, p) {
      LastOfPutAll(wal, [], locations, p);
      assert ImagesAt(wal, []) + b == b;
    }
    LastOfPutAll(wal, [], locations, 0);
    SameLast(main, a, b);
  }

  // ---------- replaying ----------

  datatype ReplayResult = Replayed(main: MainFile) | BadImage

  ghost predicate AllVerify(images: seq<Image>) {
    forall i :: 0 <= i < |images| ==> ImageVerifies(images[i].bytes, images[i].page)
  }

  ghost predicate ConsecutivePages(locations: seq<Location>) {
    forall i :: 0 < i < |locations| ==> locations[i].page == locations[i - 1].page + 1
  }

  ghost predicate Adjacent(locations: seq<Location>) {
    forall i :: 0 < i < |locations| ==> locations[i].offset == locations[i - 1].offset + IMAGE_RECORD_LEN
  }

  lemma {:induction false} AdjacentOffsets(locations: seq<Location>, i: nat)
    requires Adjacent(locations) && i < |locations|
    ensures locations[i].offset == locations[0].offset + ImagesLen(i)
    decreases i
  {
    if i > 0 {
      AdjacentOffsets(locations, i - 1);
    }
  }

  /** The page at position `i` of one read that spans adjacent records. */
  function SpanPage(source: Bytes, i: nat, last: bool): Bytes {
    var local := ImagesLen(i);
    var remaining := if local <= |source| then source[local..] else [];
    if last then remaining else if |remaining| <= PAGE_SIZE then remaining else remaining[..PAGE_SIZE]
  }

  lemma {:induction false} SpanIsImages(wal: Bytes, locations: seq<Location>, i: nat)
    requires Adjacent(locations) && i < |locations|
    ensures var source := ReadAt(wal, locations[0].offset, ImagesLen(|locations| - 1) + PAGE_SIZE);
            SpanPage(source, i, i + 1 == |locations|) == ImageAt(wal, locations[i]).bytes
  {
    AdjacentOffsets(locations, i);
    var start, n := locations[0].offset, ImagesLen(|locations| - 1) + PAGE_SIZE;
    var source, at := ReadAt(wal, start, n), ImagesLen(i);
    if i + 1 < |locations| {
      assert at + PAGE_SIZE <= n;
    }
    if start + at <= |wal| {
      assert source[at..] == if start + n <= |wal| then wal[start + at..start + n] else wal[start + at..];
    }
  }

  /** Reads the pages of one span of adjacent records. */
  method ReadSpan(wal: Bytes, locations: seq<Location>) returns (images: seq<Image>, ok: bool)
    requires locations != [] && Adjacent(locations)
    ensures ok <==> AllVerify(ImagesAt(wal, locations))
    ensures ok ==> images == ImagesAt(wal, locations)
  {
    hide ImageVerifies, SpanPage, ReadAt;
    var source := ReadAt(wal, locations[0].offset, ImagesLen(|locations| - 1) + PAGE_SIZE);
    images := [];
    var i: nat := 0;
    while i < |locations|
      invariant i <= |locations| && |images| == i
      invariant images == ImagesAt(wal, locations)[..i]
      invariant AllVerify(images)
    {
      SpanIsImages(wal, locations, i);
      var bytes := SpanPage(source, i, i + 1 == |locations|);
      if !ImageVerifies(bytes, locations[i].page) {
        assert ImagesAt(wal, locations)[i] == Image(locations[i].page, bytes);
        return images, false;
      }
      images := images + [Image(locations[i].page, bytes)];
      i := i + 1;
    }
    return images, true;
  }

  /** The longest run of adjacent records from `start`. */
  method SpanEnd(locations: seq<Location>, start: nat) returns (end: nat)
    requires start < |locations|
    ensures start < end <= |locations| && Adjacent(locations[start..end])
    ensures end < |locations| ==> locations[end].offset != locations[end - 1].offset + IMAGE_RECORD_LEN
  {
    end := start + 1;
    while end < |locations| && locations[end - 1].offset + IMAGE_RECORD_LEN == locations[end].offset
      invariant start < end <= |locations|
      invariant forall i :: start < i < end ==> locations[i].offset == locations[i - 1].offset + IMAGE_RECORD_LEN
    {
      end := end + 1;
    }
  }

  /** Reads a batch of consecutive pages by spans, and writes it at once. */
  method ReplayPageBatch(wal: Bytes, main: MainFile, locations: seq<Location>) returns (r: ReplayResult)
    requires ConsecutivePages(locations)
    ensures r.Replayed? <==> AllVerify(ImagesAt(wal, locations))
    ensures r.Replayed? ==> r.main == WriteAll(main, ImagesAt(wal, locations))
  {
    hide ImageVerifies, ReadAt, WriteAll, WriteRun, Joined, ImageAt, AllVerify, Adjacent, Consecutive, WholePages;
    var images: seq<Image> := [];
    assert AllVerify(images) by { NoneToVerify(); }
    var start: nat := 0;
    while start < |locations|
      invariant start <= |locations|
      invariant images == ImagesAt(wal, locations)[..start]
      invariant AllVerify(images)
    {
      var end := SpanEnd(locations, start);
      var span, ok := ReadSpan(wal, locations[start..end]);
      SpanOfImages(wal, locations, start, end);
      if !ok {
        return BadImage;
      }
      images := images + span;
      start := end;
    }
    assert images == ImagesAt(wal, locations);
    if images == [] {
      assert WriteAll(main, []) == main by { WriteNothing(main); }
      return Replayed(main);
    }
    BatchWritable(wal, locations);
    RunIsSequence(main, images);
    return Replayed(WriteRun(main, images[0].page, Joined(images)));
  }

  lemma {:induction false} WriteNothing(main: MainFile)
    ensures WriteAll(main, []) == main
  {
  }

  lemma {:induction false} NoneToVerify()
    ensures AllVerify([])
  {
    hide ImageVerifies;
  }

  lemma {:induction false} SpanOfImages(wal: Bytes, locations: seq<Location>, start: nat, end: nat)
    requires start <= end <= |locations|
    ensures var images := ImagesAt(wal, locations);
            && images[start..end] == ImagesAt(wal, locations[start..end])
            && images[..end] == images[..start] + images[start..end]
            && (AllVerify(images) ==> AllVerify(images[start..end]))
            && (AllVerify(images[..start]) && AllVerify(images[start..end]) ==> AllVerify(images[..end]))
  {
    hide ImageVerifies, ImageAt;
    var images := ImagesAt(wal, locations);
    assert images[start..end] == ImagesAt(wal, locations[start..end]);
    assert images[..end] == images[..start] + images[start..end];
  }

  lemma {:induction false} BatchWritable(wal: Bytes, locations: seq<Location>)
    requires ConsecutivePages(locations) && AllVerify(ImagesAt(wal, locations))
    ensures WholePages(ImagesAt(wal, locations)) && Consecutive(ImagesAt(wal, locations))
  {
    hide ReadHeader;
    var images := ImagesAt(wal, locations);
    forall i | 0 <= i < |images| ensures |images[i].bytes| == PAGE_SIZE {
      assert ImageVerifies(images[i].bytes, images[i].page);
    }
  }

  /** Replays the latest images in page order, in batches of consecutive pages. */
  method ReplayLatestPages(wal: Bytes, main: MainFile, latest: seq<Location>) returns (r: ReplayResult)
    ensures r.Replayed? <==> AllVerify(ImagesAt(wal, latest))
    ensures r.Replayed? ==> r.main == WriteAll(main, ImagesAt(wal, latest))
  {
    hide ImageVerifies, WriteAll, ImageAt;
    var file, batch := main, [];
    var done: nat := 0;
    var i: nat := 0;
    WriteNothing(main);
    ghost var images := ImagesAt(wal, latest);
    while i < |latest|
      invariant done <= i <= |latest| && batch == latest[done..i] && ConsecutivePages(batch)
      invariant file == WriteAll(main, images[..done]) && AllVerify(images[..done])
    {
      if |batch| == PAGE_WRITE_BATCH_PAGES || (batch != [] && batch[|batch| - 1].page + 1 != latest[i].page) {
        var step := ReplayPageBatch(wal, file, batch);
        BatchStep(wal, main, latest, done, i);
        if step.BadImage? {
          return BadImage;
        }
        file, batch, done := step.main, [], i;
      }
      batch := batch + [latest[i]];
      i := i + 1;
    }
    var step := ReplayPageBatch(wal, file, batch);
    BatchStep(wal, main, latest, done, i);
    assert images[..i] == images;
    return step;
  }

  lemma {:induction false} BatchStep(wal: Bytes, main: MainFile, latest: seq<Location>, done: nat, i: nat)
    requires done <= i <= |latest|
    ensures var images := ImagesAt(wal, latest);
            && ImagesAt(wal, latest[done..i]) == images[done..i]
            && WriteAll(main, images[..i]) == WriteAll(WriteAll(main, images[..done]), images[done..i])
            && (AllVerify(images[..done]) && AllVerify(images[done..i]) ==> AllVerify(images[..i]))
            && (AllVerify(images) ==> AllVerify(images[done..i]))
  {
    hide ImageVerifies, WriteAll, ImageAt;
    var images := ImagesAt(wal, latest);
    assert images[..i] == images[..done] + images[done..i];
    WriteAllAppend(main, images[..done], images[done..i]);
    assert ImagesAt(wal, latest[done..i]) == images[done..i];
    if AllVerify(images[..done]) && AllVerify(images[done..i]) {
      forall k | 0 <= k < i ensures ImageVerifies(images[..i][k].bytes, images[..i][k].page) {
        if k >= done {
          assert images[done..i][k - done] == images[k];
        } else {
          assert images[..done][k] == images[k];
        }
      }
    }
  }

  // ---------- a log replayed whole ----------

  function AllLocations(visits: seq<Visit>): seq<Location> {
    if visits == [] then [] else visits[0].pages + AllLocations(visits[1..])
  }

  function AllImages(txs: seq<Tx>): seq<Image> {
    if txs == [] then [] else txs[0].images + AllImages(txs[1..])
  }

  /** The locations a scan reports read back, in order, every image of the log. */
  lemma {:induction false} LocationsReadImages(txs: seq<Tx>, lastTxid: nat, lastNext: PageId, wal: Bytes, offset: nat, torn: Bytes)
    requires ValidLog(txs, lastTxid, lastNext) && offset <= |wal| && wal[offset..] == Log(txs) + torn
    ensures ImagesAt(wal, AllLocations(VisitsOf(txs, offset))) == AllImages(txs)
    decreases |txs|
  {
    hide EncodeAll, RecordsOf, ImageVerifies, ImagesLen, Holds, ImageAt;
    if txs != [] {
      var tx := txs[0];
      var e, rest := EncodeAll(RecordsOf(tx)), Log(txs[1..]) + torn;
      Associates(e, Log(txs[1..]), torn);
      SplitView(wal, offset, e, rest);
      TxSize(tx);
      LocationsReadImages(txs[1..], tx.txid, tx.next, wal, offset + |e|, torn);
      var here := LocationsOf(tx.images, offset);
      forall k | 0 <= k < |tx.images| ensures ImageAt(wal, here[k]) == tx.images[k] {
        LocationsHoldImages(txs, lastTxid, lastNext, wal, offset, torn, 0, k);
        HeldImage(wal, here[k], tx.images[k]);
      }
      assert ImagesAt(wal, here) == tx.images;
      ImagesAtAppend(wal, here, AllLocations(VisitsOf(txs[1..], offset + |e|)));
      assert VisitsOf(txs, offset) == [VisitOf(tx, offset)] + VisitsOf(txs[1..], offset + |e|);
    }
  }

  lemma {:induction false} HeldImage(wal: Bytes, at: Location, image: Image)
    requires at.page == image.page && |image.bytes| == PAGE_SIZE && Holds(wal, at.offset, image.bytes)
    ensures ImageAt(wal, at) == image
  {
  }

  /**
   * Replaying the latest images found by scanning a log leaves the main file that
   * replaying every image of every complete transaction in order would leave.
   */
  lemma {:induction false} ReplayIsSequential(txs: seq<Tx>, torn: Bytes, main: MainFile)
    requires ValidLog(txs, 0, 0)
    ensures var wal := Log(txs) + torn;
            var locations := AllLocations(VisitsOf(txs, 0));
            WriteAll(main, ImagesAt(wal, PutAll([], locations))) == WriteAll(main, AllImages(txs))
  {
    hide WriteAll, ImagesAt, PutAll, AllImages, ValidLog, Log, VisitsOf;
    var wal := Log(txs) + torn;
    assert wal[0..] == wal;
    LocationsReadImages(txs, 0, 0, wal, 0, torn);
    LatestEqualsSequential(wal, AllLocations(VisitsOf(txs, 0)), main);
  }
}
