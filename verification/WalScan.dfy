/** Appending transactions to the log and scanning them back. */
module WalScan {
  import opened Keys
  import opened Numbers
  import opened Pages
  import opened Crc
  import opened CrcShortcuts
  import opened PageHeaders
  import opened WalRecords

  const IMAGE_RECORD_LEN := RECORD_HEADER_LEN + IMAGE_PAYLOAD_LEN
  const COMMIT_RECORD_LEN := RECORD_HEADER_LEN + COMMIT_PAYLOAD_LEN
  const IMAGE_OFFSET := RECORD_HEADER_LEN + IMAGE_BODY_HEADER_LEN
  const WAL_ENCODING_BATCH_BYTES := 256 * 1024

  datatype Image = Image(page: PageId, bytes: Bytes)

  /** A committed transaction: page images and the roots they publish. */
  datatype Tx = Tx(txid: nat, images: seq<Image>, root: PageId, next: PageId)

  function CommitOf(tx: Tx): CommitRecord {
    CommitRecord(tx.txid, tx.root, tx.next, |tx.images|)
  }

  function ImageRecords(txid: nat, images: seq<Image>): (r: seq<Record>)
    ensures |r| == |images|
  {
    seq(|images|, i requires 0 <= i < |images| => ImageRecord(txid, images[i].page, images[i].bytes))
  }

  function RecordsOf(tx: Tx): seq<Record> {
    ImageRecords(tx.txid, tx.images) + [CommitMark(CommitOf(tx))]
  }

  function EncodeAll(rs: seq<Record>): Bytes {
    if rs == [] then [] else Encode(rs[0]) + EncodeAll(rs[1..])
  }

  function Log(txs: seq<Tx>): Bytes {
    if txs == [] then [] else EncodeAll(RecordsOf(txs[0])) + Log(txs[1..])
  }

  ghost predicate TxEncodable(tx: Tx) {
    && tx.txid < U64 && tx.root < U64 && tx.next < U64 && |tx.images| < U32
    && forall i :: 0 <= i < |tx.images| ==> tx.images[i].page < U64 && |tx.images[i].bytes| == PAGE_SIZE
  }

  /** What the engine appends: verified images inside the file and a catalog root inside it. */
  ghost predicate TxValid(tx: Tx) {
    && TxEncodable(tx)
    && 0 < tx.root < tx.next
    && forall i :: 0 <= i < |tx.images| ==> ImageVerifies(tx.images[i].bytes, tx.images[i].page) && tx.images[i].page < tx.next
  }

  /** Transaction ids increase and the file never shrinks. */
  ghost predicate ValidLog(txs: seq<Tx>, lastTxid: nat, lastNext: PageId) {
    txs != [] ==>
      && TxValid(txs[0]) && lastTxid < txs[0].txid && lastNext <= txs[0].next
      && ValidLog(txs[1..], txs[0].txid, txs[0].next)
  }

  // ---------- the scanner ----------

  datatype Location = Location(page: PageId, offset: nat)

  /** A visited commit: where its images are, and where its records end. */
  datatype Visit = Visit(commit: CommitRecord, pages: seq<Location>, end: nat)

  datatype Scan = Scan(visits: seq<Visit>, pendingTxid: Option<nat>, pages: seq<Location>, invalid: bool, lastTxid: nat, lastNext: Option<PageId>)

  datatype Move = Stop | Corrupt | Go(scan: Scan)

  datatype Outcome = Scanned(visits: seq<Visit>) | Corruption

  function RecordLen(read: Read): nat {
    if read.GotImage? then IMAGE_RECORD_LEN else COMMIT_RECORD_LEN
  }

  function TakeCommit(s: Scan, c: CommitRecord, end: nat): Move {
    if !(if s.pendingTxid.Some? then s.pendingTxid.value == c.txid else c.count == 0) || |s.pages| != c.count then Stop
    else if s.invalid then Corrupt
    else if c.txid <= s.lastTxid then Corrupt
    else if c.root == 0 || c.root >= c.next then Corrupt
    else if exists i :: 0 <= i < |s.pages| && s.pages[i].page >= c.next then Corrupt
    else if s.lastNext.Some? && c.next < s.lastNext.value then Corrupt
    else Go(Scan(s.visits + [Visit(c, s.pages, end)], None, [], false, c.txid, Some(c.next)))
  }

  function Take(s: Scan, read: Read, offset: nat): Move {
    match read
    case NoRecord => Stop
    case Unsupported => Corrupt
    case GotImage(txid, page, pageLen, image) =>
      if s.pendingTxid.Some? && s.pendingTxid.value != txid then Stop
      else
        var bad := pageLen != PAGE_SIZE || !ImageVerifies(image, page);
        Go(s.(pendingTxid := Some(txid), invalid := s.invalid || bad, pages := s.pages + [Location(page, offset + IMAGE_OFFSET)]))
    case GotCommit(c) => TakeCommit(s, c, offset + COMMIT_RECORD_LEN)
  }

  const START := Scan([], None, [], false, 0, None)

  lemma {:induction false} ReadFits(view: Bytes)
    ensures ReadRecord(view).GotImage? || ReadRecord(view).GotCommit? ==> RecordLen(ReadRecord(view)) <= |view|
  {
    hide Crc32, LittleEndian, NatOf;
  }

  function ScanFrom(wal: Bytes, offset: nat, s: Scan): Outcome
    requires offset <= |wal|
    decreases |wal| - offset
  {
    var read := ReadRecord(wal[offset..]);
    match Take(s, read, offset)
    case Stop => Scanned(s.visits)
    case Corrupt => Corruption
    case Go(s') =>
      ReadFits(wal[offset..]);
      ScanFrom(wal, offset + RecordLen(read), s')
  }

  /** The scan loop. */
  method VisitTransactions(wal: Bytes) returns (r: Outcome)
    ensures r == ScanFrom(wal, 0, START)
  {
    hide ReadRecord, Take;
    var offset: nat := 0;
    var s := START;
    while |wal| - offset >= RECORD_HEADER_LEN
      invariant offset <= |wal|
      invariant ScanFrom(wal, offset, s) == ScanFrom(wal, 0, START)
      decreases |wal| - offset
    {
      var read := ReadRecord(wal[offset..]);
      ReadFits(wal[offset..]);
      TakeProgress(s, read, offset);
      var move := Take(s, read, offset);
      if move.Corrupt? {
        return Corruption;
      }
      if move.Stop? {
        break;
      }
      s := move.scan;
      offset := offset + RecordLen(read);
    }
    assert |wal| - offset < RECORD_HEADER_LEN ==> Take(s, ReadRecord(wal[offset..]), offset) == Stop by {
      ShortView(wal[offset..], s, offset);
    }
    r := Scanned(s.visits);
  }

  // ---------- whatever is scanned is sound ----------

  ghost predicate HoldsPage(wal: Bytes, at: Location) {
    at.offset + PAGE_SIZE <= |wal| && ImageVerifies(wal[at.offset..at.offset + PAGE_SIZE], at.page)
  }

  /** A visit with its images in place and verified, within the file its commit describes. */
  ghost predicate SoundVisit(wal: Bytes, v: Visit) {
    && |v.pages| == v.commit.count && 0 < v.commit.root < v.commit.next
    && forall i :: 0 <= i < |v.pages| ==> v.pages[i].page < v.commit.next && HoldsPage(wal, v.pages[i])
  }

  ghost predicate SoundVisits(wal: Bytes, visits: seq<Visit>) {
    && (forall i :: 0 <= i < |visits| ==> SoundVisit(wal, visits[i]) && 0 < visits[i].commit.txid)
    && forall i, j :: 0 <= i < j < |visits| ==> visits[i].commit.txid < visits[j].commit.txid && visits[i].commit.next <= visits[j].commit.next
  }

  ghost predicate SoundScan(wal: Bytes, s: Scan) {
    && SoundVisits(wal, s.visits)
    && s.lastTxid == (if s.visits == [] then 0 else s.visits[|s.visits| - 1].commit.txid)
    && s.lastNext == (if s.visits == [] then None else Some(s.visits[|s.visits| - 1].commit.next))
    && (!s.invalid ==> forall i :: 0 <= i < |s.pages| ==> HoldsPage(wal, s.pages[i]))
  }

  /** The image that a record reads as lies behind its header. */
  lemma {:induction false} ReadImageLies(view: Bytes)
    requires ReadRecord(view).GotImage?
    ensures IMAGE_OFFSET + PAGE_SIZE <= |view| && ReadRecord(view).image == view[IMAGE_OFFSET..IMAGE_OFFSET + PAGE_SIZE]
  {
    hide Crc32, LittleEndian, NatOf;
  }

  lemma {:induction false} TakeSound(wal: Bytes, s: Scan, offset: nat)
    requires offset <= |wal| && SoundScan(wal, s) && Take(s, ReadRecord(wal[offset..]), offset).Go?
    ensures SoundScan(wal, Take(s, ReadRecord(wal[offset..]), offset).scan)
  {
    hide ReadRecord, ImageVerifies;
    var read := ReadRecord(wal[offset..]);
    TakeProgress(s, read, offset);
    if read.GotImage? {
      ReadImageLies(wal[offset..]);
      var at := Location(read.page, offset + IMAGE_OFFSET);
      assert wal[at.offset..at.offset + PAGE_SIZE] == wal[offset..][IMAGE_OFFSET..IMAGE_OFFSET + PAGE_SIZE];
    } else {
      CommitSound(wal, s, read.commit, offset + COMMIT_RECORD_LEN);
    }
  }

  lemma {:induction false} CommitSound(wal: Bytes, s: Scan, c: CommitRecord, end: nat)
    requires SoundScan(wal, s) && TakeCommit(s, c, end).Go?
    ensures SoundScan(wal, TakeCommit(s, c, end).scan)
  {
    hide HoldsPage;
    var n := |s.visits|;
    var visits := s.visits + [Visit(c, s.pages, end)];
    assert SoundVisit(wal, visits[n]);
    forall i | 0 <= i < n ensures visits[i].commit.txid < c.txid && visits[i].commit.next <= c.next {
      assert i < n - 1 ==> s.visits[i].commit.txid < s.visits[n - 1].commit.txid && s.visits[i].commit.next <= s.visits[n - 1].commit.next;
    }
  }

  lemma {:induction false} ScanSound(wal: Bytes, offset: nat, s: Scan)
    requires offset <= |wal| && SoundScan(wal, s)
    ensures ScanFrom(wal, offset, s).Scanned? ==> SoundVisits(wal, ScanFrom(wal, offset, s).visits)
    decreases |wal| - offset
  {
    hide ReadRecord, Take, SoundVisits;
    var read := ReadRecord(wal[offset..]);
    ReadFits(wal[offset..]);
    TakeProgress(s, read, offset);
    if Take(s, read, offset).Go? {
      TakeSound(wal, s, offset);
      ScanSound(wal, offset + RecordLen(read), Take(s, read, offset).scan);
    }
  }

  /**
   * On any bytes whatever: the transactions that a scan visits have increasing ids, catalog roots
   * and pages within their file, which never shrinks, and exactly the images they announce, each
   * of which verifies where the scan says it is.
   */
  lemma {:induction false} VisitedIsSound(wal: Bytes)
    ensures ScanFrom(wal, 0, START).Scanned? ==> SoundVisits(wal, ScanFrom(wal, 0, START).visits)
  {
    ScanSound(wal, 0, START);
  }

  lemma {:induction false} TakeProgress(s: Scan, read: Read, offset: nat)
    ensures Take(s, read, offset).Go? ==> read.GotImage? || read.GotCommit?
  {
    hide ImageVerifies, TakeCommit;
  }

  lemma {:induction false} ShortView(view: Bytes, s: Scan, offset: nat)
    ensures |view| < RECORD_HEADER_LEN ==> Take(s, ReadRecord(view), offset) == Stop
  {
    hide Crc32, LittleEndian, NatOf, ImageVerifies, TakeCommit;
  }

  // ---------- scanning encoded records ----------

  function ScanRecords(rs: seq<Record>, offset: nat, s: Scan): Outcome
    decreases |rs|
  {
    if rs == [] then Scanned(s.visits)
    else
      match Take(s, Readback(rs[0]), offset)
      case Stop => Scanned(s.visits)
      case Corrupt => Corruption
      case Go(s') => ScanRecords(rs[1..], offset + RecordLen(Readback(rs[0])), s')
  }

  ghost predicate AllEncodable(rs: seq<Record>) {
    forall i :: 0 <= i < |rs| ==> Encodable(rs[i])
  }

  lemma {:induction false} EncodedLength(r: Record)
    requires Encodable(r)
    ensures |Encode(r)| == RecordLen(Readback(r))
  {
    hide Le, Crc32, LittleEndian;
    PayloadLength(r);
  }

  lemma {:induction false} ScanStep(wal: Bytes, offset: nat, s: Scan, read: Read)
    requires offset <= |wal| && read == ReadRecord(wal[offset..])
    ensures Take(s, read, offset).Stop? ==> ScanFrom(wal, offset, s) == Scanned(s.visits)
    ensures Take(s, read, offset).Corrupt? ==> ScanFrom(wal, offset, s) == Corruption
    ensures Take(s, read, offset).Go? ==>
              offset + RecordLen(read) <= |wal| && ScanFrom(wal, offset, s) == ScanFrom(wal, offset + RecordLen(read), Take(s, read, offset).scan)
  {
    ReadFits(wal[offset..]);
    TakeProgress(s, read, offset);
    hide ReadRecord, Take, RecordLen;
  }

  lemma {:induction false} SplitView(wal: Bytes, offset: nat, e: Bytes, rest: Bytes)
    requires offset <= |wal| && wal[offset..] == e + rest
    ensures offset + |e| <= |wal| && wal[offset + |e|..] == rest && e <= wal[offset..]
  {
    assert wal[offset + |e|..] == wal[offset..][|e|..];
  }

  lemma {:induction false} EncodeFirst(rs: seq<Record>, tail: Bytes)
    requires rs != []
    ensures EncodeAll(rs) + tail == Encode(rs[0]) + (EncodeAll(rs[1..]) + tail)
  {
    assert EncodeAll(rs) == Encode(rs[0]) + EncodeAll(rs[1..]);
    hide Encode, EncodeAll;
    Associates(Encode(rs[0]), EncodeAll(rs[1..]), tail);
  }

  lemma {:induction false} Associates(a: Bytes, b: Bytes, c: Bytes)
    ensures (a + b) + c == a + (b + c)
  {
  }

  /** Scanning the bytes of records, up to bytes that hold no record, is scanning the records. */
  lemma {:induction false} ScanBytes(rs: seq<Record>, tail: Bytes, wal: Bytes, offset: nat, s: Scan)
    requires offset <= |wal| && wal[offset..] == EncodeAll(rs) + tail
    requires AllEncodable(rs) && ReadRecord(tail) == NoRecord
    ensures ScanFrom(wal, offset, s) == ScanRecords(rs, offset, s)
    decreases |rs|
  {
    hide ReadRecord, Take, Encode, Readback, ScanFrom, EncodeAll, Encodable, RecordLen;
    if rs == [] {
      NoRecords();
      assert wal[offset..] == tail;
      TakeNothing(s, offset);
      ScanStep(wal, offset, s, NoRecord);
    } else {
      var rest := EncodeAll(rs[1..]) + tail;
      EncodeFirst(rs, tail);
      SplitView(wal, offset, Encode(rs[0]), rest);
      RecordReadsBack(rs[0], wal[offset..]);
      EncodedLength(rs[0]);
      ScanStep(wal, offset, s, Readback(rs[0]));
      var move := Take(s, Readback(rs[0]), offset);
      if move.Go? {
        ScanBytes(rs[1..], tail, wal, offset + |Encode(rs[0])|, move.scan);
      }
    }
  }

  lemma {:induction false} TakeNothing(s: Scan, offset: nat)
    ensures Take(s, NoRecord, offset) == Stop
  {
    hide ImageVerifies, TakeCommit;
  }

  // ---------- one transaction ----------

  function ImagesLen(k: nat): nat {
    4136 * k
  }

  lemma {:induction false} NoImages()
    ensures ImagesLen(0) == 0
  {
  }

  lemma {:induction false} ImagesLenStep(k: nat)
    ensures ImagesLen(k + 1) == ImagesLen(k) + IMAGE_RECORD_LEN
  {
  }

  function LocationsOf(images: seq<Image>, offset: nat): (r: seq<Location>)
    ensures |r| == |images|
  {
    seq(|images|, i requires 0 <= i < |images| => Location(images[i].page, offset + ImagesLen(i) + IMAGE_OFFSET))
  }

  function TxLen(tx: Tx): nat {
    ImagesLen(|tx.images|) + COMMIT_RECORD_LEN
  }

  function VisitOf(tx: Tx, offset: nat): Visit {
    Visit(CommitOf(tx), LocationsOf(tx.images, offset), offset + TxLen(tx))
  }

  function VisitsOf(txs: seq<Tx>, offset: nat): seq<Visit> {
    if txs == [] then [] else [VisitOf(txs[0], offset)] + VisitsOf(txs[1..], offset + TxLen(txs[0]))
  }

  /** The scanner between two transactions. */
  ghost predicate Idle(s: Scan) {
    s.pendingTxid.None? && s.pages == [] && !s.invalid
  }

  /** The scanner after the first `k` images of `tx`. */
  function After(s: Scan, tx: Tx, offset: nat, k: nat): Scan
    requires k <= |tx.images|
  {
    if k == 0 then s
    else s.(pendingTxid := Some(tx.txid), pages := LocationsOf(tx.images[..k], offset))
  }

  ghost predicate ImagesVerify(images: seq<Image>) {
    forall i :: 0 <= i < |images| ==> ImageVerifies(images[i].bytes, images[i].page)
  }

  lemma {:induction false} TakeImage(s: Scan, tx: Tx, offset: nat, k: nat)
    requires Idle(s) && k < |tx.images| && ImagesVerify(tx.images)
    ensures Take(After(s, tx, offset, k), Readback(ImageRecords(tx.txid, tx.images)[k]), offset + ImagesLen(k)) == Go(After(s, tx, offset, k + 1))
  {
    hide ImageVerifies, TakeCommit, ImagesLen;
    assert tx.images[..k + 1] == tx.images[..k] + [tx.images[k]];
    assert LocationsOf(tx.images[..k + 1], offset) == LocationsOf(tx.images[..k], offset) + [Location(tx.images[k].page, offset + ImagesLen(k) + IMAGE_OFFSET)];
    assert After(s, tx, offset, k).pages == LocationsOf(tx.images[..k], offset);
  }

  /** Scanning the images of `tx` from number `k` to number `n`. */
  lemma {:induction false} ScanImages(s: Scan, tx: Tx, offset: nat, k: nat, n: nat, rest: seq<Record>)
    requires Idle(s) && k <= n <= |tx.images| && ImagesVerify(tx.images)
    ensures ScanRecords(ImageRecords(tx.txid, tx.images)[k..n] + rest, offset + ImagesLen(k), After(s, tx, offset, k))
         == ScanRecords(rest, offset + ImagesLen(n), After(s, tx, offset, n))
    decreases n - k
  {
    hide Take, After, ImagesLen, Idle, ImagesVerify;
    var rs := ImageRecords(tx.txid, tx.images);
    if k == n {
      assert rs[k..n] + rest == rest;
    } else {
      TakeImage(s, tx, offset, k);
      assert (rs[k..n] + rest)[0] == rs[k] && (rs[k..n] + rest)[1..] == rs[k + 1..n] + rest;
      ImagesLenStep(k);
      ScanImages(s, tx, offset, k + 1, n, rest);
    }
  }

  ghost predicate Follows(s: Scan, tx: Tx) {
    s.lastTxid < tx.txid && (s.lastNext.Some? ==> s.lastNext.value <= tx.next)
  }

  function Visited(s: Scan, tx: Tx, offset: nat): Scan {
    Scan(s.visits + [VisitOf(tx, offset)], None, [], false, tx.txid, Some(tx.next))
  }

  lemma {:induction false} TakeCommitMark(s: Scan, tx: Tx, offset: nat)
    requires Idle(s) && TxValid(tx) && Follows(s, tx)
    ensures Take(After(s, tx, offset, |tx.images|), GotCommit(CommitOf(tx)), offset + ImagesLen(|tx.images|)) == Go(Visited(s, tx, offset))
  {
    hide ImageVerifies;
    var n := |tx.images|;
    var a := After(s, tx, offset, n);
    assert tx.images[..n] == tx.images;
    assert a.pages == LocationsOf(tx.images, offset);
    assert forall i :: 0 <= i < n ==> a.pages[i].page == tx.images[i].page;
  }

  /** A complete transaction is visited. */
  lemma {:induction false} ScanTx(s: Scan, tx: Tx, offset: nat, rest: seq<Record>)
    requires Idle(s) && TxValid(tx) && Follows(s, tx)
    ensures ScanRecords(RecordsOf(tx) + rest, offset, s) == ScanRecords(rest, offset + TxLen(tx), Visited(s, tx, offset))
  {
    hide Take, ImageVerifies;
    var n, rs := |tx.images|, ImageRecords(tx.txid, tx.images);
    var mark := [CommitMark(CommitOf(tx))] + rest;
    assert RecordsOf(tx) + rest == rs[0..n] + mark;
    ScanImages(s, tx, offset, 0, n, mark);
    TakeCommitMark(s, tx, offset);
    assert mark[1..] == rest;
  }

  /** A transaction cut before its commit record is not visited. */
  lemma {:induction false} ScanPartial(s: Scan, tx: Tx, offset: nat, n: nat)
    requires Idle(s) && n <= |tx.images| && ImagesVerify(tx.images)
    ensures ScanRecords(RecordsOf(tx)[..n], offset, s) == Scanned(s.visits)
  {
    hide Take, ImageVerifies;
    var rs := ImageRecords(tx.txid, tx.images);
    assert RecordsOf(tx)[..n] == rs[0..n] + [];
    ScanImages(s, tx, offset, 0, n, []);
  }

  // ---------- whole logs ----------

  function AllRecords(txs: seq<Tx>): seq<Record> {
    if txs == [] then [] else RecordsOf(txs[0]) + AllRecords(txs[1..])
  }

  lemma {:induction false} ScanTxs(s: Scan, txs: seq<Tx>, offset: nat, rest: seq<Record>, last: Tx, n: nat)
    requires Idle(s) && ValidLog(txs, s.lastTxid, if s.lastNext.Some? then s.lastNext.value else 0)
    requires n <= |last.images| && rest == RecordsOf(last)[..n]
    requires ImagesVerify(last.images)
    ensures ScanRecords(AllRecords(txs) + rest, offset, s) == Scanned(s.visits + VisitsOf(txs, offset))
    decreases |txs|
  {
    hide Take, ImageVerifies, RecordsOf, ScanRecords, TxValid, ImagesVerify, VisitOf;
    if txs == [] {
      assert AllRecords(txs) + rest == rest;
      ScanPartial(s, last, offset, n);
    } else {
      var tx, more := txs[0], AllRecords(txs[1..]) + rest;
      AssociateRecords(RecordsOf(tx), AllRecords(txs[1..]), rest);
      ScanTx(s, tx, offset, more);
      ScanTxs(Visited(s, tx, offset), txs[1..], offset + TxLen(tx), rest, last, n);
      AssociateVisits(s.visits, [VisitOf(tx, offset)], VisitsOf(txs[1..], offset + TxLen(tx)));
    }
  }

  lemma {:induction false} AssociateRecords(a: seq<Record>, b: seq<Record>, c: seq<Record>)
    ensures (a + b) + c == a + (b + c)
  {
  }

  lemma {:induction false} AssociateVisits(a: seq<Visit>, b: seq<Visit>, c: seq<Visit>)
    ensures (a + b) + c == a + (b + c)
  {
  }

  lemma {:induction false} EncodeAllAppend(a: seq<Record>, b: seq<Record>)
    ensures EncodeAll(a + b) == EncodeAll(a) + EncodeAll(b)
    decreases |a|
  {
    hide Encode;
    if a == [] {
      assert a + b == b;
    } else {
      assert (a + b)[1..] == a[1..] + b;
      EncodeAllAppend(a[1..], b);
    }
  }

  lemma {:induction false} LogIsRecords(txs: seq<Tx>)
    ensures Log(txs) == EncodeAll(AllRecords(txs))
    decreases |txs|
  {
    hide RecordsOf, EncodeAll;
    if txs == [] {
      assert EncodeAll([]) == [] by { NoRecords(); }
    } else {
      LogIsRecords(txs[1..]);
      EncodeAllAppend(RecordsOf(txs[0]), AllRecords(txs[1..]));
    }
  }

  lemma {:induction false} NoRecords()
    ensures EncodeAll([]) == []
  {
  }

  lemma {:induction false} TxRecordsEncodable(tx: Tx)
    requires TxEncodable(tx)
    ensures AllEncodable(RecordsOf(tx))
  {
  }

  lemma {:induction false} LogEncodable(txs: seq<Tx>, lastTxid: nat, lastNext: PageId)
    requires ValidLog(txs, lastTxid, lastNext)
    ensures AllEncodable(AllRecords(txs))
    decreases |txs|
  {
    hide TxEncodable, ImageVerifies, RecordsOf, Encodable;
    if txs != [] {
      TxRecordsEncodable(txs[0]);
      LogEncodable(txs[1..], txs[0].txid, txs[0].next);
    }
  }

  lemma {:induction false} PrefixOfJoin(t: Bytes, e: Bytes, rest: Bytes)
    requires t <= e + rest
    ensures |t| < |e| ==> t <= e
    ensures |t| >= |e| ==> t[|e|..] <= rest && t == e + t[|e|..]
  {
    assert t == (e + rest)[..|t|];
    if |t| < |e| {
      assert t == e[..|t|];
    } else {
      assert t[|e|..] == rest[..|t| - |e|];
    }
  }

  /** Bytes cut anywhere inside encoded records are some whole records and a torn one. */
  lemma {:induction false} CutRecords(rs: seq<Record>, t: Bytes) returns (n: nat, torn: Bytes)
    requires AllEncodable(rs) && t <= EncodeAll(rs) && |t| < |EncodeAll(rs)|
    ensures n < |rs| && t == EncodeAll(rs[..n]) + torn && ReadRecord(torn) == NoRecord
    decreases |rs|
  {
    hide ReadRecord, Encode, EncodeAll, Encodable;
    NoRecords();
    var e, rest := Encode(rs[0]), EncodeAll(rs[1..]);
    assert EncodeAll(rs) == e + rest by { EncodeRest(rs); }
    PrefixOfJoin(t, e, rest);
    if |t| < |e| {
      n, torn := 0, t;
      TornRecordEnds(rs[0], t);
      assert rs[..0] == [];
    } else {
      var m;
      m, torn := CutRecords(rs[1..], t[|e|..]);
      n := m + 1;
      EncodePrefix(rs, m);
      Associates(e, EncodeAll(rs[1..][..m]), torn);
    }
  }

  lemma {:induction false} EncodeRest(rs: seq<Record>)
    requires rs != []
    ensures EncodeAll(rs) == Encode(rs[0]) + EncodeAll(rs[1..])
  {
    hide Encode;
  }

  lemma {:induction false} EncodePrefix(rs: seq<Record>, m: nat)
    requires m < |rs|
    ensures EncodeAll(rs[..m + 1]) == Encode(rs[0]) + EncodeAll(rs[1..][..m])
  {
    hide Encode;
    assert rs[..m + 1][1..] == rs[1..][..m];
  }

  /** The first records of one more transaction, then bytes that read as no record. */
  ghost predicate IncompleteTail(last: Tx, n: nat, rest: Bytes, tail: Bytes) {
    n <= |last.images| && tail == EncodeAll(RecordsOf(last)[..n]) + rest && ReadRecord(rest) == NoRecord
  }

  /** Whatever follows a valid log without completing a transaction is ignored. */
  lemma {:induction false} ScanIgnoresTail(txs: seq<Tx>, last: Tx, n: nat, rest: Bytes, tail: Bytes)
    requires ValidLog(txs, 0, 0) && TxEncodable(last) && ImagesVerify(last.images) && IncompleteTail(last, n, rest, tail)
    ensures ScanFrom(Log(txs) + tail, 0, START) == Scanned(VisitsOf(txs, 0))
  {
    hide ScanFrom, ScanRecords, EncodeAll, ReadRecord, RecordsOf, ImageVerifies, Encodable, ValidLog, TxEncodable, ImagesVerify;
    TxRecordsEncodable(last);
    RecordCount(last);
    var whole := RecordsOf(last)[..n];
    LogIsRecords(txs);
    LogEncodable(txs, 0, 0);
    EncodeAllAppend(AllRecords(txs), whole);
    var wal, rs := Log(txs) + tail, AllRecords(txs) + whole;
    assert wal == EncodeAll(rs) + rest;
    assert wal[0..] == wal;
    ScanBytes(rs, rest, wal, 0, START);
    ScanTxs(START, txs, 0, whole, last, n);
    assert [] + VisitsOf(txs, 0) == VisitsOf(txs, 0);
  }

  /** A transaction torn anywhere is such a tail. */
  lemma {:induction false} TornIsIncomplete(last: Tx, torn: Bytes) returns (n: nat, rest: Bytes)
    requires TxEncodable(last) && torn <= EncodeAll(RecordsOf(last)) && |torn| < |EncodeAll(RecordsOf(last))|
    ensures IncompleteTail(last, n, rest, torn)
  {
    hide EncodeAll, ReadRecord, RecordsOf, Encodable, TxEncodable;
    TxRecordsEncodable(last);
    n, rest := CutRecords(RecordsOf(last), torn);
    RecordCount(last);
  }

  /**
   * Scanning undoes appending: any valid log followed by any proper prefix of one more
   * transaction is visited exactly, in order, with the location of every image.
   */
  lemma {:induction false} ScanUndoesAppend(txs: seq<Tx>, last: Tx, torn: Bytes)
    requires ValidLog(txs, 0, 0) && TxEncodable(last) && ImagesVerify(last.images)
    requires torn <= EncodeAll(RecordsOf(last)) && |torn| < |EncodeAll(RecordsOf(last))|
    ensures ScanFrom(Log(txs) + torn, 0, START) == Scanned(VisitsOf(txs, 0))
  {
    hide ScanFrom, EncodeAll, RecordsOf, ValidLog, TxEncodable, ImagesVerify, IncompleteTail;
    var n, rest := TornIsIncomplete(last, torn);
    ScanIgnoresTail(txs, last, n, rest, torn);
  }

  lemma {:induction false} TakeOldCommit(s: Scan, tx: Tx, offset: nat)
    requires Idle(s) && TxValid(tx) && tx.txid <= s.lastTxid
    ensures Take(After(s, tx, offset, |tx.images|), GotCommit(CommitOf(tx)), offset + ImagesLen(|tx.images|)) == Corrupt
  {
    hide ImageVerifies;
    assert tx.images[..|tx.images|] == tx.images;
  }

  /** An older transaction behind a newer one is corruption, not the end of the log. */
  lemma {:induction false} ScanOldTx(s: Scan, tx: Tx, offset: nat, rest: seq<Record>)
    requires Idle(s) && TxValid(tx) && tx.txid <= s.lastTxid
    ensures ScanRecords(RecordsOf(tx) + rest, offset, s) == Corruption
  {
    hide Take, ImageVerifies;
    var n, rs := |tx.images|, ImageRecords(tx.txid, tx.images);
    var mark := [CommitMark(CommitOf(tx))] + rest;
    assert RecordsOf(tx) + rest == rs[0..n] + mark;
    ScanImages(s, tx, offset, 0, n, mark);
    TakeOldCommit(s, tx, offset);
  }

  /** The scan refuses a log in which old transactions follow a newer one. */
  lemma {:induction false} BackwardsIsRefused(c: Tx, stale: seq<Tx>)
    requires TxValid(c) && 0 < c.txid && ValidLog(stale, 0, 0) && stale != [] && stale[0].txid <= c.txid
    ensures ScanFrom(Log([c] + stale), 0, START) == Corruption
  {
    hide ScanFrom, ScanRecords, EncodeAll, ReadRecord, RecordsOf, ImageVerifies, Encodable, TxEncodable, AllRecords, Take;
    var txs := [c] + stale;
    var rest := AllRecords(stale);
    assert AllRecords(txs) == RecordsOf(c) + rest by { FirstRecords(c, stale); }
    LogIsRecords(txs);
    TxRecordsEncodable(c);
    LogEncodable(stale, 0, 0);
    var wal := Log(txs);
    assert wal[0..] == EncodeAll(AllRecords(txs)) + [];
    NoRecordAtEnd();
    ScanBytes(AllRecords(txs), [], wal, 0, START);
    ScanTx(START, c, 0, rest);
    assert rest == RecordsOf(stale[0]) + AllRecords(stale[1..]) by {
      assert [stale[0]] + stale[1..] == stale;
      FirstRecords(stale[0], stale[1..]);
    }
    ScanOldTx(Visited(START, c, 0), stale[0], TxLen(c), AllRecords(stale[1..]));
  }

  lemma {:induction false} FirstRecords(tx: Tx, txs: seq<Tx>)
    ensures AllRecords([tx] + txs) == RecordsOf(tx) + AllRecords(txs)
  {
    hide RecordsOf;
    assert ([tx] + txs)[1..] == txs;
  }

  lemma {:induction false} NoRecordAtEnd()
    ensures ReadRecord([]) == NoRecord
  {
  }

  /** Records written over the head of a log, where they end between two transactions. */
  lemma {:induction false} SplicedBytes(a: seq<Tx>, b: seq<Tx>, k: nat)
    requires k <= |b| && |Log(a)| == |Log(b[..k])|
    ensures |Log(a)| <= |Log(b)| && Log(a) + Log(b)[|Log(a)|..] == Log(a + b[k..])
  {
    hide Log;
    assert b == b[..k] + b[k..];
    LogAppend(b[..k], b[k..]);
    LogAppend(a, b[k..]);
  }

  lemma {:induction false} LogAppend(a: seq<Tx>, b: seq<Tx>)
    ensures Log(a + b) == Log(a) + Log(b)
    decreases |a|
  {
    hide EncodeAll, RecordsOf;
    if a == [] {
      assert a + b == b;
    } else {
      assert (a + b)[1..] == a[1..] + b;
      LogAppend(a[1..], b);
    }
  }

  /**
   * One new transaction over the head of a longer one never ends where a record of the old one
   * does: what is left behind it starts inside an old record.
   */
  lemma {:induction false} CutInsideRecord(c: Tx, prior: Tx, m: nat)
    requires TxEncodable(c) && TxEncodable(prior) && m <= |prior.images|
    ensures |Log([c])| != |EncodeAll(RecordsOf(prior)[..m])|
  {
    hide EncodeAll, RecordsOf;
    assert Log([c]) == EncodeAll(RecordsOf(c)) + Log([c][1..]) && Log([c][1..]) == [];
    TxSize(c);
    TxBytes(prior, m);
    assert |Log([c])| == 4136 * |c.images| + COMMIT_RECORD_LEN && 0 < COMMIT_RECORD_LEN < 4136;
  }

  lemma {:induction false} RecordCount(tx: Tx)
    ensures |RecordsOf(tx)| == |tx.images| + 1
  {
  }

  // ---------- appending ----------

  datatype AppendResult = Appended(wal: Bytes) | Mismatch

  /** Encodes a transaction in bounded batches, each written at the end of the log. */
  method AppendTransaction(wal: Bytes, txid: nat, images: seq<Image>, commit: CommitRecord, generated: bool, t: Tables) returns (r: AppendResult)
    requires Built(t)
    requires generated ==> ImagesVerify(images)
    ensures r.Mismatch? <==> commit.txid != txid || commit.count != |images| || exists i :: 0 <= i < |images| && |images[i].bytes| != PAGE_SIZE
    ensures r.Appended? ==> r.wal == wal + EncodeAll(RecordsOf(Tx(txid, images, commit.root, commit.next)))
  {
    hide Built, EncodeAll, Encode, ImageVerifies, EncodeGenerated, Crc32;
    if commit.txid != txid || commit.count != |images| {
      return Mismatch;
    }
    if exists i :: 0 <= i < |images| && |images[i].bytes| != PAGE_SIZE {
      return Mismatch;
    }
    ghost var rs := ImageRecords(txid, images);
    var file, batch := wal, [];
    var i: nat := 0;
    assert rs[..0] == [];
    NoRecords();
    while i < |images|
      invariant i <= |images|
      invariant file + batch == wal + EncodeAll(rs[..i])
    {
      if |batch| + IMAGE_RECORD_LEN > WAL_ENCODING_BATCH_BYTES {
        file, batch := file + batch, [];
      }
      var record := ImageRecord(txid, images[i].page, images[i].bytes);
      if generated {
        VerifiedIsSealed(images[i].bytes, images[i].page);
        GeneratedEqualsDirect(t, record, Crc32(Resealed(images[i].bytes)));
        Regroup(file, batch, Encode(record), wal, EncodeAll(rs[..i]));
        batch := batch + EncodeGenerated(t, record, Crc32(Resealed(images[i].bytes)));
      } else {
        Regroup(file, batch, Encode(record), wal, EncodeAll(rs[..i]));
        batch := batch + Encode(record);
      }
      EncodeSnoc(rs, i);
      i := i + 1;
    }
    if |batch| + COMMIT_RECORD_LEN > WAL_ENCODING_BATCH_BYTES {
      file, batch := file + batch, [];
    }
    assert rs[..|images|] == rs;
    Regroup(file, batch, Encode(CommitMark(commit)), wal, EncodeAll(rs));
    batch := batch + Encode(CommitMark(commit));
    EncodeAllAppend(rs, [CommitMark(commit)]);
    EncodeOne(CommitMark(commit));
    return Appended(file + batch);
  }

  lemma {:induction false} Regroup(file: Bytes, batch: Bytes, e: Bytes, wal: Bytes, done: Bytes)
    requires file + batch == wal + done
    ensures file + (batch + e) == wal + (done + e)
  {
    assert file + (batch + e) == (file + batch) + e;
  }

  lemma {:induction false} EncodeOne(r: Record)
    ensures EncodeAll([r]) == Encode(r)
  {
    hide Encode;
    assert EncodeAll([r][1..]) == [];
  }

  lemma {:induction false} EncodeSnoc(rs: seq<Record>, i: nat)
    requires i < |rs|
    ensures EncodeAll(rs[..i + 1]) == EncodeAll(rs[..i]) + Encode(rs[i])
  {
    hide Encode;
    assert rs[..i + 1] == rs[..i] + [rs[i]];
    EncodeAllAppend(rs[..i], [rs[i]]);
    EncodeOne(rs[i]);
  }

  // ---------- images are where the scan says ----------

  lemma {:induction false} TxBytes(tx: Tx, k: nat)
    requires TxEncodable(tx) && k <= |tx.images|
    ensures |EncodeAll(RecordsOf(tx)[..k])| == ImagesLen(k)
    decreases k
  {
    hide Encode, Encodable, EncodeAll, ImagesLen;
    var rs := RecordsOf(tx);
    if k == 0 {
      NoRecords();
      assert rs[..0] == [];
      assert ImagesLen(0) == 0 by { NoImages(); }
    } else {
      TxBytes(tx, k - 1);
      EncodeSnoc(rs, k - 1);
      TxRecordsEncodable(tx);
      EncodedLength(rs[k - 1]);
      ImagesLenStep(k - 1);
    }
  }

  lemma {:induction false} TxSize(tx: Tx)
    requires TxEncodable(tx)
    ensures |EncodeAll(RecordsOf(tx))| == TxLen(tx)
  {
    hide Encode, Encodable, EncodeAll;
    var rs, n := RecordsOf(tx), |tx.images|;
    TxBytes(tx, n);
    EncodeSnoc(rs, n);
    TxRecordsEncodable(tx);
    EncodedLength(rs[n]);
    assert rs[..n + 1] == rs;
  }

  lemma {:induction false} ImageInRecord(r: Record)
    requires Encodable(r) && r.ImageRecord?
    ensures |Encode(r)| == IMAGE_RECORD_LEN && Encode(r)[IMAGE_OFFSET..] == r.image
  {
    hide Le, Crc32, LittleEndian;
    EncodedLength(r);
    assert Payload(r)[IMAGE_BODY_HEADER_LEN..] == r.image;
  }

  lemma {:induction false} ImageInTx(tx: Tx, k: nat)
    requires TxEncodable(tx) && k < |tx.images|
    ensures var at := ImagesLen(k) + IMAGE_OFFSET;
            at + PAGE_SIZE <= |EncodeAll(RecordsOf(tx))| && EncodeAll(RecordsOf(tx))[at..at + PAGE_SIZE] == tx.images[k].bytes
  {
    hide Encode, Encodable, EncodeAll;
    var rs := RecordsOf(tx);
    TxRecordsEncodable(tx);
    TxBytes(tx, k);
    EncodeSnoc(rs, k);
    ImageInRecord(rs[k]);
    assert rs == rs[..k + 1] + rs[k + 1..];
    EncodeAllAppend(rs[..k + 1], rs[k + 1..]);
    var before, e, after := EncodeAll(rs[..k]), Encode(rs[k]), EncodeAll(rs[k + 1..]);
    assert EncodeAll(rs) == before + e + after;
    assert (before + e + after)[|before| + IMAGE_OFFSET..|before| + IMAGE_OFFSET + PAGE_SIZE] == e[IMAGE_OFFSET..];
  }

  /** `at` holds `image` in the file. */
  ghost predicate Holds(wal: Bytes, at: nat, bytes: Bytes) {
    at + |bytes| <= |wal| && wal[at..at + |bytes|] == bytes
  }

  lemma {:induction false} HoldsWithin(wal: Bytes, offset: nat, e: Bytes, rest: Bytes, at: nat, bytes: Bytes)
    requires offset <= |wal| && wal[offset..] == e + rest && Holds(e, at, bytes)
    ensures Holds(wal, offset + at, bytes)
  {
    assert wal[offset + at..offset + at + |bytes|] == wal[offset..][at..at + |bytes|] == e[at..at + |bytes|];
  }

  /** Every location the scan reports holds the image that was appended. */
  lemma {:induction false} LocationsHoldImages(txs: seq<Tx>, lastTxid: nat, lastNext: PageId, wal: Bytes, offset: nat, torn: Bytes, i: nat, k: nat)
    requires ValidLog(txs, lastTxid, lastNext) && offset <= |wal| && wal[offset..] == Log(txs) + torn
    requires i < |txs| && k < |txs[i].images|
    ensures |VisitsOf(txs, offset)| == |txs| && |VisitsOf(txs, offset)[i].pages| == |txs[i].images|
    ensures var at := VisitsOf(txs, offset)[i].pages[k];
            at.page == txs[i].images[k].page && Holds(wal, at.offset, txs[i].images[k].bytes)
    decreases |txs|
  {
    hide RecordsOf, EncodeAll, ImageVerifies, ImagesLen, Holds, TxEncodable;
    var tx := txs[0];
    var e, rest := EncodeAll(RecordsOf(tx)), Log(txs[1..]) + torn;
    TxSize(tx);
    VisitsCount(txs, offset);
    assert wal[offset..] == e + rest by { Associates(e, Log(txs[1..]), torn); }
    SplitView(wal, offset, e, rest);
    if i == 0 {
      assert Holds(e, ImagesLen(k) + IMAGE_OFFSET, tx.images[k].bytes) by { TxHoldsImage(tx, k); }
      HoldsWithin(wal, offset, e, rest, ImagesLen(k) + IMAGE_OFFSET, tx.images[k].bytes);
    } else {
      LocationsHoldImages(txs[1..], tx.txid, tx.next, wal, offset + |e|, torn, i - 1, k);
    }
  }

  lemma {:induction false} TxHoldsImage(tx: Tx, k: nat)
    requires TxEncodable(tx) && k < |tx.images|
    ensures Holds(EncodeAll(RecordsOf(tx)), ImagesLen(k) + IMAGE_OFFSET, tx.images[k].bytes)
  {
    hide RecordsOf, EncodeAll, ImagesLen;
    ImageInTx(tx, k);
  }

  lemma {:induction false} VisitsCount(txs: seq<Tx>, offset: nat)
    ensures |VisitsOf(txs, offset)| == |txs|
    decreases |txs|
  {
    if txs != [] {
      VisitsCount(txs[1..], offset + TxLen(txs[0]));
    }
  }
}
