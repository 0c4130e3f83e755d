/** One log record: its bytes, and what the scanner makes of the bytes it finds. */
module WalRecords {
  import opened Keys
  import opened Numbers
  import opened Pages
  import opened Crc
  import opened CrcShortcuts
  import opened PageHeaders

  const WAL_MAGIC: Bytes := [87, 65, 76, 49]
  const RECORD_HEADER_LEN := 16
  const IMAGE_BODY_HEADER_LEN := 24
  const IMAGE_PAYLOAD_LEN := IMAGE_BODY_HEADER_LEN + PAGE_SIZE
  const COMMIT_PAYLOAD_LEN := 32
  const IMAGE_TAG: Byte := 1
  const COMMIT_TAG: Byte := 2

  datatype CommitRecord = CommitRecord(txid: nat, root: PageId, next: PageId, count: nat)

  datatype Record =
    | ImageRecord(txid: nat, page: PageId, image: Bytes)
    | CommitMark(commit: CommitRecord)

  /** Fields fit their integer widths and an image is one page. */
  predicate Encodable(r: Record) {
    match r
    case ImageRecord(txid, page, image) => txid < U64 && page < U64 && |image| == PAGE_SIZE
    case CommitMark(c) => c.txid < U64 && c.root < U64 && c.next < U64 && c.count < U32
  }

  function Tag(r: Record): Byte {
    if r.ImageRecord? then IMAGE_TAG else COMMIT_TAG
  }

  function ImageBodyHeader(txid: nat, page: PageId, len: nat): (b: Bytes)
    ensures |b| == IMAGE_BODY_HEADER_LEN
  {
    Le(txid, 8) + Le(page, 8) + Le(len, 4) + Le(0, 4)
  }

  function Payload(r: Record): Bytes {
    match r
    case ImageRecord(txid, page, image) => ImageBodyHeader(txid, page, |image|) + image
    case CommitMark(c) => Le(c.txid, 8) + Le(c.root, 8) + Le(c.next, 8) + Le(c.count, 4) + Le(0, 4)
  }

  function RecordHeader(tag: Byte, payloadLen: nat, checksum: Bytes): (h: Bytes)
    requires |checksum| == 4
    ensures |h| == RECORD_HEADER_LEN
  {
    WAL_MAGIC + [tag, 0, 0, 0] + Le(payloadLen, 4) + checksum
  }

  /** The record as it is hashed, with a zero checksum field. */
  function Unsealed(r: Record): Bytes {
    RecordHeader(Tag(r), |Payload(r)|, Zeros(4)) + Payload(r)
  }

  function Encode(r: Record): (e: Bytes)
    ensures |e| == RECORD_HEADER_LEN + |Payload(r)|
  {
    RecordHeader(Tag(r), |Payload(r)|, LittleEndian(Crc32(Unsealed(r)))) + Payload(r)
  }

  /** An image record sealed from the page's own checksum instead of hashing the page. */
  function EncodeGenerated(t: Tables, r: Record, pageChecksum: bv32): Bytes
    requires r.ImageRecord?
  {
    var blank := RecordHeader(IMAGE_TAG, IMAGE_BODY_HEADER_LEN + |r.image|, Zeros(4)) + ImageBodyHeader(r.txid, r.page, |r.image|);
    var checksum := GeneratedPageCrc(t, blank, pageChecksum);
    RecordHeader(IMAGE_TAG, IMAGE_BODY_HEADER_LEN + |r.image|, LittleEndian(checksum)) + Payload(r)
  }

  /** Both ways of sealing an engine page give the same bytes. */
  lemma {:induction false} GeneratedEqualsDirect(t: Tables, r: Record, pageChecksum: bv32)
    requires Built(t) && r.ImageRecord? && Sealed(r.image, pageChecksum)
    ensures EncodeGenerated(t, r, pageChecksum) == Encode(r)
  {
    hide Crc32, LittleEndian, Le, GeneratedPageCrc, Built, Sealed, RecordHeader;
    SealedLength(r.image, pageChecksum);
    var header := RecordHeader(IMAGE_TAG, IMAGE_BODY_HEADER_LEN + |r.image|, Zeros(4));
    var body := ImageBodyHeader(r.txid, r.page, |r.image|);
    assert Unsealed(r) == (header + body) + r.image;
    GeneratedPageIsExact(t, header + body, r.image, pageChecksum);
  }

  lemma {:induction false} SealedLength(page: Bytes, checksum: bv32)
    requires Sealed(page, checksum)
    ensures |page| == PAGE_SIZE
  {
    hide Crc32, LittleEndian;
  }

  // ---------- reading ----------

  datatype Read =
    | NoRecord
    | Unsupported
    | GotImage(txid: nat, page: PageId, pageLen: nat, image: Bytes)
    | GotCommit(commit: CommitRecord)

  function ExpectedPayload(tag: Byte): nat {
    if tag == IMAGE_TAG then IMAGE_PAYLOAD_LEN else COMMIT_PAYLOAD_LEN
  }

  /** The checksum of `len` bytes of a record whose checksum field is taken as zero. */
  function RecordCrc(view: Bytes, len: nat): bv32
    requires RECORD_HEADER_LEN <= len <= |view|
  {
    Crc32(view[..12] + Zeros(4) + view[16..len])
  }

  predicate ForeignChecksumMatches(view: Bytes, payloadLen: nat)
    requires |view| >= RECORD_HEADER_LEN
  {
    RECORD_HEADER_LEN + payloadLen <= |view| && LittleEndian(RecordCrc(view, RECORD_HEADER_LEN + payloadLen)) == view[12..16]
  }

  predicate LooksLikeWal(view: Bytes)
    requires |view| >= RECORD_HEADER_LEN
  {
    view[..3] == WAL_MAGIC[..3] && 48 <= view[3] <= 57
  }

  function ReadPayload(tag: Byte, payload: Bytes): Read
    requires |payload| == ExpectedPayload(tag)
  {
    if tag == IMAGE_TAG then
      if NatOf(payload[20..24]) != 0 then Unsupported
      else GotImage(NatOf(payload[0..8]), NatOf(payload[8..16]), NatOf(payload[16..20]), payload[24..])
    else
      if NatOf(payload[28..32]) != 0 then Unsupported
      else GotCommit(CommitRecord(NatOf(payload[0..8]), NatOf(payload[8..16]), NatOf(payload[16..24]), NatOf(payload[24..28])))
  }

  /** What the scanner reads at the start of `view`, the rest of the log file. */
  function ReadRecord(view: Bytes): Read {
    if |view| < RECORD_HEADER_LEN then NoRecord
    else
      var payloadLen := NatOf(view[8..12]);
      if view[..4] != WAL_MAGIC then
        if LooksLikeWal(view) && ForeignChecksumMatches(view, payloadLen) then Unsupported else NoRecord
      else if (view[4] != IMAGE_TAG && view[4] != COMMIT_TAG) || payloadLen != ExpectedPayload(view[4]) then
        if ForeignChecksumMatches(view, payloadLen) then Unsupported else NoRecord
      else if RECORD_HEADER_LEN + payloadLen > |view| then NoRecord
      else if LittleEndian(RecordCrc(view, RECORD_HEADER_LEN + payloadLen)) != view[12..16] then NoRecord
      else if view[5] != 0 || view[6] != 0 || view[7] != 0 then Unsupported
      else ReadPayload(view[4], view[16..16 + payloadLen])
  }

  function Readback(r: Record): Read {
    match r
    case ImageRecord(txid, page, image) => GotImage(txid, page, PAGE_SIZE, image)
    case CommitMark(c) => GotCommit(c)
  }

  lemma {:induction false} PayloadLength(r: Record)
    requires Encodable(r)
    ensures |Payload(r)| == ExpectedPayload(Tag(r)) < U32
  {
    hide Le;
  }

  lemma {:induction false} JoinedFields(a: Bytes, b: Bytes, c: Bytes, d: Bytes, e: Bytes)
    ensures var p := a + b + c + d + e;
            && p[0..|a|] == a && p[|a|..|a| + |b|] == b && p[|a| + |b|..|a| + |b| + |c|] == c
            && p[|a| + |b| + |c|..|a| + |b| + |c| + |d|] == d && p[|a| + |b| + |c| + |d|..] == e
  {
  }

  lemma {:induction false} PayloadReadsBack(r: Record)
    requires Encodable(r)
    ensures |Payload(r)| == ExpectedPayload(Tag(r)) && ReadPayload(Tag(r), Payload(r)) == Readback(r)
  {
    hide Le, NatOf;
    PayloadLength(r);
    var p := Payload(r);
    match r
    case ImageRecord(txid, page, image) =>
      Le8(txid);
      Le8(page);
      Le4(PAGE_SIZE);
      Le4(0);
      JoinedFields(Le(txid, 8), Le(page, 8), Le(PAGE_SIZE, 4), Le(0, 4), image);
    case CommitMark(c) =>
      Le8(c.txid);
      Le8(c.root);
      Le8(c.next);
      Le4(c.count);
      Le4(0);
      JoinedFields(Le(c.txid, 8), Le(c.root, 8), Le(c.next, 8), Le(c.count, 4), Le(0, 4));
      assert p[28..32] == p[28..];
  }

  lemma {:induction false} HeaderFields(view: Bytes, tag: Byte, payloadLen: nat, checksum: Bytes)
    requires |checksum| == 4 && RecordHeader(tag, payloadLen, checksum) <= view
    ensures |view| >= RECORD_HEADER_LEN
    ensures view[..4] == WAL_MAGIC && view[4] == tag && view[5] == 0 && view[6] == 0 && view[7] == 0
    ensures view[8..12] == Le(payloadLen, 4) && view[12..16] == checksum
    ensures view[..12] + Zeros(4) == RecordHeader(tag, payloadLen, Zeros(4))
  {
    hide Le;
    var h := RecordHeader(tag, payloadLen, checksum);
    assert h == view[..16];
    assert view[..12] == h[..12] && view[8..12] == h[8..12] && view[12..16] == h[12..16] && view[..4] == h[..4];
    assert h[..12] == WAL_MAGIC + [tag, 0, 0, 0] + Le(payloadLen, 4);
  }

  /** A complete record reads back as itself, whatever follows it. */
  lemma {:induction false} RecordReadsBack(r: Record, view: Bytes)
    requires Encodable(r) && Encode(r) <= view
    ensures ReadRecord(view) == Readback(r)
  {
    hide Crc32, LittleEndian, Le, NatOf, ReadPayload, Payload, RecordHeader;
    var p := Payload(r);
    var sum := LittleEndian(Crc32(Unsealed(r)));
    var h := RecordHeader(Tag(r), |p|, sum);
    assert view[..|h + p|] == h + p;
    assert h <= view && view[16..16 + |p|] == p;
    HeaderFields(view, Tag(r), |p|, sum);
    PayloadReadsBack(r);
    Le4(|p|);
    assert view[..12] + Zeros(4) + view[16..16 + |p|] == Unsealed(r);
  }

  /** A record cut short is recognised as the end of the log. */
  lemma {:induction false} TornRecordEnds(r: Record, view: Bytes)
    requires Encodable(r) && view <= Encode(r) && |view| < |Encode(r)|
    ensures ReadRecord(view) == NoRecord
  {
    hide Crc32, LittleEndian, Le, NatOf, ReadPayload, Payload, RecordHeader;
    if |view| >= RECORD_HEADER_LEN {
      var p := Payload(r);
      var sum := LittleEndian(Crc32(Unsealed(r)));
      var h := RecordHeader(Tag(r), |p|, sum);
      assert view == (h + p)[..|view|];
      assert h <= view;
      HeaderFields(view, Tag(r), |p|, sum);
      PayloadLength(r);
      Le4(|p|);
    }
  }

  /** A record torn behind its header, over older bytes, ends the log unless the mixture has the new record's checksum. */
  lemma {:induction false} MixedRecordEnds(r: Record, t: Bytes, prior: Bytes)
    requires Encodable(r) && t <= Encode(r) && RECORD_HEADER_LEN <= |t| && |Encode(r)| <= |t + prior|
    ensures ReadRecord(t + prior) == NoRecord <==> LittleEndian(RecordCrc(t + prior, |Encode(r)|)) != LittleEndian(Crc32(Unsealed(r)))
  {
    hide Crc32, LittleEndian, Le, NatOf, Payload, RecordHeader;
    var p, view := Payload(r), t + prior;
    var sum := LittleEndian(Crc32(Unsealed(r)));
    var h := RecordHeader(Tag(r), |p|, sum);
    assert h == (h + p)[..16] == t[..16] == view[..16];
    assert h <= view;
    HeaderFields(view, Tag(r), |p|, sum);
    PayloadLength(r);
    Le4(|p|);
  }
}
