/** Checksums of composite buffers computed without hashing their bytes again. */
module CrcShortcuts {
  import opened Keys
  import opened Pages
  import opened Crc
  import opened CrcTables

  const PAGE_HEADER_CHECKSUM_OFFSET := 4
  const ZERO_BUFFER_LEN := 16

  /** The three fixed tables of the engine. */
  datatype Tables = Tables(throughPage: Table, embedded: Table, throughOverflow: Table)

  ghost predicate Built(t: Tables) {
    && Transforms(t.throughPage, PAGE_SIZE, false)
    && Transforms(t.embedded, PAGE_SIZE - PAGE_HEADER_CHECKSUM_OFFSET, true)
    && Transforms(t.throughOverflow, OVERFLOW_CHUNK_LEN, false)
  }

  method BuildTables() returns (t: Tables)
    ensures Built(t)
  {
    hide Transforms;
    var throughPage := CrcTransform(PAGE_SIZE, false);
    var embedded := CrcTransform(PAGE_SIZE - PAGE_HEADER_CHECKSUM_OFFSET, true);
    var throughOverflow := CrcTransform(OVERFLOW_CHUNK_LEN, false);
    t := Tables(throughPage, embedded, throughOverflow);
  }

  /** `page` carries at offset 4 the checksum it has with that field zeroed. */
  ghost predicate Sealed(page: Bytes, checksum: bv32) {
    && |page| == PAGE_SIZE
    && page[4..8] == LittleEndian(checksum)
    && checksum == Crc32(page[..4] + Zeros(4) + page[8..])
  }

  function GeneratedPageCrc(t: Tables, prefix: Bytes, pageChecksum: bv32): bv32 {
    Xor(TransformCrc(t.throughPage, Crc32(prefix)), TransformCrc(t.embedded, pageChecksum))
  }

  /** The shortcut equals hashing the prefix and every byte of the page. */
  lemma {:induction false} GeneratedPageIsExact(t: Tables, prefix: Bytes, page: Bytes, checksum: bv32)
    requires Built(t) && Sealed(page, checksum)
    ensures GeneratedPageCrc(t, prefix, checksum) == Crc32(prefix + page)
  {
    hide Crc32, LittleEndian, Advance, TransformCrc, Xor;
    assert page == page[..4] + LittleEndian(checksum) + page[8..];
    CrcOfSealed(page[..4], checksum, page[8..]);
    CombineIsConcatenation(prefix, page);
    XorCommutes(checksum, Advance(checksum, PAGE_SIZE - 4));
  }

  /** Propagates a difference through zero bytes, by table for a full chunk. */
  function AdvanceCrc(t: Tables, crc: bv32, len: nat): (r: bv32)
    requires Built(t)
    ensures r == Advance(crc, len)
  {
    AdvanceTrivial(crc, len);
    XorZero(Advance(crc, len));
    if crc == 0 || len == 0 then crc
    else if len == OVERFLOW_CHUNK_LEN then TransformCrc(t.throughOverflow, crc)
    else Combine(crc, 0, len)
  }

  function GeneratedOverflowCrc(t: Tables, header: Bytes, chunkChecksum: bv32, chunkLen: nat): bv32
    requires Built(t) && chunkLen <= OVERFLOW_CHUNK_LEN
  {
    Xor(TransformCrc(t.throughOverflow, Crc32(header)),
        Xor(AdvanceCrc(t, Xor(chunkChecksum, ONES), OVERFLOW_CHUNK_LEN - chunkLen), ONES))
  }

  /** The shortcut equals hashing the header, the chunk and its zero padding. */
  lemma {:induction false} GeneratedOverflowIsExact(t: Tables, header: Bytes, chunk: Bytes)
    requires Built(t) && |chunk| <= OVERFLOW_CHUNK_LEN
    ensures GeneratedOverflowCrc(t, header, Crc32(chunk), |chunk|) == Crc32(header + (chunk + Zeros(OVERFLOW_CHUNK_LEN - |chunk|)))
  {
    hide Crc32, Advance, TransformCrc, Xor;
    var padding := OVERFLOW_CHUNK_LEN - |chunk|;
    CrcOfPadded(chunk, padding);
    CombineIsConcatenation(header, chunk + Zeros(padding));
  }

  // ---------- one pass over a payload shared by two prefixed values ----------

  function Min(a: int, b: int): int {
    if a <= b then a else b
  }

  function Floor0(a: int): nat {
    if a < 0 then 0 else a
  }

  /** Chunk `index` of a prefixed value: its share of the prefix and of the payload. */
  function ValueChunk(prefix: Bytes, payload: Bytes, index: nat): (Bytes, Bytes)
    requires index < ChunkCount(|prefix| + |payload|)
  {
    var start := index * OVERFLOW_CHUNK_LEN;
    var end := Min(start + OVERFLOW_CHUNK_LEN, |prefix| + |payload|);
    (prefix[Min(start, |prefix|)..Min(end, |prefix|)], payload[Floor0(start - |prefix|)..Floor0(end - |prefix|)])
  }

  /** The chunks cut the whole value into consecutive slices. */
  lemma {:induction false} ValueChunkIsSlice(prefix: Bytes, payload: Bytes, index: nat)
    requires index < ChunkCount(|prefix| + |payload|)
    ensures var (p, q) := ValueChunk(prefix, payload, index);
            var start := index * OVERFLOW_CHUNK_LEN;
            p + q == (prefix + payload)[start..Min(start + OVERFLOW_CHUNK_LEN, |prefix| + |payload|)]
  {
    var (p, q) := ValueChunk(prefix, payload, index);
    var start := index * OVERFLOW_CHUNK_LEN;
    var end := Min(start + OVERFLOW_CHUNK_LEN, |prefix| + |payload|);
    var slice := (prefix + payload)[start..end];
    if end <= |prefix| {
      assert p + q == slice;
    } else if start >= |prefix| {
      assert p + q == slice;
    } else {
      assert p + q == prefix[start..] + payload[..end - |prefix|] == slice;
    }
  }

  function ChunkCrc(prefix: Bytes, payload: Bytes, index: nat): bv32
    requires index < ChunkCount(|prefix| + |payload|)
  {
    var (p, q) := ValueChunk(prefix, payload, index);
    Crc32(p + q)
  }

  ghost predicate AllChunkCrcs(checksums: seq<bv32>, prefix: Bytes, payload: Bytes) {
    && |checksums| == ChunkCount(|prefix| + |payload|)
    && forall i :: 0 <= i < |checksums| ==> checksums[i] == ChunkCrc(prefix, payload, i)
  }

  datatype Chunks = Chunks(prefixCrc: bv32, previousCrc: bv32, previousEnd: nat, nextEnd: nat, checksums: seq<bv32>)

  /** Payload position where the first `k` chunks end. */
  function EndOf(prefix: Bytes, payload: Bytes, k: nat): nat {
    Floor0(Min(k * OVERFLOW_CHUNK_LEN - |prefix|, |payload|))
  }

  ghost predicate Correct(c: Chunks, prefix: Bytes, payload: Bytes) {
    && |c.checksums| <= ChunkCount(|prefix| + |payload|)
    && forall i :: 0 <= i < |c.checksums| ==> c.checksums[i] == ChunkCrc(prefix, payload, i)
  }

  ghost predicate Progress(c: Chunks, prefix: Bytes, payload: Bytes, position: nat) {
    && |prefix| < OVERFLOW_CHUNK_LEN && position <= |payload|
    && c.prefixCrc == Crc32(prefix)
    && c.previousEnd == EndOf(prefix, payload, |c.checksums|)
    && c.nextEnd == EndOf(prefix, payload, |c.checksums| + 1)
    && c.previousEnd <= position <= c.nextEnd
    && (position < |payload| ==> position < c.nextEnd)
    && (position == |payload| && |payload| > 0 ==> c.previousEnd == |payload|)
    && c.previousCrc == Crc32(payload[..c.previousEnd])
    && Correct(c, prefix, payload)
  }

  lemma {:induction false} StartProgresses(prefix: Bytes, payload: Bytes)
    requires |prefix| < OVERFLOW_CHUNK_LEN
    ensures Progress(Started(prefix, payload), prefix, payload, 0)
  {
    EmptyCrc();
    hide Crc32;
    assert payload[..0] == [];
  }

  function Started(prefix: Bytes, payload: Bytes): Chunks
    requires |prefix| < OVERFLOW_CHUNK_LEN
  {
    Chunks(Crc32(prefix), 0, 0, Min(OVERFLOW_CHUNK_LEN - |prefix|, |payload|), [])
  }

  /** Ends the current chunk of one view at payload position `end`. */
  function CloseChunk(t: Tables, c: Chunks, end: nat, cumulative: bv32, payloadLen: nat): Chunks
    requires Built(t) && c.previousEnd <= end
  {
    var len := end - c.previousEnd;
    var suffix := Xor(cumulative, AdvanceCrc(t, c.previousCrc, len));
    var checksum := if c.previousEnd == 0 then Xor(suffix, AdvanceCrc(t, c.prefixCrc, len)) else suffix;
    Chunks(c.prefixCrc, cumulative, end, Min(end + OVERFLOW_CHUNK_LEN, payloadLen), c.checksums + [checksum])
  }

  /** The checksum of a slice is the difference of two cumulative checksums. */
  lemma {:induction false} CrcOfSlice(payload: Bytes, start: nat, end: nat)
    requires start <= end <= |payload|
    ensures Crc32(payload[start..end]) == Xor(Crc32(payload[..end]), Advance(Crc32(payload[..start]), end - start))
  {
    hide Crc32, Advance, Xor;
    assert payload[..end] == payload[..start] + payload[start..end];
    CombineIsConcatenation(payload[..start], payload[start..end]);
    var a, s := Advance(Crc32(payload[..start]), end - start), Crc32(payload[start..end]);
    XorCommutes(a, s);
    XorTwice(s, a);
  }

  lemma {:induction false} ClosedChecksum(t: Tables, c: Chunks, prefix: Bytes, payload: Bytes, position: nat)
    requires Built(t) && Progress(c, prefix, payload, position) && position < |payload|
    ensures |c.checksums| < ChunkCount(|prefix| + |payload|)
    ensures CloseChunk(t, c, c.nextEnd, Crc32(payload[..c.nextEnd]), |payload|).checksums == c.checksums + [ChunkCrc(prefix, payload, |c.checksums|)]
  {
    hide Crc32, Advance, Xor, Built, Correct;
    var k, start, end := |c.checksums|, c.previousEnd, c.nextEnd;
    CurrentChunk(c, prefix, payload, position);
    hide ValueChunk, EndOf;
    var (p, q) := ValueChunk(prefix, payload, k);
    CrcOfSlice(payload, start, end);
    if start == 0 {
      CombineIsConcatenation(prefix, q);
      XorCommutes(Advance(c.prefixCrc, |q|), Crc32(q));
    } else {
      assert p + q == q;
    }
  }

  /** The chunk being hashed is the payload since the last boundary, after the prefix if it is the first. */
  lemma {:induction false} CurrentChunk(c: Chunks, prefix: Bytes, payload: Bytes, position: nat)
    requires Progress(c, prefix, payload, position) && position < |payload|
    ensures |c.checksums| < ChunkCount(|prefix| + |payload|) && c.previousEnd <= c.nextEnd <= |payload|
    ensures ValueChunk(prefix, payload, |c.checksums|) == (if c.previousEnd == 0 then prefix else [], payload[c.previousEnd..c.nextEnd])
  {
    hide Crc32, Correct;
    var (p, q) := ValueChunk(prefix, payload, |c.checksums|);
    assert p == if c.previousEnd == 0 then prefix else [];
    assert q == payload[c.previousEnd..c.nextEnd];
  }

  lemma {:induction false} CloseKeeps(t: Tables, c: Chunks, prefix: Bytes, payload: Bytes, position: nat)
    requires Built(t) && Progress(c, prefix, payload, position) && position < |payload|
    ensures Progress(CloseChunk(t, c, c.nextEnd, Crc32(payload[..c.nextEnd]), |payload|), prefix, payload, c.nextEnd)
  {
    hide Crc32, Advance, Xor, Built, ChunkCrc, AdvanceCrc;
    ClosedChecksum(t, c, prefix, payload, position);
  }

  lemma {:induction false} SkipKeeps(c: Chunks, prefix: Bytes, payload: Bytes, position: nat, end: nat)
    requires Progress(c, prefix, payload, position) && position <= end < c.nextEnd
    ensures Progress(c, prefix, payload, end)
  {
    hide Crc32, ChunkCrc;
  }

  lemma {:induction false} Finished(c: Chunks, prefix: Bytes, payload: Bytes)
    requires Progress(c, prefix, payload, |payload|) && |payload| > 0
    ensures AllChunkCrcs(c.checksums, prefix, payload)
  {
    hide Crc32, ChunkCrc;
  }

  /** Without a payload the prefix alone is the only chunk, if there is one. */
  lemma {:induction false} PrefixOnly(prefix: Bytes)
    requires |prefix| < OVERFLOW_CHUNK_LEN
    ensures AllChunkCrcs(if prefix == [] then [] else [Crc32(prefix)], prefix, [])
  {
    hide Crc32;
    if prefix != [] {
      assert ChunkCount(|prefix|) == 1;
      var (p, q) := ValueChunk(prefix, [], 0);
      assert p + q == prefix;
    }
  }

  /** Every chunk checksum of two prefixed values, hashing the payload they share once. */
  method PairedPayloadChecksums(t: Tables, firstPrefix: Bytes, secondPrefix: Bytes, payload: Bytes) returns (first: seq<bv32>, second: seq<bv32>)
    requires Built(t) && |firstPrefix| < OVERFLOW_CHUNK_LEN && |secondPrefix| < OVERFLOW_CHUNK_LEN
    ensures AllChunkCrcs(first, firstPrefix, payload)
    ensures AllChunkCrcs(second, secondPrefix, payload)
  {
    hide Built, Progress, CloseChunk, AllChunkCrcs, Raw, Xor, Started;
    var a, b := Started(firstPrefix, payload), Started(secondPrefix, payload);
    StartProgresses(firstPrefix, payload);
    StartProgresses(secondPrefix, payload);
    if payload == [] {
      PrefixOnly(firstPrefix);
      PrefixOnly(secondPrefix);
      return if firstPrefix == [] then [] else [Crc32(firstPrefix)], if secondPrefix == [] then [] else [Crc32(secondPrefix)];
    }
    var register := ONES;
    var position: nat := 0;
    EmptyRaw(payload);
    while position < |payload|
      invariant position <= |payload|
      invariant register == Raw(ONES, payload[..position])
      invariant Progress(a, firstPrefix, payload, position)
      invariant Progress(b, secondPrefix, payload, position)
    {
      Bounds(a, firstPrefix, payload, position);
      Bounds(b, secondPrefix, payload, position);
      var end: nat := if a.nextEnd <= b.nextEnd then a.nextEnd else b.nextEnd;
      assert payload[..end] == payload[..position] + payload[position..end];
      RawAppend(ONES, payload[..position], payload[position..end]);
      register := Raw(register, payload[position..end]);
      var cumulative := Xor(register, ONES);
      a := CloseIfDue(t, a, firstPrefix, payload, position, end, cumulative);
      b := CloseIfDue(t, b, secondPrefix, payload, position, end, cumulative);
      position := end;
    }
    Finished(a, firstPrefix, payload);
    Finished(b, secondPrefix, payload);
    return a.checksums, b.checksums;
  }

  lemma {:induction false} EmptyRaw(payload: Bytes)
    ensures Raw(ONES, payload[..0]) == ONES
  {
  }

  lemma {:induction false} Bounds(c: Chunks, prefix: Bytes, payload: Bytes, position: nat)
    requires Progress(c, prefix, payload, position) && position < |payload|
    ensures c.previousEnd <= position < c.nextEnd <= |payload|
  {
    hide Crc32, Correct;
  }

  method CloseIfDue(t: Tables, c: Chunks, ghost prefix: Bytes, payload: Bytes, ghost position: nat, end: nat, cumulative: bv32) returns (c': Chunks)
    requires Built(t) && Progress(c, prefix, payload, position) && position < end <= c.nextEnd <= |payload|
    requires cumulative == Crc32(payload[..end])
    ensures Progress(c', prefix, payload, end)
  {
    hide Built, CloseChunk, Crc32, Correct;
    if c.nextEnd == end {
      CloseKeeps(t, c, prefix, payload, position);
      c' := CloseChunk(t, c, end, cumulative, |payload|);
    } else {
      SkipKeeps(c, prefix, payload, position, end);
      c' := c;
    }
  }

  // ---------- hashing around a zeroed field ----------

  function Clamp(at: nat, len: nat): nat {
    if at <= len then at else len
  }

  /** `bytes` with a region, cut off at the end of the buffer, set to zero. */
  function ZeroedRegion(bytes: Bytes, start: nat, len: nat): (r: Bytes)
    ensures |r| == |bytes|
    ensures forall i :: 0 <= i < |bytes| ==> r[i] == if start <= i < start + len then 0 else bytes[i]
  {
    var from, to := Clamp(start, |bytes|), Clamp(start + len, |bytes|);
    bytes[..from] + Zeros(to - from) + bytes[to..]
  }

  /** The checksum of `bytes` as if the region were zero, whether or not it already is. */
  method ChecksumWithZeroedRegion(bytes: Bytes, zeroStart: nat, zeroLen: nat) returns (r: bv32)
    ensures r == Crc32(ZeroedRegion(bytes, zeroStart, zeroLen))
  {
    hide Raw, Xor;
    var start, end := Clamp(zeroStart, |bytes|), Clamp(zeroStart + zeroLen, |bytes|);
    var hole := bytes[start..end];
    var register := ONES;
    if |hole| <= ZERO_BUFFER_LEN && forall i :: 0 <= i < |hole| ==> hole[i] == 0 {
      forall i | 0 <= i < |bytes| ensures ZeroedRegion(bytes, zeroStart, zeroLen)[i] == bytes[i] {
        if start <= i < end {
          assert hole[i - start] == bytes[i];
        }
      }
      assert ZeroedRegion(bytes, zeroStart, zeroLen) == bytes;
      register := Raw(register, bytes);
    } else {
      register := Raw(register, bytes[..start]);
      var remaining: nat := end - start;
      assert bytes[..start] + Zeros(0) == bytes[..start];
      while remaining > 0
        invariant remaining <= end - start
        invariant register == Raw(ONES, bytes[..start] + Zeros(end - start - remaining))
      {
        var chunk := if remaining <= ZERO_BUFFER_LEN then remaining else ZERO_BUFFER_LEN;
        var done := bytes[..start] + Zeros(end - start - remaining);
        RawAppend(ONES, done, Zeros(chunk));
        assert done + Zeros(chunk) == bytes[..start] + Zeros(end - start - remaining + chunk);
        register := Raw(register, Zeros(chunk));
        remaining := remaining - chunk;
      }
      RawAppend(ONES, bytes[..start] + Zeros(end - start), bytes[end..]);
      register := Raw(register, bytes[end..]);
    }
    r := Xor(register, ONES);
  }
}
