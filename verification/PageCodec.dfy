/** Leaf and internal pages as bytes: encoding, validation and the round trip. */
module PageCodec {
  import opened Keys
  import opened Numbers
  import opened Pages
  import opened Crc
  import opened PageHeaders
  import opened Slotted

  const LEAF_CELL_HEADER_LEN := 20
  const INTERNAL_CELL_HEADER_LEN := 12
  const MAX_PACKED_LEAF_CELLS := NODE_CAPACITY / 22
  const MAX_PACKED_INTERNAL_CELLS := NODE_CAPACITY / 14

  // ---------- leaf cells ----------

  /** What an external descriptor must satisfy. */
  predicate DescriptorOk(r: PayloadRef, prefixLen: nat) {
    && r.first > 0 && 0 < r.bodyLen && r.bodyLen + prefixLen <= MAX_STORED_VALUE_BYTES
    && (r.first + (32 + r.bodyLen + PAGE_SIZE - 1) / PAGE_SIZE - 1) * PAGE_SIZE < U64
  }

  function KindTag(c: LeafCell): Byte {
    match c
    case Inline(_, _) => 1
    case Overflow(_, _, _) => 2
    case External(_, _, _) => 3
  }

  function InlinePart(c: LeafCell): Bytes {
    match c
    case Inline(_, value) => value
    case Overflow(_, _, _) => []
    case External(_, r, prefix) => Le(r.bodyLen, 4) + Le(r.checksum, 4) + prefix
  }

  function TotalLen(c: LeafCell): nat {
    match c
    case Inline(_, value) => |value|
    case Overflow(_, _, len) => len
    case External(_, r, prefix) => r.bodyLen + |prefix|
  }

  function Head(c: LeafCell): PageId {
    match c
    case Inline(_, _) => 0
    case Overflow(_, head, _) => head
    case External(_, r, _) => r.first
  }

  function LeafBytes(c: LeafCell): (r: Bytes)
    ensures |r| == LEAF_CELL_HEADER_LEN + |c.key| + |InlinePart(c)|
  {
    Le(|c.key|, 2) + [KindTag(c), 0] + Le(TotalLen(c), 4) + Le(Head(c), 8) + Le(|InlinePart(c)|, 4) + c.key + InlinePart(c)
  }

  /** Cells the tree stores: fields in range, a valid overflow head or descriptor. */
  predicate LeafCellOk(c: LeafCell) {
    && |c.key| < U16 && TotalLen(c) < U32 && Head(c) < U64 && |InlinePart(c)| < U32
    && (c.Overflow? ==> c.head > 0 && c.totalLen > 0)
    && (c.External? ==> DescriptorOk(c.reference, |c.prefix|) && c.reference.checksum < U32 && c.reference.bodyLen < U32)
  }

  function LeafValue(key: Key, kind: Byte, total: nat, head: PageId, inline: Bytes): Option<LeafCell> {
    if kind == 1 then (if head == 0 && |inline| == total then Some(Inline(key, inline)) else None)
    else if kind == 2 then (if inline == [] && head != 0 && total != 0 then Some(Overflow(key, head, total)) else None)
    else if kind == 3 && |inline| >= 8 then
      var r := PayloadRef(head, NatOf(inline[0..4]), NatOf(inline[4..8]));
      if DescriptorOk(r, |inline| - 8) && r.bodyLen + |inline| - 8 == total then Some(External(key, r, inline[8..])) else None
    else None
  }

  function DecodeLeafCell(view: Bytes): Option<LeafCell> {
    if |view| < LEAF_CELL_HEADER_LEN then None
    else
      var keyLen, inlineLen := NatOf(view[0..2]), NatOf(view[16..20]);
      var end := LEAF_CELL_HEADER_LEN + keyLen;
      if end + inlineLen > |view| then None
      else LeafValue(view[20..end], view[2], NatOf(view[4..8]), NatOf(view[8..16]), view[end..end + inlineLen])
  }

  lemma {:induction false} LeafValueBack(c: LeafCell)
    requires LeafCellOk(c)
    ensures LeafValue(c.key, KindTag(c), TotalLen(c), Head(c), InlinePart(c)) == Some(c)
  {
    if c.External? {
      var inline := InlinePart(c);
      hide Le, NatOf, DescriptorOk;
      Le4(c.reference.bodyLen);
      Le4(c.reference.checksum);
      assert inline[0..4] == Le(c.reference.bodyLen, 4) && inline[4..8] == Le(c.reference.checksum, 4) && inline[8..] == c.prefix;
    }
  }

  lemma {:induction false} LeafFields(c: LeafCell, view: Bytes)
    requires LeafCellOk(c) && LeafBytes(c) <= view
    ensures |view| >= LEAF_CELL_HEADER_LEN + |c.key| + |InlinePart(c)|
    ensures NatOf(view[0..2]) == |c.key| && view[2] == KindTag(c) && NatOf(view[4..8]) == TotalLen(c)
    ensures NatOf(view[8..16]) == Head(c) && NatOf(view[16..20]) == |InlinePart(c)|
    ensures var end := LEAF_CELL_HEADER_LEN + |c.key|; view[20..end] == c.key && view[end..end + |InlinePart(c)|] == InlinePart(c)
  {
    hide Le, NatOf, InlinePart, TotalLen, Head, KindTag, DescriptorOk;
    var a, k, t, h, i := Le(|c.key|, 2), [KindTag(c), 0], Le(TotalLen(c), 4), Le(Head(c), 8), Le(|InlinePart(c)|, 4);
    var e := LeafBytes(c);
    assert e == a + k + t + h + i + c.key + InlinePart(c);
    var end := LEAF_CELL_HEADER_LEN + |c.key|;
    assert e[0..2] == a && e[2] == k[0] && e[4..8] == t && e[8..16] == h;
    assert e[16..20] == i && e[20..end] == c.key && e[end..end + |InlinePart(c)|] == InlinePart(c);
    SamePrefix(e, view, 0, 2);
    SamePrefix(e, view, 4, 8);
    SamePrefix(e, view, 8, 16);
    SamePrefix(e, view, 16, 20);
    SamePrefix(e, view, 20, end);
    SamePrefix(e, view, end, end + |InlinePart(c)|);
    Le2(|c.key|);
    Le4(TotalLen(c));
    Le8(Head(c));
    Le4(|InlinePart(c)|);
  }

  lemma {:induction false} SamePrefix(e: Bytes, view: Bytes, a: nat, b: nat)
    requires e <= view && a <= b <= |e|
    ensures view[a..b] == e[a..b]
  {
  }

  /** A stored cell reads back whatever follows it. */
  lemma {:induction false} LeafCellReadsBack(c: LeafCell, view: Bytes)
    requires LeafCellOk(c) && LeafBytes(c) <= view
    ensures DecodeLeafCell(view) == Some(c)
  {
    hide LeafBytes, NatOf, LeafValue, LeafCellOk;
    LeafFields(c, view);
    LeafValueBack(c);
  }

  // ---------- internal cells ----------

  function InternalBytes(c: InternalCell): (r: Bytes)
    ensures |r| == INTERNAL_CELL_HEADER_LEN + |c.separator|
  {
    Le(|c.separator|, 2) + Le(0, 2) + Le(c.child, 8) + c.separator
  }

  predicate InternalCellOk(c: InternalCell) {
    |c.separator| < U16 && 0 < c.child < U64
  }

  function DecodeInternalCell(view: Bytes): Option<InternalCell> {
    if |view| < INTERNAL_CELL_HEADER_LEN then None
    else
      var len, child := NatOf(view[0..2]), NatOf(view[4..12]);
      if child == 0 || INTERNAL_CELL_HEADER_LEN + len > |view| then None
      else Some(InternalCell(view[12..12 + len], child))
  }

  lemma {:induction false} InternalCellReadsBack(c: InternalCell, view: Bytes)
    requires InternalCellOk(c) && InternalBytes(c) <= view
    ensures DecodeInternalCell(view) == Some(c)
  {
    hide Le, NatOf;
    var e, end := InternalBytes(c), INTERNAL_CELL_HEADER_LEN + |c.separator|;
    assert e[0..2] == Le(|c.separator|, 2) && e[4..12] == Le(c.child, 8) && e[12..end] == c.separator;
    SamePrefix(e, view, 0, 2);
    SamePrefix(e, view, 4, 12);
    SamePrefix(e, view, 12, end);
    Le2(|c.separator|);
    Le8(c.child);
  }

  // ---------- what validation checks ----------

  predicate SlotOk(page: Bytes, h: Header, i: nat) {
    && |page| == PAGE_SIZE && PAGE_HEADER_SIZE + 2 * i + 2 <= PAGE_SIZE
    && h.upper <= ReadSlot(page, i) < PAGE_SIZE
  }

  predicate LeafAt(page: Bytes, h: Header, i: nat, c: LeafCell) {
    SlotOk(page, h, i) && DecodeLeafCell(page[ReadSlot(page, i)..]) == Some(c)
  }

  function LeafSpan(slot: nat, c: LeafCell): Span {
    Span(slot, slot + LEAF_CELL_HEADER_LEN + |c.key| + |InlinePart(c)|)
  }

  function LeafSpans(page: Bytes, cells: seq<LeafCell>): (r: seq<Span>)
    requires |page| == PAGE_SIZE && PAGE_HEADER_SIZE + 2 * |cells| <= PAGE_SIZE
    ensures |r| == |cells|
  {
    seq(|cells|, i requires 0 <= i < |cells| => LeafSpan(ReadSlot(page, i), cells[i]))
  }

  ghost predicate HeadsDistinct(cells: seq<LeafCell>) {
    forall i, j :: 0 <= i < j < |cells| && cells[i].Overflow? && cells[j].Overflow? ==> cells[i].head != cells[j].head
  }

  ghost function HeadsOf(cells: seq<LeafCell>): set<PageId> {
    set c | c in cells && c.Overflow? :: c.head
  }

  lemma {:induction false} NoHeads()
    ensures HeadsOf([]) == {} && HeadsDistinct([])
  {
  }

  lemma {:induction false} HeadsSnoc(cells: seq<LeafCell>, c: LeafCell)
    ensures HeadsOf(cells + [c]) == HeadsOf(cells) + if c.Overflow? then {c.head} else {}
    ensures HeadsDistinct(cells + [c]) <==> HeadsDistinct(cells) && (c.Overflow? ==> c.head !in HeadsOf(cells))
  {
    var more := cells + [c];
    if HeadsDistinct(more) {
      assert forall i :: 0 <= i < |cells| ==> more[i] == cells[i] && more[|cells|] == c;
    }
    assert forall i :: 0 <= i < |cells| ==> cells[i] in cells;
  }

  ghost predicate LeafKeysIncrease(cells: seq<LeafCell>) {
    forall i :: 0 < i < |cells| ==> Less(cells[i - 1].key, cells[i].key)
  }

  /** `page` is a valid leaf page holding `cells`. */
  ghost predicate LeafPageHolds(page: Bytes, h: Header, cells: seq<LeafCell>) {
    && DecodeHeader(page) == Some(h) && h.kind.LeafKind? && |cells| == h.cellCount && |page| == PAGE_SIZE
    && PAGE_HEADER_SIZE + 2 * |cells| <= PAGE_SIZE
    && (forall i :: 0 <= i < |cells| ==> LeafAt(page, h, i, cells[i]))
    && LeafKeysIncrease(cells) && HeadsDistinct(cells)
    && |cells| <= MAX_PACKED_LEAF_CELLS
    && NoOverlap(LeafSpans(page, cells))
  }

  lemma {:induction false} HeaderBounds(page: Bytes, h: Header)
    requires DecodeHeader(page) == Some(h)
    ensures |page| == PAGE_SIZE && PAGE_HEADER_SIZE + 2 * h.cellCount <= PAGE_SIZE
  {
    hide Crc32, LittleEndian, NatOf;
  }

  /** Decodes a leaf page, with every structural check. */
  method DecodeLeafPage(page: Bytes) returns (r: Option<seq<LeafCell>>)
    ensures r.Some? ==> DecodeHeader(page).Some? && LeafPageHolds(page, DecodeHeader(page).value, r.value)
    ensures forall h, cells :: LeafPageHolds(page, h, cells) ==> r == Some(cells)
  {
    hide DecodeHeader, DecodeLeafCell, Less, ReadSlot, NoOverlap, HeadsOf, HeadsDistinct;
    assert HeadsOf([]) == {} && HeadsDistinct([]) by { NoHeads(); }
    var header := DecodeHeader(page);
    if header.None? || !header.value.kind.LeafKind? {
      return None;
    }
    var h := header.value;
    HeaderBounds(page, h);
    var cells: seq<LeafCell> := [];
    var heads: set<PageId> := {};
    while |cells| < h.cellCount
      invariant |cells| <= h.cellCount
      invariant forall i :: 0 <= i < |cells| ==> LeafAt(page, h, i, cells[i])
      invariant LeafKeysIncrease(cells) && HeadsDistinct(cells)
      invariant heads == HeadsOf(cells)
      invariant forall h', out :: LeafPageHolds(page, h', out) ==> cells <= out
    {
      var i := |cells|;
      if !SlotOk(page, h, i) {
        return None;
      }
      var cell := DecodeLeafCell(page[ReadSlot(page, i)..]);
      if cell.None? {
        return None;
      }
      var c := cell.value;
      assert forall h', out :: LeafPageHolds(page, h', out) ==> |out| > i && out[i] == c && cells + [c] <= out && HeadsDistinct(cells + [c]) by {
        NextLeafCell(page, h, cells, c);
      }
      if i > 0 && !Less(cells[i - 1].key, c.key) {
        return None;
      }
      HeadsSnoc(cells, c);
      if c.Overflow? {
        if c.head in heads {
          return None;
        }
        heads := heads + {c.head};
      }
      cells := cells + [c];
    }
    assert forall h', out :: LeafPageHolds(page, h', out) ==> out == cells;
    if |cells| > MAX_PACKED_LEAF_CELLS {
      return None;
    }
    var disjoint := RejectOverlapping(LeafSpans(page, cells));
    if !disjoint {
      return None;
    }
    return Some(cells);
  }

  lemma {:induction false} NextLeafCell(page: Bytes, h: Header, cells: seq<LeafCell>, c: LeafCell)
    requires DecodeHeader(page) == Some(h) && LeafAt(page, h, |cells|, c) && |cells| < h.cellCount
    requires forall h', out :: LeafPageHolds(page, h', out) ==> cells <= out
    ensures forall h', out :: LeafPageHolds(page, h', out) ==> |out| > |cells| && out[|cells|] == c && cells + [c] <= out && HeadsDistinct(cells + [c])
  {
    hide DecodeHeader, DecodeLeafCell, Less, ReadSlot, NoOverlap, LeafSpans;
    forall h', out | LeafPageHolds(page, h', out) ensures |out| > |cells| && out[|cells|] == c && cells + [c] <= out && HeadsDistinct(cells + [c]) {
      assert LeafAt(page, h', |cells|, out[|cells|]);
      assert out[..|cells| + 1] == cells + [c];
    }
  }

  // ---------- leaf pages round trip ----------

  function EncodedLeaves(cells: seq<LeafCell>): (r: seq<Bytes>)
    ensures |r| == |cells|
  {
    seq(|cells|, i requires 0 <= i < |cells| => LeafBytes(cells[i]))
  }

  lemma {:induction false} StartsDescend(cells: seq<Bytes>, i: nat, j: nat)
    requires i < j < |cells|
    ensures Start(cells, j) + |cells[j]| <= Start(cells, i)
  {
    hide Packed;
    var rest := cells[i + 1..];
    PackedAt(rest, j - i - 1);
    assert rest[j - i - 1] == cells[j] && rest[j - i..] == cells[j + 1..];
  }

  lemma {:induction false} PackedAtLeast(cells: seq<Bytes>, size: nat)
    requires forall i :: 0 <= i < |cells| ==> |cells[i]| >= size
    ensures |Packed(cells)| >= size * |cells|
    decreases |cells|
  {
    if cells != [] {
      PackedAtLeast(cells[1..], size);
    }
  }

  /** Everything the encoder is given: cells in order, with heads and fields as the tree keeps them. */
  ghost predicate LeafCellsOk(cells: seq<LeafCell>) {
    (forall i :: 0 <= i < |cells| ==> LeafCellOk(cells[i])) && LeafKeysIncrease(cells) && HeadsDistinct(cells)
  }

  /** Decoding an encoded leaf page gives back its cells, and every check passes. */
  lemma {:induction false} LeafRoundTrip(id: PageId, sibling: PageId, cells: seq<LeafCell>)
    requires 0 < id < U64 && sibling < U64 && LeafCellsOk(cells) && FitsPage(EncodedLeaves(cells))
    ensures var es := EncodedLeaves(cells);
            LeafPageHolds(SlottedImage(id, LeafKind, 0, sibling, es), SlottedHeader(id, LeafKind, 0, sibling, es), cells)
  {
    hide SlottedImage, DecodeHeader, DecodeLeafCell, LeafBytes, LeafCellOk, ReadSlot, Packed, HeadsDistinct, LeafKeysIncrease;
    var es := EncodedLeaves(cells);
    var page, h := SlottedImage(id, LeafKind, 0, sibling, es), SlottedHeader(id, LeafKind, 0, sibling, es);
    assert DecodeHeader(page) == Some(h) by { SlottedHeaderReads(id, LeafKind, 0, sibling, es); }
    HeaderBounds(page, h);
    forall i | 0 <= i < |cells| ensures ReadSlot(page, i) == Start0(es, i) && LeafAt(page, h, i, cells[i]) {
      SlotPointsAtCell(id, LeafKind, 0, sibling, es, i);
      StartBounds(es, i);
      LeafCellReadsBack(cells[i], page[Start0(es, i)..]);
    }
    var spans := LeafSpans(page, cells);
    forall i, j | 0 <= i < j < |spans| ensures spans[j].end <= spans[i].start {
      StartsDescend(es, i, j);
    }
    assert |cells| <= MAX_PACKED_LEAF_CELLS by {
      PackedAtLeast(es, LEAF_CELL_HEADER_LEN);
    }
  }

  lemma {:induction false} SlottedHeaderReads(id: PageId, kind: PageKind, level: nat, sibling: PageId, cells: seq<Bytes>)
    requires FitsPage(cells) && 0 < id < U64 && sibling < U64 && !kind.OverflowKind?
    requires if kind.LeafKind? then level == 0 else 1 <= level <= MAX_TREE_LEVEL && cells != []
    ensures DecodeHeader(SlottedImage(id, kind, level, sibling, cells)) == Some(SlottedHeader(id, kind, level, sibling, cells))
  {
    hide DecodeHeader, Image, Packed, Body;
    ImageHeader(SlottedHeader(id, kind, level, sibling, cells), Body(cells));
  }

  // ---------- internal pages ----------

  predicate InternalAt(page: Bytes, h: Header, i: nat, c: InternalCell) {
    SlotOk(page, h, i) && DecodeInternalCell(page[ReadSlot(page, i)..]) == Some(c)
  }

  function InternalSpans(page: Bytes, cells: seq<InternalCell>): (r: seq<Span>)
    requires |page| == PAGE_SIZE && PAGE_HEADER_SIZE + 2 * |cells| <= PAGE_SIZE
    ensures |r| == |cells|
  {
    seq(|cells|, i requires 0 <= i < |cells| =>
      Span(ReadSlot(page, i), ReadSlot(page, i) + INTERNAL_CELL_HEADER_LEN + |cells[i].separator|))
  }

  ghost predicate ChildrenDistinct(cells: seq<InternalCell>) {
    forall i, j :: 0 <= i < j < |cells| ==> cells[i].child != cells[j].child
  }

  ghost function ChildrenOf(cells: seq<InternalCell>): set<PageId> {
    set c | c in cells :: c.child
  }

  lemma {:induction false} NoChildren()
    ensures ChildrenOf([]) == {} && ChildrenDistinct([])
  {
  }

  lemma {:induction false} ChildrenSnoc(cells: seq<InternalCell>, c: InternalCell)
    ensures ChildrenOf(cells + [c]) == ChildrenOf(cells) + {c.child}
    ensures ChildrenDistinct(cells + [c]) <==> ChildrenDistinct(cells) && c.child !in ChildrenOf(cells)
  {
    var more := cells + [c];
    if ChildrenDistinct(more) {
      assert forall i :: 0 <= i < |cells| ==> more[i] == cells[i] && more[|cells|] == c;
    }
    assert forall i :: 0 <= i < |cells| ==> cells[i] in cells;
  }

  ghost predicate SeparatorsIncreasing(cells: seq<InternalCell>) {
    forall i :: 0 < i < |cells| ==> Less(cells[i - 1].separator, cells[i].separator)
  }

  ghost predicate InternalPageHolds(page: Bytes, h: Header, cells: seq<InternalCell>) {
    && DecodeHeader(page) == Some(h) && h.kind.InternalKind? && |cells| == h.cellCount && |page| == PAGE_SIZE
    && PAGE_HEADER_SIZE + 2 * |cells| <= PAGE_SIZE
    && (forall i :: 0 <= i < |cells| ==> InternalAt(page, h, i, cells[i]))
    && SeparatorsIncreasing(cells) && ChildrenDistinct(cells)
    && |cells| <= MAX_PACKED_INTERNAL_CELLS
    && NoOverlap(InternalSpans(page, cells))
  }

  /** Decodes an internal page, with every structural check. */
  method DecodeInternalPage(page: Bytes) returns (r: Option<seq<InternalCell>>)
    ensures r.Some? ==> DecodeHeader(page).Some? && InternalPageHolds(page, DecodeHeader(page).value, r.value)
    ensures forall h, cells :: InternalPageHolds(page, h, cells) ==> r == Some(cells)
  {
    hide DecodeHeader, DecodeInternalCell, Less, ReadSlot, NoOverlap, ChildrenOf, ChildrenDistinct;
    assert ChildrenOf([]) == {} && ChildrenDistinct([]) by { NoChildren(); }
    var header := DecodeHeader(page);
    if header.None? || !header.value.kind.InternalKind? {
      return None;
    }
    var h := header.value;
    HeaderBounds(page, h);
    var cells: seq<InternalCell> := [];
    var children: set<PageId> := {};
    while |cells| < h.cellCount
      invariant |cells| <= h.cellCount
      invariant forall i :: 0 <= i < |cells| ==> InternalAt(page, h, i, cells[i])
      invariant SeparatorsIncreasing(cells) && ChildrenDistinct(cells)
      invariant children == ChildrenOf(cells)
      invariant forall h', out :: InternalPageHolds(page, h', out) ==> cells <= out
    {
      var i := |cells|;
      if !SlotOk(page, h, i) {
        return None;
      }
      var cell := DecodeInternalCell(page[ReadSlot(page, i)..]);
      if cell.None? {
        return None;
      }
      var c := cell.value;
      assert forall h', out :: InternalPageHolds(page, h', out) ==> |out| > i && out[i] == c && cells + [c] <= out && ChildrenDistinct(cells + [c]) by {
        NextInternalCell(page, h, cells, c);
      }
      if i > 0 && !Less(cells[i - 1].separator, c.separator) {
        return None;
      }
      ChildrenSnoc(cells, c);
      if c.child in children {
        return None;
      }
      children := children + {c.child};
      cells := cells + [c];
    }
    assert forall h', out :: InternalPageHolds(page, h', out) ==> out == cells;
    if |cells| > MAX_PACKED_INTERNAL_CELLS {
      return None;
    }
    var disjoint := RejectOverlapping(InternalSpans(page, cells));
    if !disjoint {
      return None;
    }
    return Some(cells);
  }

  lemma {:induction false} NextInternalCell(page: Bytes, h: Header, cells: seq<InternalCell>, c: InternalCell)
    requires DecodeHeader(page) == Some(h) && InternalAt(page, h, |cells|, c) && |cells| < h.cellCount
    requires forall h', out :: InternalPageHolds(page, h', out) ==> cells <= out
    ensures forall h', out :: InternalPageHolds(page, h', out) ==> |out| > |cells| && out[|cells|] == c && cells + [c] <= out && ChildrenDistinct(cells + [c])
  {
    hide DecodeHeader, DecodeInternalCell, Less, ReadSlot, NoOverlap, InternalSpans;
    forall h', out | InternalPageHolds(page, h', out) ensures |out| > |cells| && out[|cells|] == c && cells + [c] <= out && ChildrenDistinct(cells + [c]) {
      assert InternalAt(page, h', |cells|, out[|cells|]);
      assert out[..|cells| + 1] == cells + [c];
    }
  }

  function EncodedInternals(cells: seq<InternalCell>): (r: seq<Bytes>)
    ensures |r| == |cells|
  {
    seq(|cells|, i requires 0 <= i < |cells| => InternalBytes(cells[i]))
  }

  ghost predicate InternalCellsOk(cells: seq<InternalCell>) {
    (forall i :: 0 <= i < |cells| ==> InternalCellOk(cells[i])) && SeparatorsIncreasing(cells) && ChildrenDistinct(cells)
  }

  /** Decoding an encoded internal page gives back its cells, and every check passes. */
  lemma {:induction false} InternalRoundTrip(id: PageId, level: nat, sibling: PageId, cells: seq<InternalCell>)
    requires 0 < id < U64 && sibling < U64 && 1 <= level <= MAX_TREE_LEVEL && cells != []
    requires InternalCellsOk(cells) && FitsPage(EncodedInternals(cells))
    ensures var es := EncodedInternals(cells);
            InternalPageHolds(SlottedImage(id, InternalKind, level, sibling, es), SlottedHeader(id, InternalKind, level, sibling, es), cells)
  {
    hide SlottedImage, DecodeHeader, DecodeInternalCell, InternalBytes, InternalCellOk, ReadSlot, Packed, ChildrenDistinct, SeparatorsIncreasing;
    var es := EncodedInternals(cells);
    var page, h := SlottedImage(id, InternalKind, level, sibling, es), SlottedHeader(id, InternalKind, level, sibling, es);
    assert DecodeHeader(page) == Some(h) by { SlottedHeaderReads(id, InternalKind, level, sibling, es); }
    HeaderBounds(page, h);
    forall i | 0 <= i < |cells| ensures ReadSlot(page, i) == Start0(es, i) && InternalAt(page, h, i, cells[i]) {
      SlotPointsAtCell(id, InternalKind, level, sibling, es, i);
      StartBounds(es, i);
      InternalCellReadsBack(cells[i], page[Start0(es, i)..]);
    }
    var spans := InternalSpans(page, cells);
    forall i, j | 0 <= i < j < |spans| ensures spans[j].end <= spans[i].start {
      StartsDescend(es, i, j);
    }
    assert |cells| <= MAX_PACKED_INTERNAL_CELLS by {
      PackedAtLeast(es, INTERNAL_CELL_HEADER_LEN);
    }
  }

  // ---------- the tree's cost bound is the page's capacity ----------

  /** Cells within the packing budget of the tree writer fit in a page. */
  lemma {:induction false} LeafCostFits(cells: seq<LeafCell>)
    ensures Lower(EncodedLeaves(cells)) + |Packed(EncodedLeaves(cells))| == PAGE_HEADER_SIZE + LeafCost(cells)
    ensures FitsPage(EncodedLeaves(cells)) <==> LeafCost(cells) <= NODE_CAPACITY
    decreases |cells|
  {
    hide LeafBytes;
    if cells == [] {
      assert EncodedLeaves(cells) == [];
    } else {
      assert EncodedLeaves(cells)[1..] == EncodedLeaves(cells[1..]);
      LeafCostFits(cells[1..]);
      InlineLength(cells[0]);
    }
  }

  lemma {:induction false} InlineLength(c: LeafCell)
    ensures LeafCellCost(c) == |LeafBytes(c)| + 2
  {
  }

  lemma {:induction false} InternalCostFits(cells: seq<InternalCell>)
    ensures Lower(EncodedInternals(cells)) + |Packed(EncodedInternals(cells))| == PAGE_HEADER_SIZE + InternalCost(cells)
    ensures FitsPage(EncodedInternals(cells)) <==> InternalCost(cells) <= NODE_CAPACITY
    decreases |cells|
  {
    hide InternalBytes;
    if cells == [] {
      assert EncodedInternals(cells) == [];
    } else {
      assert EncodedInternals(cells)[1..] == EncodedInternals(cells[1..]);
      InternalCostFits(cells[1..]);
    }
  }
}
