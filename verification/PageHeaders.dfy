/** The page header: its encoding, its invariants and the check every image must pass. */
module PageHeaders {
  import opened Keys
  import opened Numbers
  import opened Pages
  import opened Crc
  import opened CrcShortcuts

  const PAGE_MAGIC: Bytes := [80, 65, 71, 49]

  datatype PageKind = LeafKind | InternalKind | OverflowKind

  datatype Header = Header(id: PageId, kind: PageKind, level: nat, cellCount: nat, lower: nat, upper: nat, rightSibling: PageId)

  function KindByte(k: PageKind): Byte {
    match k
    case LeafKind => 1
    case InternalKind => 2
    case OverflowKind => 3
  }

  function KindOf(b: Byte): Option<PageKind> {
    if b == 1 then Some(LeafKind) else if b == 2 then Some(InternalKind) else if b == 3 then Some(OverflowKind) else None
  }

  predicate BoundsOk(h: Header) {
    && h.id != 0
    && (match h.kind
        case LeafKind => h.level == 0
        case InternalKind => h.level != 0 && h.level <= MAX_TREE_LEVEL && h.cellCount != 0
        case OverflowKind => h.level == 0 && h.cellCount == 0 && h.rightSibling == 0)
    && PAGE_HEADER_SIZE + h.cellCount * 2 <= h.lower <= h.upper <= PAGE_SIZE
  }

  /** The header fields of a page that already passed its checksum. */
  function ReadHeader(page: Bytes): Option<Header> {
    if |page| != PAGE_SIZE then None
    else
      var kind := KindOf(page[16]);
      if kind.None? then None
      else
        var h := Header(NatOf(page[8..16]), kind.value, page[17], NatOf(page[18..20]), NatOf(page[20..22]), NatOf(page[22..24]), NatOf(page[26..34]));
        if BoundsOk(h) then Some(h) else None
  }

  function Resealed(page: Bytes): Bytes
    requires |page| == PAGE_SIZE
  {
    page[..4] + Zeros(4) + page[8..]
  }

  function DecodeHeader(page: Bytes): Option<Header> {
    if |page| == PAGE_SIZE && page[..4] == PAGE_MAGIC && page[4..8] == LittleEndian(Crc32(Resealed(page)))
    then ReadHeader(page)
    else None
  }

  /** Size, magic, checksum, header invariants and expected page id. */
  predicate ImageVerifies(page: Bytes, id: PageId) {
    DecodeHeader(page).Some? && DecodeHeader(page).value.id == id
  }

  lemma {:induction false} VerifiedIsSealed(page: Bytes, id: PageId)
    requires ImageVerifies(page, id)
    ensures id > 0 && Sealed(page, Crc32(Resealed(page)))
  {
    hide Crc32, LittleEndian, NatOf;
  }
}
