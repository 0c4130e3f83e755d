/** The slotted layout: header, slot table, free gap, and cells packed from the end of the page. */
module Slotted {
  import opened Keys
  import opened Numbers
  import opened Pages
  import opened Crc
  import opened CrcShortcuts
  import opened PageHeaders

  // ---------- layout ----------

  /** Cells as they lie in the page: the last one first. */
  function Packed(cells: seq<Bytes>): Bytes {
    if cells == [] then [] else Packed(cells[1..]) + cells[0]
  }

  function Upper(cells: seq<Bytes>): int {
    PAGE_SIZE - |Packed(cells)|
  }

  function Lower(cells: seq<Bytes>): nat {
    PAGE_HEADER_SIZE + 2 * |cells|
  }

  predicate FitsPage(cells: seq<Bytes>) {
    Lower(cells) <= Upper(cells)
  }

  /** Where cell `i` starts. */
  function Start(cells: seq<Bytes>, i: nat): int
    requires i < |cells|
  {
    PAGE_SIZE - |Packed(cells)| + |Packed(cells[i + 1..])|
  }

  function SlotTable(cells: seq<Bytes>, n: nat): (r: Bytes)
    requires FitsPage(cells) && n <= |cells|
    ensures |r| == 2 * n
  {
    if n == 0 then [] else SlotTable(cells, n - 1) + Le(Start0(cells, n - 1), 2)
  }

  function Start0(cells: seq<Bytes>, i: nat): nat
    requires FitsPage(cells) && i < |cells|
  {
    StartBounds(cells, i);
    Start(cells, i)
  }

  lemma {:induction false} PackedSplits(cells: seq<Bytes>, i: nat)
    requires i <= |cells|
    ensures Packed(cells) == Packed(cells[i..]) + Packed(cells[..i])
    decreases i
  {
    if i == 0 {
      assert cells[0..] == cells && cells[..0] == [];
    } else {
      PackedSplits(cells[1..], i - 1);
      assert cells[1..][i - 1..] == cells[i..];
      assert cells[..i][1..] == cells[1..][..i - 1];
      assert (Packed(cells[i..]) + Packed(cells[1..][..i - 1])) + cells[0] == Packed(cells[i..]) + (Packed(cells[1..][..i - 1]) + cells[0]);
    }
  }

  lemma {:induction false} PackedAt(cells: seq<Bytes>, i: nat)
    requires i < |cells|
    ensures Packed(cells) == Packed(cells[i + 1..]) + cells[i] + Packed(cells[..i])
  {
    PackedSplits(cells, i);
    assert cells[i..][1..] == cells[i + 1..] && cells[i..][0] == cells[i];
  }

  lemma {:induction false} StartBounds(cells: seq<Bytes>, i: nat)
    requires FitsPage(cells) && i < |cells|
    ensures Upper(cells) <= Start(cells, i) && Start(cells, i) + |cells[i]| <= PAGE_SIZE
    ensures PAGE_HEADER_SIZE <= Start(cells, i)
  {
    hide Packed;
    PackedAt(cells, i);
  }

  // ---------- images ----------

  function HeaderTail(h: Header): (r: Bytes)
    ensures |r| == 26
  {
    Le(h.id, 8) + [KindByte(h.kind), LevelByte(h.level)] + Le(h.cellCount, 2) + Le(h.lower, 2) + Le(h.upper, 2) + Le(0, 2) + Le(h.rightSibling, 8)
  }

  function LevelByte(level: nat): Byte {
    level % 256
  }

  /** A page with this header and body, sealed by its checksum. */
  function Image(h: Header, body: Bytes): (r: Bytes)
    ensures |r| == PAGE_HEADER_SIZE + |body|
  {
    PAGE_MAGIC + LittleEndian(Crc32(PAGE_MAGIC + Zeros(4) + (HeaderTail(h) + body))) + (HeaderTail(h) + body)
  }

  predicate HeaderFits(h: Header) {
    h.id < U64 && h.level < 256 && h.cellCount < U16 && h.lower < U16 && h.upper < U16 && h.rightSibling < U64
  }

  lemma {:induction false} TailFields(h: Header, body: Bytes)
    requires HeaderFits(h)
    ensures var t := HeaderTail(h) + body;
            && NatOf(t[0..8]) == h.id && t[8] == KindByte(h.kind) && t[9] == h.level && NatOf(t[10..12]) == h.cellCount
            && NatOf(t[12..14]) == h.lower && NatOf(t[14..16]) == h.upper && NatOf(t[18..26]) == h.rightSibling
  {
    hide Le, NatOf;
    var a, k, c := Le(h.id, 8), [KindByte(h.kind), LevelByte(h.level)], Le(h.cellCount, 2);
    var l, u, z, s := Le(h.lower, 2), Le(h.upper, 2), Le(0, 2), Le(h.rightSibling, 8);
    var t := HeaderTail(h) + body;
    assert t == a + k + c + l + u + z + s + body;
    assert t[0..8] == a && t[8] == k[0] && t[9] == k[1];
    assert t[10..12] == c && t[12..14] == l;
    assert t[14..16] == u && t[18..26] == s;
    Le8(h.id);
    Le2(h.cellCount);
    Le2(h.lower);
    Le2(h.upper);
    Le8(h.rightSibling);
  }

  /** A sealed image passes every header check and reads back its header. */
  lemma {:induction false} ImageHeader(h: Header, body: Bytes)
    requires HeaderFits(h) && BoundsOk(h) && |body| == PAGE_SIZE - PAGE_HEADER_SIZE
    ensures DecodeHeader(Image(h, body)) == Some(h)
  {
    hide Crc32, LittleEndian, HeaderTail, NatOf, BoundsOk;
    var tail := HeaderTail(h) + body;
    var sum := LittleEndian(Crc32(PAGE_MAGIC + Zeros(4) + tail));
    var page := Image(h, body);
    assert page == PAGE_MAGIC + sum + tail;
    assert page[..4] == PAGE_MAGIC && page[4..8] == sum && page[8..] == tail;
    assert Resealed(page) == PAGE_MAGIC + Zeros(4) + tail;
    TailFields(h, body);
    FieldsFrom(page, tail);
    assert KindOf(KindByte(h.kind)) == Some(h.kind);
  }

  lemma {:induction false} FieldsFrom(page: Bytes, tail: Bytes)
    requires |page| == PAGE_SIZE && page[8..] == tail
    ensures page[8..16] == tail[0..8] && page[16] == tail[8] && page[17] == tail[9] && page[18..20] == tail[10..12]
    ensures page[20..22] == tail[12..14] && page[22..24] == tail[14..16] && page[26..34] == tail[18..26]
  {
    assert forall i :: 8 <= i < PAGE_SIZE ==> page[i] == tail[i - 8];
  }

  function SlottedHeader(id: PageId, kind: PageKind, level: nat, sibling: PageId, cells: seq<Bytes>): Header
    requires FitsPage(cells)
  {
    Header(id, kind, level, |cells|, Lower(cells), Upper(cells), sibling)
  }

  function Body(cells: seq<Bytes>): (r: Bytes)
    requires FitsPage(cells)
    ensures |r| == PAGE_SIZE - PAGE_HEADER_SIZE
  {
    SlotTable(cells, |cells|) + Zeros(Upper(cells) - Lower(cells)) + Packed(cells)
  }

  function SlottedImage(id: PageId, kind: PageKind, level: nat, sibling: PageId, cells: seq<Bytes>): Bytes
    requires FitsPage(cells)
  {
    Image(SlottedHeader(id, kind, level, sibling, cells), Body(cells))
  }

  // ---------- encoding ----------

  method Encode(id: PageId, kind: PageKind, level: nat, sibling: PageId, cells: seq<Bytes>) returns (page: Option<Bytes>)
    ensures page.Some? <==> FitsPage(cells)
    ensures page.Some? ==> page.value == SlottedImage(id, kind, level, sibling, cells)
  {
    hide Packed, Image, Le;
    var payload := TotalLength(cells);
    if PAGE_HEADER_SIZE + 2 * |cells| + payload > PAGE_SIZE {
      return None;
    }
    var slots, data := FillCells(cells);
    var body := slots + Zeros(Upper(cells) - Lower(cells)) + data;
    return Some(Image(SlottedHeader(id, kind, level, sibling, cells), body));
  }

  method TotalLength(cells: seq<Bytes>) returns (n: nat)
    ensures n == |Packed(cells)|
  {
    n := 0;
    var i: nat := 0;
    assert cells[..0] == [];
    while i < |cells|
      invariant i <= |cells| && n == |Packed(cells[..i])|
    {
      PackedSplits(cells[..i + 1], i);
      assert cells[..i + 1][i..] == [cells[i]] && cells[..i + 1][..i] == cells[..i];
      assert Packed([cells[i]]) == Packed([cells[i]][1..]) + cells[i] == cells[i];
      n := n + |cells[i]|;
      i := i + 1;
    }
    assert cells[..i] == cells;
  }

  /** Appends the cells from the last to the first and records where each starts. */
  method FillCells(cells: seq<Bytes>) returns (slots: Bytes, data: Bytes)
    requires FitsPage(cells)
    ensures slots == SlotTable(cells, |cells|) && data == Packed(cells)
  {
    hide Packed, SlotTable, Le;
    var index: nat := |cells|;
    var starts: seq<nat> := [];
    data := [];
    assert cells[|cells|..] == [];
    assert Packed([]) == [] by { NothingPacked(); }
    while index > 0
      invariant index <= |cells| && data == Packed(cells[index..])
      invariant |starts| == |cells| - index
      invariant forall i :: index <= i < |cells| ==> starts[i - index] == Start0(cells, i)
    {
      index := index - 1;
      StartBounds(cells, index);
      starts := [Upper(cells) + |data|] + starts;
      PackedCons(cells, index);
      data := data + cells[index];
    }
    assert cells[0..] == cells;
    slots := [];
    var i: nat := 0;
    assert SlotTable(cells, 0) == [] by { NoSlots(cells); }
    while i < |cells|
      invariant i <= |cells| && slots == SlotTable(cells, i)
    {
      SlotTableNext(cells, i);
      slots := slots + Le(starts[i], 2);
      i := i + 1;
    }
  }

  lemma {:induction false} NothingPacked()
    ensures Packed([]) == []
  {
  }

  lemma {:induction false} NoSlots(cells: seq<Bytes>)
    requires FitsPage(cells)
    ensures SlotTable(cells, 0) == []
  {
  }

  lemma {:induction false} SlotTableNext(cells: seq<Bytes>, i: nat)
    requires FitsPage(cells) && i < |cells|
    ensures SlotTable(cells, i + 1) == SlotTable(cells, i) + Le(Start0(cells, i), 2)
  {
  }

  lemma {:induction false} PackedCons(cells: seq<Bytes>, i: nat)
    requires i < |cells|
    ensures Packed(cells[i..]) == Packed(cells[i + 1..]) + cells[i]
  {
    assert cells[i..][1..] == cells[i + 1..];
  }

  /** An empty leaf page, sealed by its checksum. */
  function EmptyLeaf(p: PageId): Bytes {
    Image(Header(p, LeafKind, 0, 0, PAGE_HEADER_SIZE, PAGE_SIZE, 0), Zeros(PAGE_SIZE - PAGE_HEADER_SIZE))
  }

  lemma {:induction false} EmptyLeafVerifies(p: PageId)
    requires 0 < p < U64
    ensures ImageVerifies(EmptyLeaf(p), p) && |EmptyLeaf(p)| == PAGE_SIZE
  {
    hide Image, DecodeHeader;
    ImageHeader(Header(p, LeafKind, 0, 0, PAGE_HEADER_SIZE, PAGE_SIZE, 0), Zeros(PAGE_SIZE - PAGE_HEADER_SIZE));
  }

  // ---------- reading back ----------

  lemma {:induction false} SlotInTable(cells: seq<Bytes>, n: nat, i: nat)
    requires FitsPage(cells) && i < n <= |cells|
    ensures SlotTable(cells, n)[2 * i..2 * i + 2] == Le(Start0(cells, i), 2)
    decreases n
  {
    hide Le, Packed;
    if i < n - 1 {
      SlotInTable(cells, n - 1, i);
      var before, last := SlotTable(cells, n - 1), Le(Start0(cells, n - 1), 2);
      assert (before + last)[2 * i..2 * i + 2] == before[2 * i..2 * i + 2];
    }
  }

  lemma {:induction false} PageParts(id: PageId, kind: PageKind, level: nat, sibling: PageId, cells: seq<Bytes>)
    requires FitsPage(cells)
    ensures var page := SlottedImage(id, kind, level, sibling, cells);
            && |page| == PAGE_SIZE
            && page[PAGE_HEADER_SIZE..Lower(cells)] == SlotTable(cells, |cells|)
            && page[Upper(cells)..] == Packed(cells)
  {
    hide Image, SlotTable, Packed, Crc32, LittleEndian;
    var h := SlottedHeader(id, kind, level, sibling, cells);
    var page, body := Image(h, Body(cells)), Body(cells);
    assert page[PAGE_HEADER_SIZE..] == body by { ImageBody(h, body); }
    var table, gap, data := SlotTable(cells, |cells|), Zeros(Upper(cells) - Lower(cells)), Packed(cells);
    assert page[PAGE_HEADER_SIZE..Lower(cells)] == body[..|table|] == table;
    assert page[Upper(cells)..] == body[|table| + |gap|..] == data;
  }

  lemma {:induction false} ImageBody(h: Header, body: Bytes)
    ensures Image(h, body)[PAGE_HEADER_SIZE..] == body
  {
    hide Crc32, LittleEndian;
    var sum := LittleEndian(Crc32(PAGE_MAGIC + Zeros(4) + (HeaderTail(h) + body)));
    assert (PAGE_MAGIC + sum + (HeaderTail(h) + body))[PAGE_HEADER_SIZE..] == body;
  }

  /** Slot `i` of a page. */
  function ReadSlot(page: Bytes, i: nat): nat
    requires PAGE_HEADER_SIZE + 2 * i + 2 <= |page|
  {
    NatOf(page[PAGE_HEADER_SIZE + 2 * i..PAGE_HEADER_SIZE + 2 * i + 2])
  }

  lemma {:induction false} SliceWithin(page: Bytes, low: nat, high: nat, a: nat, b: nat)
    requires low <= high <= |page| && a <= b <= high - low
    ensures page[low..high][a..b] == page[low + a..low + b]
  {
    var part := page[low..high];
    forall k | 0 <= k < b - a ensures part[a..b][k] == page[low + a..low + b][k] {
      assert part[a + k] == page[low + (a + k)];
    }
  }

  /** Every slot points at its cell. */
  lemma {:induction false} SlotPointsAtCell(id: PageId, kind: PageKind, level: nat, sibling: PageId, cells: seq<Bytes>, i: nat)
    requires FitsPage(cells) && i < |cells|
    ensures var page := SlottedImage(id, kind, level, sibling, cells);
            && |page| == PAGE_SIZE && ReadSlot(page, i) == Start0(cells, i) && Upper(cells) <= Start0(cells, i) <= PAGE_SIZE
            && cells[i] <= page[Start0(cells, i)..]
  {
    hide SlottedImage, Packed, SlotTable, Le, NatOf;
    var page := SlottedImage(id, kind, level, sibling, cells);
    PageParts(id, kind, level, sibling, cells);
    StartBounds(cells, i);
    SlotInTable(cells, |cells|, i);
    SliceWithin(page, PAGE_HEADER_SIZE, Lower(cells), 2 * i, 2 * i + 2);
    Le2(Start0(cells, i));
    PackedAt(cells, i);
    var data, before := page[Upper(cells)..], Packed(cells[i + 1..]);
    assert page[Start0(cells, i)..] == data[|before|..];
    assert data[|before|..] == cells[i] + Packed(cells[..i]);
  }

  // ---------- overlap check ----------

  datatype Span = Span(start: nat, end: nat)

  ghost predicate NoOverlap(spans: seq<Span>) {
    forall i, j :: 0 <= i < j < |spans| ==> spans[i].end <= spans[j].start || spans[j].end <= spans[i].start
  }

  ghost predicate StartsSorted(spans: seq<Span>) {
    forall i, j :: 0 <= i < j < |spans| ==> spans[i].start <= spans[j].start
  }

  function InsertSpan(sorted: seq<Span>, s: Span): seq<Span> {
    if sorted == [] then [s] else if sorted[0].start < s.start then [sorted[0]] + InsertSpan(sorted[1..], s) else [s] + sorted
  }

  lemma {:induction false} InsertMembers(sorted: seq<Span>, s: Span)
    ensures multiset(InsertSpan(sorted, s)) == multiset(sorted) + multiset{s}
    ensures forall x :: x in InsertSpan(sorted, s) ==> x == s || x in sorted
    decreases |sorted|
  {
    if sorted != [] && sorted[0].start < s.start {
      InsertMembers(sorted[1..], s);
      hide InsertSpan;
      assert sorted == [sorted[0]] + sorted[1..];
    }
  }

  lemma {:induction false} InsertSorted(sorted: seq<Span>, s: Span)
    requires StartsSorted(sorted)
    ensures StartsSorted(InsertSpan(sorted, s))
    decreases |sorted|
  {
    if sorted != [] && sorted[0].start < s.start {
      InsertSorted(sorted[1..], s);
      var rest := InsertSpan(sorted[1..], s);
      InsertMembers(sorted[1..], s);
      forall i | 0 <= i < |rest| ensures sorted[0].start <= rest[i].start {
        assert rest[i] in rest;
      }
    }
  }

  /** The same spans in another order overlap or not alike. */
  lemma {:induction false} OverlapIgnoresOrder(a: seq<Span>, b: seq<Span>)
    requires multiset(a) == multiset(b) && NoOverlap(a) && forall i :: 0 <= i < |a| ==> a[i].start < a[i].end
    ensures NoOverlap(b)
  {
    forall i, j | 0 <= i < j < |b| ensures b[i].end <= b[j].start || b[j].end <= b[i].start {
      TwoPlaces(a, b, i, j);
      var x, y :| 0 <= x < |a| && 0 <= y < |a| && x != y && a[x] == b[i] && a[y] == b[j];
    }
  }

  lemma {:induction false} TwoPlaces(a: seq<Span>, b: seq<Span>, i: nat, j: nat)
    requires multiset(a) == multiset(b) && i < j < |b|
    ensures exists x, y :: 0 <= x < |a| && 0 <= y < |a| && x != y && a[x] == b[i] && a[y] == b[j]
  {
    assert b[i] in multiset(b) && b[i] in multiset(a);
    var x :| 0 <= x < |a| && a[x] == b[i];
    var rest, rest' := a[..x] + a[x + 1..], b[..i] + b[i + 1..];
    Without(a, x);
    Without(b, i);
    assert rest'[j - 1] == b[j];
    assert b[j] in rest';
    assert multiset(rest) == multiset(rest');
    assert b[j] in multiset(rest');
    assert b[j] in rest;
    Elsewhere(a, x, b[j]);
  }

  lemma {:induction false} Elsewhere(a: seq<Span>, x: nat, v: Span)
    requires x < |a| && v in a[..x] + a[x + 1..]
    ensures exists y :: 0 <= y < |a| && y != x && a[y] == v
  {
    var rest := a[..x] + a[x + 1..];
    var z :| 0 <= z < |rest| && rest[z] == v;
    var y := if z < x then z else z + 1;
    assert a[y] == v;
  }

  lemma {:induction false} Without(a: seq<Span>, x: nat)
    requires x < |a|
    ensures multiset(a[..x] + a[x + 1..]) == multiset(a) - multiset{a[x]}
  {
    assert a == a[..x] + [a[x]] + a[x + 1..];
    var p, q := multiset(a[..x]), multiset(a[x + 1..]);
    assert multiset(a) == p + multiset{a[x]} + q;
  }

  /** Sorts the spans and compares neighbours. */
  method RejectOverlapping(spans: seq<Span>) returns (ok: bool)
    requires forall i :: 0 <= i < |spans| ==> spans[i].start < spans[i].end
    ensures ok <==> NoOverlap(spans)
  {
    hide InsertSpan;
    var sorted: seq<Span> := [];
    var i: nat := 0;
    assert spans[..0] == [];
    while i < |spans|
      invariant i <= |spans| && StartsSorted(sorted) && multiset(sorted) == multiset(spans[..i])
    {
      InsertSorted(sorted, spans[i]);
      InsertMembers(sorted, spans[i]);
      assert spans[..i + 1] == spans[..i] + [spans[i]];
      sorted := InsertSpan(sorted, spans[i]);
      i := i + 1;
    }
    assert spans[..i] == spans;
    forall k | 0 <= k < |sorted| ensures sorted[k].start < sorted[k].end {
      assert sorted[k] in multiset(sorted);
      assert sorted[k] in spans;
    }
    i := 1;
    while i < |sorted|
      invariant 1 <= i && forall a, b :: 0 <= a < b < i && b < |sorted| ==> sorted[a].end <= sorted[b].start
    {
      if sorted[i - 1].end > sorted[i].start {
        assert !NoOverlap(sorted);
        if NoOverlap(spans) {
          OverlapIgnoresOrder(spans, sorted);
        }
        return false;
      }
      i := i + 1;
    }
    OverlapIgnoresOrder(sorted, spans);
    return true;
  }
}
