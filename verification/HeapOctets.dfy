/** The cells of TermHeap as octets of Arena: both heaps hand out the same addresses,
    and the link that a constructor does not set is NULL because its octets are zero. */
module HeapOctets {
  import opened CString
  import opened TermHeap
  import opened Arena

  predicate HasText(k: Kind) {
    k.KIdent? || k.KStr? || k.KVar?
  }

  /** How a machine writes addresses: eight octets, all zero for NULL only. */
  ghost predicate IsCode(code: Ptr -> seq<byte>) {
    forall p :: |code(p)| == 8 && (AllZero(code(p)) <==> p == NULL)
  }

  /** The octets of a cell: its link, and its string right behind it. */
  predicate LaysCell(code: Ptr -> seq<byte>, octets: seq<byte>, a: Ptr, c: Cell) {
    && 0 <= a && a + Extent(c.kind) <= |octets|
    && octets[a + NEXT_OFFSET..a + TERM_SIZE] == code(c.next)
    && (HasText(c.kind) ==> HoldsText(octets[a + TERM_SIZE..a + Extent(c.kind)], c.kind.text))
  }

  predicate Lays(code: Ptr -> seq<byte>, octets: seq<byte>, cells: Cells) {
    forall a :: a in cells ==> LaysCell(code, octets, a, cells[a])
  }

  /** The two heaps side by side. */
  ghost predicate Agree(m: Memory, h: Heap, code: Ptr -> seq<byte>)
    reads m, m.heap, h
  {
    && m.Valid() && WellPlaced(h.cells, h.index) && m.heapIndex == h.index
    && IsCode(code) && Lays(code, m.heap[..], h.cells)
  }

  lemma LaysOn(code: Ptr -> seq<byte>, before: seq<byte>, after: seq<byte>, cells: Cells, index: nat)
    requires Lays(code, before, cells) && WellPlaced(cells, index) && index <= |before| == |after|
    requires before[..index] == after[..index]
    ensures Lays(code, after, cells)
  {
    hide Extent;
    forall a | a in cells
      ensures LaysCell(code, after, a, cells[a])
    {
      var end := a + Extent(cells[a].kind);
      SameBelow(before, after, a + NEXT_OFFSET, a + TERM_SIZE, index);
      SameBelow(before, after, a + TERM_SIZE, end, index);
    }
  }

  lemma SameBelow(b: seq<byte>, c: seq<byte>, from: nat, to: nat, end: nat)
    requires from <= to <= end <= |b| == |c| && c[..end] == b[..end]
    ensures c[from..to] == b[from..to]
  {
    SliceOfSlice(b, 0, end, from, to);
    SliceOfSlice(c, 0, end, from, to);
    assert c[0..end] == c[..end] && b[0..end] == b[..end];
  }

  lemma SameAbove(b: seq<byte>, c: seq<byte>, from: nat, to: nat, start: nat)
    requires start <= from <= to <= |b| == |c| && c[start..] == b[start..]
    ensures c[from..to] == b[from..to]
  {
    SliceOfRest(b, start, from - start, to - start);
    SliceOfRest(c, start, from - start, to - start);
  }

  /** Zero octets are a link to NULL. */
  lemma FreshIsLaid(code: Ptr -> seq<byte>, octets: seq<byte>, addr: nat, kind: Kind)
    requires IsCode(code) && addr + Extent(kind) <= |octets| && AllZero(octets[addr + NEXT_OFFSET..addr + TERM_SIZE])
    requires HasText(kind) ==> HoldsText(octets[addr + TERM_SIZE..], kind.text)
    ensures LaysCell(code, octets, addr, Cell(kind, NULL))
  {
    var link := octets[addr + NEXT_OFFSET..addr + TERM_SIZE];
    assert AllZero(code(NULL)) && |code(NULL)| == |link|;
    assert forall i :: 0 <= i < |link| ==> link[i] == code(NULL)[i];
    if HasText(kind) {
      var n := |kind.text|;
      var rest, own := octets[addr + TERM_SIZE..], octets[addr + TERM_SIZE..addr + Extent(kind)];
      assert own == rest[..Extent(kind) - TERM_SIZE];
      assert own[..n] == rest[..n] && own[n] == rest[n];
    }
  }

  lemma LaysMore(code: Ptr -> seq<byte>, octets: seq<byte>, cells: Cells, a: Ptr, c: Cell)
    requires Lays(code, octets, cells) && LaysCell(code, octets, a, c)
    ensures Lays(code, octets, cells[a := c])
  {
    hide LaysCell;
  }

  lemma CellsBelow(cells: Cells, index: nat)
    requires WellPlaced(cells, index)
    ensures index <= HEAP_SIZE && index % 8 == 0
  {
  }

  lemma ExtentIs(kind: Kind)
    ensures Extent(kind) == TERM_SIZE + if HasText(kind) then RoundUp(|kind.text| + 1) else 0
  {
  }

  /** The octets of a constructor: the term, and its string behind it. */
  method NewOctets(m: Memory, tag: byte, value: seq<byte>, kind: Kind) returns (ok: bool, addr: nat)
    requires m.Valid() && |value| <= NEXT_OFFSET - UNION_OFFSET
    modifies m, m.heap
    ensures ok <==> old(m.heapIndex) + Extent(kind) <= HEAP_SIZE
    ensures ok ==> m.Valid() && addr == old(m.heapIndex) && m.heapIndex == addr + Extent(kind)
    ensures ok ==> addr + Extent(kind) <= HEAP_SIZE == m.heap.Length && m.heap[..addr] == old(m.heap[..addr])
    ensures ok ==> AllZero(m.heap[addr + NEXT_OFFSET..addr + TERM_SIZE])
    ensures ok && HasText(kind) ==> HoldsText(m.heap[addr + TERM_SIZE..], kind.text)
  {
    ExtentIs(kind);
    hide Extent, RoundUp;
    ok, addr := m.NewTerm(tag, value);
    if ok && HasText(kind) {
      label Term:
      var text;
      ok, text := m.AllocString(kind.text);
      if ok {
        assert m.heap[..text] == old@Term(m.heap[..text]);
        assert m.heap[..addr] == m.heap[..text][..addr];
        assert m.heap[addr + NEXT_OFFSET..addr + TERM_SIZE] == m.heap[..text][addr + NEXT_OFFSET..addr + TERM_SIZE];
        assert old@Term(m.heap[addr + NEXT_OFFSET..addr + TERM_SIZE])
            == old@Term(m.heap[..text])[addr + NEXT_OFFSET..addr + TERM_SIZE];
      }
    }
  }

  /** A constructor in both: they succeed together, at one address, and the new cell
      has no link in either. */
  method NewTerm(m: Memory, h: Heap, code: Ptr -> seq<byte>, tag: byte, value: seq<byte>, kind: Kind)
      returns (ok: bool, addr: Ptr)
    requires Agree(m, h, code) && |value| <= NEXT_OFFSET - UNION_OFFSET
    modifies m, m.heap, h`cells, h`index
    ensures ok <==> old(h.index) + Extent(kind) <= HEAP_SIZE
    ensures ok ==> Agree(m, h, code) && addr == old(h.index) && h.cells == old(h.cells)[addr := Cell(kind, NULL)]
  {
    ghost var octets, cells, index := m.heap[..], h.cells, h.index;
    CellsBelow(cells, index);
    ok, addr := NewOctets(m, tag, value, kind);
    if ok {
      ghost var after: seq<byte> := m.heap[..];
      assert after[..index] == m.heap[..index] && octets[..index] == old(m.heap[..index]);
      assert after[addr + NEXT_OFFSET..addr + TERM_SIZE] == m.heap[addr + NEXT_OFFSET..addr + TERM_SIZE];
      assert after[addr + TERM_SIZE..] == m.heap[addr + TERM_SIZE..];
      LaysOn(code, octets, after, cells, index);
      FreshIsLaid(code, after, addr, kind);
      LaysMore(code, after, cells, addr, Cell(kind, NULL));
      hide WellPlaced, Extent, Lays, LaysCell, IsCode;
      var at;
      ok, at := h.NewTerm(kind);
    }
  }

  /** Nothing differs but the link at `addr`. */
  predicate OnlyLink(before: seq<byte>, after: seq<byte>, addr: nat, link: seq<byte>)
    requires addr + TERM_SIZE <= |before| == |after|
  {
    && after[..addr + NEXT_OFFSET] == before[..addr + NEXT_OFFSET]
    && after[addr + NEXT_OFFSET..addr + TERM_SIZE] == link
    && after[addr + TERM_SIZE..] == before[addr + TERM_SIZE..]
  }

  lemma CellBelowKept(code: Ptr -> seq<byte>, before: seq<byte>, after: seq<byte>, addr: nat, link: seq<byte>,
      a: Ptr, c: Cell)
    requires addr + TERM_SIZE <= |before| == |after| && OnlyLink(before, after, addr, link)
    requires LaysCell(code, before, a, c) && a + Extent(c.kind) <= addr
    ensures LaysCell(code, after, a, c)
  {
    hide Extent;
    SameBelow(before, after, a + NEXT_OFFSET, a + TERM_SIZE, addr + NEXT_OFFSET);
    SameBelow(before, after, a + TERM_SIZE, a + Extent(c.kind), addr + NEXT_OFFSET);
  }

  lemma CellAboveKept(code: Ptr -> seq<byte>, before: seq<byte>, after: seq<byte>, addr: nat, link: seq<byte>,
      a: Ptr, c: Cell)
    requires addr + TERM_SIZE <= |before| == |after| && OnlyLink(before, after, addr, link)
    requires LaysCell(code, before, a, c) && addr + TERM_SIZE <= a
    ensures LaysCell(code, after, a, c)
  {
    hide Extent;
    SameAbove(before, after, a + NEXT_OFFSET, a + TERM_SIZE, addr + TERM_SIZE);
    SameAbove(before, after, a + TERM_SIZE, a + Extent(c.kind), addr + TERM_SIZE);
  }

  lemma CellLinked(code: Ptr -> seq<byte>, before: seq<byte>, after: seq<byte>, addr: nat, c: Cell, next: Ptr)
    requires addr + TERM_SIZE <= |before| == |after| && OnlyLink(before, after, addr, code(next))
    requires LaysCell(code, before, addr, c)
    ensures LaysCell(code, after, addr, c.(next := next))
  {
    hide Extent;
    SameAbove(before, after, addr + TERM_SIZE, addr + Extent(c.kind), addr + TERM_SIZE);
  }

  lemma LinkIsLaid(code: Ptr -> seq<byte>, before: seq<byte>, after: seq<byte>, cells: Cells, index: nat, addr: Ptr,
      next: Ptr)
    requires Lays(code, before, cells) && WellPlaced(cells, index) && addr in cells
    requires 0 <= addr && addr + TERM_SIZE <= |before| == |after| && OnlyLink(before, after, addr, code(next))
    ensures Lays(code, after, cells[addr := cells[addr].(next := next)])
  {
    var changed := cells[addr := cells[addr].(next := next)];
    hide LaysCell, WellPlaced, OnlyLink, Extent;
    forall a | a in changed
      ensures LaysCell(code, after, a, changed[a])
    {
      CellsApart(cells, index, a, addr);
      assert LaysCell(code, before, a, cells[a]);
      if a < addr {
        CellBelowKept(code, before, after, addr, code(next), a, cells[a]);
      } else if a == addr {
        CellLinked(code, before, after, addr, cells[a], next);
      } else {
        CellAboveKept(code, before, after, addr, code(next), a, cells[a]);
      }
    }
  }

  lemma CellsApart(cells: Cells, index: nat, a: Ptr, b: Ptr)
    requires WellPlaced(cells, index) && a in cells && b in cells
    ensures 0 <= a && a + TERM_SIZE <= a + Extent(cells[a].kind) <= index
    ensures a < b ==> a + Extent(cells[a].kind) <= b
    ensures b < a ==> b + TERM_SIZE <= a
  {
    hide Extent;
  }

  lemma LinkPlaced(cells: Cells, index: nat, addr: Ptr)
    requires WellPlaced(cells, index) && addr in cells
    ensures 0 <= addr && addr + TERM_SIZE <= index <= HEAP_SIZE
  {
    hide Extent;
  }

  /** Setting a link in both. */
  method SetNext(m: Memory, h: Heap, code: Ptr -> seq<byte>, addr: Ptr, next: Ptr)
    requires Agree(m, h, code) && addr in h.cells
    modifies m.heap, h`cells
    ensures Agree(m, h, code) && h.cells == old(h.cells[addr := h.cells[addr].(next := next)])
  {
    ghost var octets, cells, index := m.heap[..], h.cells, h.index;
    LinkPlaced(cells, index, addr);
    m.Store(addr + NEXT_OFFSET, code(next));
    ghost var after: seq<byte> := m.heap[..];
    var from, to := addr + NEXT_OFFSET, addr + TERM_SIZE;
    assert after[..from] == m.heap[..from] && octets[..from] == old(m.heap[..from]);
    assert after[from..to] == m.heap[from..to] && after[to..] == m.heap[to..] && octets[to..] == old(m.heap[to..]);
    LinkIsLaid(code, octets, after, cells, index, addr, next);
    hide Lays, LaysCell, WellPlaced, Extent;
    Relinked(cells, index, addr, next);
    h.cells := h.cells[addr := h.cells[addr].(next := next)];
  }
}
