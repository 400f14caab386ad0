/** The octets under the term heap of src/script.c: what alloc_heap hands out is
    disjoint and zero, which is why a fresh term ends its list although no
    constructor sets its link. */
module Arena {
  import opened CString
  import opened TermHeap

  /** Where struct term keeps its union and its link, on a 64-bit machine. */
  const UNION_OFFSET: nat := 8
  const NEXT_OFFSET: nat := 24

  /** A part of the heap that was handed out. */
  datatype Chunk = Chunk(start: nat, size: nat)

  predicate AllZero(s: seq<byte>) {
    forall i :: 0 <= i < |s| ==> s[i] == NUL
  }

  /** The C string at the beginning of some octets. */
  predicate HoldsText(s: seq<byte>, text: cstring) {
    |text| < |s| && s[..|text|] == text && s[|text|] == NUL
  }

  predicate Disjoint(chunks: seq<Chunk>, index: nat) {
    && (forall i :: 0 <= i < |chunks| ==> chunks[i].start % 8 == 0 && chunks[i].start + chunks[i].size <= index)
    && (forall i, j :: 0 <= i < j < |chunks| ==> chunks[i].start + chunks[i].size <= chunks[j].start)
  }

  /** A text and its last quote, and then NUL in the place of the quote. */
  lemma QuoteDropped(before: seq<byte>, after: seq<byte>, addr: nat, text: cstring)
    requires |before| == |after| > addr + |text| && before[addr..addr + |text| + 1] == text + ['"']
    requires after[..addr + |text|] == before[..addr + |text|] && after[addr + |text|] == NUL
    ensures HoldsText(after[addr..], text) && after[..addr] == before[..addr]
  {
    var n := addr + |text|;
    assert after[addr..][..|text|] == after[..n][addr..];
    assert before[..n][addr..] == before[addr..n + 1][..|text|];
    assert after[..addr] == after[..n][..addr];
  }

  lemma TextIsHeld(octets: seq<byte>, addr: nat, text: cstring)
    requires addr + |text| < |octets| && octets[addr..addr + |text| + 1] == text + [NUL]
    ensures HoldsText(octets[addr..], text)
  {
    var n := |text|;
    SliceOfRest(octets, addr, 0, n + 1);
    var rest := octets[addr..];
    assert rest[0..n + 1] == text + [NUL];
    assert rest[n] == rest[0..n + 1][n];
    assert rest[..n] == rest[0..n + 1][..n];
  }

  lemma Stored(before: seq<byte>, after: seq<byte>, addr: nat, octets: seq<byte>, index: nat)
    requires |before| == |after| && addr + |octets| <= index <= |before|
    requires forall j :: 0 <= j < |after| ==>
               after[j] == if addr <= j < addr + |octets| then octets[j - addr] else before[j]
    ensures after[addr..addr + |octets|] == octets && after[..addr] == before[..addr]
    ensures after[addr + |octets|..] == before[addr + |octets|..] && after[index..] == before[index..]
  {
  }

  /** Kind and union are set, and the link is still zero. */
  lemma FieldsAreSet(zeroed: seq<byte>, tagged: seq<byte>, filled: seq<byte>, addr: nat, kind: byte, size: nat)
    requires |zeroed| == |tagged| == |filled| >= addr + TERM_SIZE && size <= NEXT_OFFSET - UNION_OFFSET
    requires AllZero(zeroed[addr..])
    requires tagged[addr..addr + 1] == [kind] && tagged[..addr] == zeroed[..addr]
             && tagged[addr + 1..] == zeroed[addr + 1..]
    requires filled[..addr + UNION_OFFSET] == tagged[..addr + UNION_OFFSET]
    requires filled[addr + UNION_OFFSET + size..] == tagged[addr + UNION_OFFSET + size..]
    ensures filled[..addr] == zeroed[..addr] && filled[addr] == kind
    ensures AllZero(filled[addr + NEXT_OFFSET..addr + TERM_SIZE])
  {
    var from, to := addr + NEXT_OFFSET, addr + TERM_SIZE;
    SliceOfRest(filled, addr + UNION_OFFSET + size, NEXT_OFFSET - UNION_OFFSET - size, TERM_SIZE - UNION_OFFSET - size);
    SliceOfRest(tagged, addr + UNION_OFFSET + size, NEXT_OFFSET - UNION_OFFSET - size, TERM_SIZE - UNION_OFFSET - size);
    SliceOfRest(tagged, addr + 1, NEXT_OFFSET - 1, TERM_SIZE - 1);
    SliceOfRest(zeroed, addr + 1, NEXT_OFFSET - 1, TERM_SIZE - 1);
    SliceOfRest(zeroed, addr, NEXT_OFFSET, TERM_SIZE);
    assert filled[from..to] == zeroed[addr..][NEXT_OFFSET..TERM_SIZE];
    assert filled[addr] == filled[..addr + UNION_OFFSET][addr] == tagged[addr] == tagged[addr..addr + 1][0];
    SliceOfSlice(filled, 0, addr + UNION_OFFSET, 0, addr);
    SliceOfSlice(tagged, 0, addr + UNION_OFFSET, 0, addr);
    assert filled[..addr] == filled[0..addr + UNION_OFFSET][0..addr];
    assert tagged[..addr] == tagged[0..addr + UNION_OFFSET][0..addr];
    assert filled[0..addr + UNION_OFFSET] == tagged[0..addr + UNION_OFFSET];
  }

  class Memory {
    const heap: array<byte>
    var heapIndex: nat
    ghost var chunks: seq<Chunk>

    ghost predicate Valid()
      reads this, heap
    {
      && heap.Length == HEAP_SIZE && heapIndex <= HEAP_SIZE && heapIndex % 8 == 0 && HEAP_SIZE % 8 == 0
      && AllZero(heap[heapIndex..]) && Disjoint(chunks, heapIndex)
    }

    /** What an allocation leaves alone, and what it adds. */
    twostate predicate Adds(addr: nat, size: nat)
      reads this, heap
    {
      && addr == old(heapIndex) && addr + size <= heapIndex <= HEAP_SIZE == heap.Length
      && chunks == old(chunks) + [Chunk(addr, size)]
      && heap[..addr] == old(heap[..addr])
    }

    /** malloc and memset */
    constructor ()
      ensures Valid() && fresh(heap) && chunks == [] && heapIndex == 0
    {
      heap := new byte[HEAP_SIZE](i => NUL);
      heapIndex, chunks := 0, [];
    }

    /** alloc_heap */
    method Alloc(numBytes: nat) returns (ok: bool, addr: nat)
      requires Valid()
      modifies this
      ensures Valid() && heap[..] == old(heap[..])
      ensures ok <==> old(heapIndex) + numBytes <= HEAP_SIZE
      ensures !ok ==> heapIndex == old(heapIndex) && chunks == old(chunks)
      ensures ok ==> Adds(addr, numBytes) && AllZero(heap[addr..]) && heapIndex == addr + RoundUp(numBytes)
    {
      if heapIndex + numBytes > HEAP_SIZE {
        return false, 0;
      }
      addr := heapIndex;
      heapIndex := (heapIndex + numBytes + 7) / 8 * 8;
      assert forall i :: 0 <= i < |heap[heapIndex..]| ==> heap[heapIndex..][i] == heap[addr..][i + (heapIndex - addr)];
      chunks := chunks + [Chunk(addr, numBytes)];
      return true, addr;
    }

    /** memcpy, and any other write, into what was handed out. */
    method Store(addr: nat, octets: seq<byte>)
      requires Valid() && addr + |octets| <= heapIndex
      modifies heap
      ensures Valid() && heap[addr..addr + |octets|] == octets
      ensures heap[..addr] == old(heap[..addr]) && heap[addr + |octets|..] == old(heap[addr + |octets|..])
    {
      ghost var before: seq<byte> := heap[..];
      forall i | 0 <= i < |octets| {
        heap[addr + i] := octets[i];
      }
      Stored(before, heap[..], addr, octets, heapIndex);
      ghost var after: seq<byte> := heap[..];
      var end := addr + |octets|;
      assert heap[addr..end] == after[addr..end] && heap[..addr] == after[..addr] && heap[end..] == after[end..];
      assert before[..addr] == old(heap[..addr]) && before[end..] == old(heap[end..]);
      assert heap[heapIndex..] == after[heapIndex..] && before[heapIndex..] == old(heap[heapIndex..]);
    }

    /** alloc_string */
    method AllocString(str: cstring) returns (ok: bool, addr: nat)
      requires Valid()
      modifies this, heap
      ensures Valid()
      ensures ok <==> old(heapIndex) + |str| + 1 <= HEAP_SIZE
      ensures ok ==> Adds(addr, |str| + 1) && HoldsText(heap[addr..], str) && heapIndex == addr + RoundUp(|str| + 1)
    {
      ok, addr := Alloc(|str| + 1);
      if ok {
        Store(addr, str + [NUL]);
        TextIsHeld(heap[..], addr, str);
        assert heap[..][addr..] == heap[addr..] && heap[..][addr..addr + |str| + 1] == heap[addr..addr + |str| + 1];
      }
    }

    /** alloc_qstring: the first quote is skipped, and the last one becomes NUL. */
    method AllocQString(quoted: cstring, ghost text: cstring) returns (ok: bool, addr: nat)
      requires Valid() && quoted == ['"'] + text + ['"']
      modifies this, heap
      ensures Valid()
      ensures ok <==> old(heapIndex) + |text| + 1 <= HEAP_SIZE
      ensures ok ==> Adds(addr, |text| + 1) && HoldsText(heap[addr..], text)
    {
      var str := quoted[1..];
      var len := |str|;
      ok, addr := Alloc(len);
      if ok {
        Store(addr, str);
        label Copied:
        Store(addr + (len - 1), [NUL]);
        assert heap[addr + (len - 1)] == heap[addr + (len - 1)..addr + (len - 1) + 1][0];
        QuoteDropped(old@Copied(heap[..]), heap[..], addr, text);
      }
    }

    /** The fields of a fresh term. */
    method FillTerm(addr: nat, kind: byte, value: seq<byte>)
      requires Valid() && |value| <= NEXT_OFFSET - UNION_OFFSET
      requires |chunks| > 0 && chunks[|chunks| - 1] == Chunk(addr, TERM_SIZE)
      requires addr + TERM_SIZE <= HEAP_SIZE && AllZero(heap[addr..])
      modifies heap
      ensures Valid() && heap[..addr] == old(heap[..addr]) && heap[addr] == kind
      ensures heap[addr + UNION_OFFSET..addr + UNION_OFFSET + |value|] == value
      ensures AllZero(heap[addr + NEXT_OFFSET..addr + TERM_SIZE])
    {
      ghost var zeroed: seq<byte> := heap[..];
      Store(addr, [kind]);
      ghost var tagged: seq<byte> := heap[..];
      Store(addr + UNION_OFFSET, value);
      ghost var filled: seq<byte> := heap[..];
      var from := addr + UNION_OFFSET;
      var to := from + |value|;
      assert tagged[addr..addr + 1] == [kind] && tagged[..addr] == zeroed[..addr]
          && tagged[addr + 1..] == zeroed[addr + 1..];
      assert filled[..from] == tagged[..from] && filled[to..] == tagged[to..];
      assert zeroed[addr..] == old(heap[addr..]);
      FieldsAreSet(zeroed, tagged, filled, addr, kind, |value|);
      assert heap[addr + NEXT_OFFSET..addr + TERM_SIZE] == filled[addr + NEXT_OFFSET..addr + TERM_SIZE];
      assert heap[..addr] == filled[..addr] && zeroed[..addr] == old(heap[..addr]);
    }

    /** A constructor: it sets the kind and the union, and never the link. */
    method NewTerm(kind: byte, value: seq<byte>) returns (ok: bool, addr: nat)
      requires Valid() && |value| <= NEXT_OFFSET - UNION_OFFSET
      modifies this, heap
      ensures Valid()
      ensures ok <==> old(heapIndex) + TERM_SIZE <= HEAP_SIZE
      ensures ok ==> Adds(addr, TERM_SIZE) && heap[addr] == kind && heapIndex == addr + TERM_SIZE
      ensures ok ==> heap[addr + UNION_OFFSET..addr + UNION_OFFSET + |value|] == value
      ensures ok ==> AllZero(heap[addr + NEXT_OFFSET..addr + TERM_SIZE])
    {
      ok, addr := Alloc(TERM_SIZE);
      if ok {
        assert heap[..addr] == old(heap[..])[..addr];
        FillTerm(addr, kind, value);
      }
    }
  }
}
