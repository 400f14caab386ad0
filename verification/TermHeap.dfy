/** The term heap of src/script.c: a bump allocator, the list of variables, and
    the collector that copies what the variables hold into a fresh heap.

    A cell is the struct term at an address together with the string that the
    constructor allocates right behind it. */
module TermHeap {
  import opened CString
  import opened Script

  const HEAP_SIZE: nat := 16536
  const TERM_SIZE: nat := 32

  /** An address in the heap, or NULL. */
  type Ptr = int
  const NULL: Ptr := -1

  datatype Kind =
    | KIdent(text: cstring)
    | KStr(text: cstring)
    | KNum(n: int)
    | KBool(b: bool)
    | KFun(fn: Fn, params: Ptr)
    | KVar(text: cstring, value: Ptr)

  datatype Cell = Cell(kind: Kind, next: Ptr)

  type Cells = map<Ptr, Cell>

  // ----- Sizes ----------------------------------------------------------------

  function RoundUp(n: nat): (r: nat)
    ensures n <= r < n + 8 && r % 8 == 0
  {
    (n + 7) / 8 * 8
  }

  function TextSize(k: Kind): nat {
    if k.KIdent? || k.KStr? || k.KVar? then |k.text| + 1 else 0
  }

  /** Octets from the address of a cell to the next free address. */
  function Extent(k: Kind): (r: nat)
    ensures r >= TERM_SIZE && r % 8 == 0
  {
    TERM_SIZE + RoundUp(TextSize(k))
  }

  /** Cells lie in the used part of the heap and do not overlap. */
  predicate WellPlaced(cells: Cells, index: nat) {
    && index % 8 == 0 && index <= HEAP_SIZE
    && (forall a :: a in cells ==> 0 <= a && a + Extent(cells[a].kind) <= index)
    && (forall a, b :: a in cells && b in cells && a < b ==> a + Extent(cells[a].kind) <= b)
  }

  // ----- Lists ----------------------------------------------------------------

  /** The cells that `next` links from `p` on, up to NULL. */
  predicate IsList(cells: Cells, p: Ptr, ps: seq<Ptr>)
    decreases |ps|
  {
    if ps == [] then p == NULL
    else p == ps[0] && p != NULL && p in cells && IsList(cells, cells[p].next, ps[1..])
  }

  predicate Distinct(ps: seq<Ptr>) {
    forall i, j :: 0 <= i < j < |ps| ==> ps[i] != ps[j]
  }

  lemma {:induction false} ListIsUnique(cells: Cells, p: Ptr, ps: seq<Ptr>, qs: seq<Ptr>)
    requires IsList(cells, p, ps) && IsList(cells, p, qs)
    ensures ps == qs
    decreases |ps|
  {
    if ps != [] && qs != [] {
      ListIsUnique(cells, cells[p].next, ps[1..], qs[1..]);
      assert ps == [ps[0]] + ps[1..] && qs == [qs[0]] + qs[1..];
    }
  }

  lemma {:induction false} SuffixIsList(cells: Cells, p: Ptr, ps: seq<Ptr>, i: nat)
    requires IsList(cells, p, ps) && i < |ps|
    ensures ps[i] in cells && ps[i] != NULL && IsList(cells, ps[i], ps[i..])
    ensures IsList(cells, cells[ps[i]].next, ps[i + 1..])
    decreases i
  {
    if i > 0 {
      SuffixIsList(cells, cells[p].next, ps[1..], i - 1);
      assert ps[1..][i - 1..] == ps[i..] && ps[1..][i..] == ps[i + 1..];
    } else {
      assert ps[0..] == ps;
    }
  }

  /** A list ends, so no cell is on it twice. */
  lemma ListIsDistinct(cells: Cells, p: Ptr, ps: seq<Ptr>)
    requires IsList(cells, p, ps)
    ensures Distinct(ps)
  {
    forall i, j | 0 <= i < j < |ps|
      ensures ps[i] != ps[j]
    {
      SuffixIsList(cells, p, ps, i);
      SuffixIsList(cells, p, ps, j);
      if ps[i] == ps[j] {
        ListIsUnique(cells, ps[i], ps[i..], ps[j..]);
      }
    }
  }

  /** A list depends on the links of its own cells only. */
  lemma {:induction false} ListFrame(cells: Cells, other: Cells, p: Ptr, ps: seq<Ptr>)
    requires IsList(cells, p, ps)
    requires forall i :: 0 <= i < |ps| ==> ps[i] in cells ==> ps[i] in other && other[ps[i]].next == cells[ps[i]].next
    ensures IsList(other, p, ps)
    decreases |ps|
  {
    if ps != [] {
      ListFrame(cells, other, cells[p].next, ps[1..]);
    }
  }

  // ----- Variables ------------------------------------------------------------

  /** What a variable holds: a name and the contents of its value term, or none when
      that is NULL. */
  type Binding = (cstring, Option<Kind>)

  /** What term_dupe copies.  Of a call it makes NULL. */
  predicate IsValue(k: Kind) {
    k.KIdent? || k.KStr? || k.KNum? || k.KBool?
  }

  /** NULL or a term in the heap; a variable is no term of the language. */
  predicate IsTerm(cells: Cells, p: Ptr) {
    p == NULL || (p in cells && !cells[p].kind.KVar?)
  }

  function Contents(cells: Cells, p: Ptr): Option<Kind>
    requires IsTerm(cells, p)
  {
    if p == NULL then None else Some(cells[p].kind)
  }

  /** Variable cells that hold terms. */
  predicate AreVariables(cells: Cells, ps: seq<Ptr>) {
    forall i :: 0 <= i < |ps| ==>
      ps[i] in cells && cells[ps[i]].kind.KVar? && IsTerm(cells, cells[ps[i]].kind.value)
  }

  function Bindings(cells: Cells, ps: seq<Ptr>): (r: seq<Binding>)
    requires AreVariables(cells, ps)
    ensures |r| == |ps|
  {
    seq(|ps|, i requires 0 <= i < |ps| => (cells[ps[i]].kind.text, Contents(cells, cells[ps[i]].kind.value)))
  }

  predicate UniqueBindings(bs: seq<Binding>) {
    forall i, j :: 0 <= i < j < |bs| ==> bs[i].0 != bs[j].0
  }

  /** No two variables hold the same term. */
  predicate NothingShared(cells: Cells, ps: seq<Ptr>)
    requires AreVariables(cells, ps)
  {
    forall i, j :: 0 <= i < j < |ps| ==>
      cells[ps[i]].kind.value != cells[ps[j]].kind.value || cells[ps[i]].kind.value == NULL
  }

  /** Where a name is bound, or the number of bindings. */
  function IndexOf(bs: seq<Binding>, name: cstring): (r: nat)
    ensures r <= |bs|
    ensures r < |bs| ==> bs[r].0 == name
    ensures forall i :: 0 <= i < r ==> bs[i].0 != name
  {
    if bs == [] || bs[0].0 == name then 0 else 1 + IndexOf(bs[1..], name)
  }

  /** set_variable on bindings: replace the value, or put a new binding in front. */
  function Put(bs: seq<Binding>, b: Binding): seq<Binding> {
    var at := IndexOf(bs, b.0);
    if at < |bs| then bs[at := b] else [b] + bs
  }

  lemma PutKeepsUnique(bs: seq<Binding>, b: Binding)
    requires UniqueBindings(bs)
    ensures UniqueBindings(Put(bs, b))
  {
  }

  /** Cells stay where they are when one gets other contents of the same size. */
  lemma SameExtent(cells: Cells, index: nat, p: Ptr, c: Cell)
    requires WellPlaced(cells, index) && p in cells && Extent(c.kind) == Extent(cells[p].kind)
    ensures WellPlaced(cells[p := c], index)
  {
    hide Extent;
  }

  /** Storing another value in a variable cell. */
  lemma Rebound(cells: Cells, index: nat, variables: Ptr, list: seq<Ptr>, at: nat, value: Ptr)
    requires WellPlaced(cells, index) && IsList(cells, variables, list) && AreVariables(cells, list)
    requires at < |list| && IsTerm(cells, value)
    ensures var v := list[at];
            var after := cells[v := Cell(KVar(cells[v].kind.text, value), cells[v].next)];
            WellPlaced(after, index) && IsList(after, variables, list) && AreVariables(after, list)
            && Bindings(after, list) == Bindings(cells, list)[at := (cells[v].kind.text, Contents(cells, value))]
  {
    var v := list[at];
    var c := Cell(KVar(cells[v].kind.text, value), cells[v].next);
    ListIsDistinct(cells, variables, list);
    ListFrame(cells, cells[v := c], variables, list);
    ReboundBindings(cells, list, at, value, c);
    assert Extent(c.kind) == Extent(cells[v].kind);
    hide WellPlaced, IsList, Extent, AreVariables, Bindings;
    SameExtent(cells, index, v, c);
  }

  lemma ReboundBindings(cells: Cells, list: seq<Ptr>, at: nat, value: Ptr, c: Cell)
    requires AreVariables(cells, list) && Distinct(list) && at < |list|
    requires IsTerm(cells, value) && c.kind == KVar(cells[list[at]].kind.text, value)
    ensures AreVariables(cells[list[at] := c], list)
    ensures Bindings(cells[list[at] := c], list) == Bindings(cells, list)[at := (c.kind.text, Contents(cells, value))]
  {
    var after := cells[list[at] := c];
    forall i | 0 <= i < |list|
      ensures list[i] in after && after[list[i]].kind.KVar? && IsTerm(after, after[list[i]].kind.value)
      ensures after[list[i]].kind.text == cells[list[i]].kind.text
      ensures Contents(after, after[list[i]].kind.value)
           == Contents(cells, if i == at then value else cells[list[i]].kind.value)
    {
      if i != at {
        assert list[i] != list[at];
      }
    }
  }

  /** A fresh variable cell in front of the list. */
  lemma Prepended(cells: Cells, variables: Ptr, list: seq<Ptr>, rv: Ptr, name: cstring, value: Ptr)
    requires IsList(cells, variables, list) && AreVariables(cells, list)
    requires rv !in cells && rv != NULL && IsTerm(cells, value)
    ensures var after := cells[rv := Cell(KVar(name, value), variables)];
            IsList(after, rv, [rv] + list) && AreVariables(after, [rv] + list)
            && Bindings(after, [rv] + list) == [(name, Contents(cells, value))] + Bindings(cells, list)
  {
    var after := cells[rv := Cell(KVar(name, value), variables)];
    ListFrame(cells, after, variables, list);
    assert ([rv] + list)[1..] == list;
    ListIsIn(cells, variables, list);
  }

  lemma ListIsIn(cells: Cells, p: Ptr, ps: seq<Ptr>)
    requires IsList(cells, p, ps)
    ensures forall i :: 0 <= i < |ps| ==> ps[i] in cells
  {
    forall i | 0 <= i < |ps|
      ensures ps[i] in cells
    {
      SuffixIsList(cells, p, ps, i);
    }
  }

  /** What the collector makes of a binding that is not NULL. */
  function Copied(b: Binding): Binding {
    (b.0, if b.1.Some? && IsValue(b.1.value) then b.1 else None)
  }

  function Copies(bs: seq<Binding>): (r: seq<Binding>)
    ensures |r| == |bs| && forall i :: 0 <= i < |bs| ==> r[i] == Copied(bs[i])
  {
    seq(|bs|, i requires 0 <= i < |bs| => Copied(bs[i]))
  }

  /** Strings, numbers, truth values and identifiers are kept; a call is not, and a
      variable is no value. */
  lemma CopiedKinds(name: cstring, v: Option<Kind>)
    ensures v.Some? && (v.value.KStr? || v.value.KNum? || v.value.KBool? || v.value.KIdent?)
            ==> Copied((name, v)) == (name, v)
    ensures v.None? || v.value.KFun? || v.value.KVar? ==> Copied((name, v)) == (name, None)
  {
  }

  /** A call: what the collector cannot copy. */
  predicate HoldsCall(b: Binding) {
    b.1.Some? && (b.1.value.KFun? || b.1.value.KVar?)
  }

  predicate NoNulls(bs: seq<Binding>) {
    forall i :: 0 <= i < |bs| ==> bs[i].1.Some?
  }

  /** The room that some bindings take. */
  function Total(bs: seq<Binding>): nat {
    if bs == [] then 0 else Cost(bs[0]) + Total(bs[1..])
  }

  function Room(v: Option<Kind>): (r: nat)
    ensures r % 8 == 0
  {
    if v.Some? then Extent(v.value) else 0
  }

  function Cost(b: Binding): (r: nat)
    ensures r % 8 == 0
  {
    Room(b.1) + Extent(KVar(b.0, NULL))
  }

  lemma {:induction false} TotalConcat(a: seq<Binding>, b: seq<Binding>)
    ensures Total(a + b) == Total(a) + Total(b)
  {
    hide Cost;
    if a == [] {
      assert a + b == b;
    } else {
      assert (a + b)[1..] == a[1..] + b;
      TotalConcat(a[1..], b);
    }
  }

  lemma TotalOfOne(b: Binding)
    ensures Total([b]) == Cost(b)
  {
    hide Cost;
    assert [b][1..] == [] && Total([]) == 0;
  }

  lemma TotalStep(bs: seq<Binding>, k: nat)
    requires k < |bs|
    ensures Total(bs[..k + 1]) == Total(bs[..k]) + Cost(bs[k])
    ensures Total(bs[..k + 1]) <= Total(bs)
  {
    hide *;
    assert bs[..k + 1] == bs[..k] + [bs[k]];
    assert bs == bs[..k + 1] + bs[k + 1..];
    TotalConcat(bs[..k], [bs[k]]);
    TotalOfOne(bs[k]);
    TotalConcat(bs[..k + 1], bs[k + 1..]);
  }

  // ----- The heap -------------------------------------------------------------

  class Heap {
    var cells: Cells
    var index: nat
    var variables: Ptr
    /** The variable cells, in list order. */
    ghost var list: seq<Ptr>

    ghost predicate Valid()
      reads this
    {
      && WellPlaced(cells, index)
      && IsList(cells, variables, list) && AreVariables(cells, list)
      && UniqueBindings(Bindings(cells, list))
    }

    constructor ()
      ensures Valid() && cells == map[] && index == 0 && list == []
    {
      cells, index, variables, list := map[], 0, NULL, [];
    }

    /** alloc_heap.  When it fails the program ends with a message. */
    method AllocHeap(numBytes: nat) returns (ok: bool, addr: Ptr)
      requires index % 8 == 0 && index <= HEAP_SIZE
      modifies this`index
      ensures ok <==> old(index) + numBytes <= HEAP_SIZE
      ensures !ok ==> index == old(index)
      ensures ok ==> addr == old(index) && index == old(index) + RoundUp(numBytes)
      ensures ok ==> index % 8 == 0 && index <= HEAP_SIZE
    {
      if index + numBytes > HEAP_SIZE {
        return false, NULL;
      }
      addr := index;
      index := (index + numBytes + 7) / 8 * 8;
      return true, addr;
    }

    /** The term_new_ constructors: the term, and its string behind it. */
    method NewTerm(kind: Kind) returns (ok: bool, addr: Ptr)
      requires WellPlaced(cells, index)
      modifies this`index, this`cells
      ensures ok <==> old(index) + Extent(kind) <= HEAP_SIZE
      ensures ok ==> addr == old(index) && index == old(index) + Extent(kind)
      ensures ok ==> addr !in old(cells) && cells == old(cells)[addr := Cell(kind, NULL)] && WellPlaced(cells, index)
    {
      ok, addr := AllocHeap(TERM_SIZE);
      if !ok {
        return;
      }
      if kind.KIdent? || kind.KStr? || kind.KVar? {
        var at;
        ok, at := AllocHeap(|kind.text| + 1);
        if !ok {
          return;
        }
      }
      // The cell is fresh from a zeroed heap, so its link is NULL.
      cells := cells[addr := Cell(kind, NULL)];
    }

    /** get_variable_impl */
    method FindVariable(name: cstring) returns (p: Ptr)
      requires Valid()
      ensures var at := IndexOf(Bindings(cells, list), name);
              if at < |list| then p == list[at] && p != NULL else p == NULL
    {
      hide WellPlaced, UniqueBindings;
      ghost var bs := Bindings(cells, list);
      p := variables;
      ghost var at := 0;
      while p != NULL
        invariant at <= |list| && IsList(cells, p, list[at..])
        invariant forall i :: 0 <= i < at ==> bs[i].0 != name
        decreases |list| - at
      {
        assert list[at..][0] == list[at] && list[at..][1..] == list[at + 1..];
        if cells[p].kind.text == name {
          assert bs[at].0 == name;
          return;
        }
        p, at := cells[p].next, at + 1;
      }
    }

    /** set_variable */
    method SetVariable(name: cstring, value: Ptr) returns (ok: bool)
      requires Valid() && IsTerm(cells, value)
      modifies this
      ensures var bs, b := old(Bindings(cells, list)), (name, Contents(old(cells), value));
              var known := IndexOf(bs, name) < |bs|;
              && (ok <==> known || old(index) + Extent(KVar(name, value)) <= HEAP_SIZE)
              && (ok ==> Valid() && Bindings(cells, list) == Put(bs, b))
              && (ok && known ==>
                   var v := old(list)[IndexOf(bs, name)];
                   list == old(list) && index == old(index)
                   && cells == old(cells)[v := Cell(KVar(name, value), old(cells)[v].next)])
              && (ok && !known ==>
                   list == [old(index) as Ptr] + old(list) && index == old(index) + Extent(KVar(name, value))
                   && cells == old(cells)[old(index) := Cell(KVar(name, value), old(variables))])
    {
      hide WellPlaced, IsList, Extent;
      var v := FindVariable(name);
      ghost var at := IndexOf(Bindings(cells, list), name);
      PutKeepsUnique(Bindings(cells, list), (name, Contents(cells, value)));
      if v != NULL {
        Rebound(cells, index, variables, list, at, value);
        cells := cells[v := Cell(KVar(cells[v].kind.text, value), cells[v].next)];
        return true;
      }
      var rv;
      ok, rv := NewTerm(KVar(name, value));
      if !ok {
        return;
      }
      Prepended(old(cells), variables, list, rv, name, value);
      Relinked(cells, index, rv, variables);
      cells := cells[rv := Cell(KVar(name, value), variables)];
      assert cells == old(cells)[rv := Cell(KVar(name, value), variables)];
      list := [rv] + list;
      variables := rv;
      return true;
    }

    /** term_dupe, on a term that is there: calls are not copied. */
    method Dupe(kind: Kind) returns (ok: bool, addr: Ptr)
      requires Valid()
      modifies this`index, this`cells
      ensures kind.KFun? || kind.KVar? ==> ok && addr == NULL && index == old(index) && cells == old(cells)
      ensures kind.KStr? || kind.KNum? || kind.KBool? || kind.KIdent? ==>
          && (ok <==> old(index) + Extent(kind) <= HEAP_SIZE)
          && (ok ==> addr == old(index) && addr !in old(cells) && index == old(index) + Extent(kind)
                     && cells == old(cells)[addr := Cell(kind, NULL)])
      ensures ok ==> Valid() && Bindings(cells, list) == old(Bindings(cells, list))
      ensures ok ==> NothingShared(cells, list) == old(NothingShared(cells, list))
      ensures ok && addr != NULL ==> forall i :: 0 <= i < |list| ==> cells[list[i]].kind.value != addr
    {
      hide WellPlaced, IsList, Extent;
      if !IsValue(kind) {
        return true, NULL;
      }
      ok, addr := NewTerm(kind);
      if ok {
        IndexIsFree(old(cells), old(index));
        Allocated(old(cells), variables, list, addr, Cell(kind, NULL));
      }
    }

    /** set_variable(name, term_dupe(value)), for a name that is not set yet. */
    method CopyVariable(name: cstring, kind: Kind) returns (ok: bool)
      requires Valid() && NothingShared(cells, list) && IndexOf(Bindings(cells, list), name) == |list|
      modifies this
      ensures ok <==> old(index) + Cost(Copied((name, Some(kind)))) <= HEAP_SIZE
      ensures ok ==> Valid() && Bindings(cells, list) == [Copied((name, Some(kind)))] + old(Bindings(cells, list))
      ensures ok ==> index == old(index) + Cost(Copied((name, Some(kind)))) && NothingShared(cells, list)
    {
      hide WellPlaced, IsList, Extent;
      SameCost(Copied((name, Some(kind))));
      var value;
      ok, value := Dupe(kind);
      if ok {
        IndexIsFree(cells, index);
        ghost var before, heap := list, cells;
        ok := SetVariable(name, value);
        if ok {
          StillUnshared(heap, before, list[0], name, value, cells);
        }
      }
    }

    /** term_gc_heap: every variable is copied, in list order, into a fresh heap.
        It succeeds exactly when no variable holds NULL, which would be followed, and
        the copies fit. */
    method Collect() returns (ok: bool)
      requires Valid()
      modifies this
      ensures var bs := old(Bindings(cells, list));
              && (ok <==> NoNulls(bs) && Total(Copies(bs)) <= HEAP_SIZE)
              && (ok ==> Valid() && Bindings(cells, list) == Reverse(Copies(bs)))
              && (ok ==> index == Total(Copies(bs)) && NothingShared(cells, list))
      ensures ok ==>
          var bs, n := old(Bindings(cells, list)), old(|list|);
          |list| == n
          && forall i :: 0 <= i < n ==>
               Bindings(cells, list)[n - 1 - i] == (bs[i].0, if HoldsCall(bs[i]) then None else bs[i].1)
    {
      hide WellPlaced, IsList, IsValue, Cost, Copied, Reverse;
      ghost var bs, oldList := Bindings(cells, list), list;
      ghost var cs := Copies(bs);
      var oldCells, oldVariables := cells, variables;
      cells, index, variables, list := map[], 0, NULL, [];
      FreshHeap();
      ghost var k := 0;
      while oldVariables != NULL
        invariant 0 <= k <= |bs| && IsList(oldCells, oldVariables, oldList[k..])
        invariant Valid() && Bindings(cells, list) == Reverse(cs[..k]) && NoNulls(bs[..k])
        invariant index == Total(cs[..k]) && NothingShared(cells, list)
        decreases |bs| - k
      {
        FirstOf(oldCells, oldVariables, oldList, k);
        TotalStep(cs, k);
        NewName(bs, k);
        ReverseAppend(cs[..k], cs[k]);
        assert cs[..k + 1] == cs[..k] + [cs[k]] && bs[..k + 1] == bs[..k] + [bs[k]];
        var value := oldCells[oldVariables].kind.value;
        if value == NULL {
          assert bs[k].1 == None;
          return false;
        }
        ok := CopyVariable(oldCells[oldVariables].kind.text, oldCells[value].kind);
        if !ok {
          return;
        }
        oldVariables, k := oldCells[oldVariables].next, k + 1;
      }
      ListEnds(oldCells, oldList, k);
      assert bs[..k] == bs && cs[..k] == cs;
      IndexIsFree(cells, index);
      CopiesTurned(bs);
      return true;
    }
  }

  /** Links take no room. */
  lemma Relinked(cells: Cells, index: nat, p: Ptr, next: Ptr)
    requires WellPlaced(cells, index) && p in cells
    ensures WellPlaced(cells[p := Cell(cells[p].kind, next)], index)
  {
  }

  // ----- Steps of the collector -----------------------------------------------

  lemma FreshHeap()
    ensures WellPlaced(map[], 0) && IsList(map[], NULL, [])
    ensures Reverse<Binding>([]) == []
  {
  }

  lemma IndexIsFree(cells: Cells, index: nat)
    requires WellPlaced(cells, index)
    ensures index as Ptr !in cells && index <= HEAP_SIZE
  {
  }

  lemma Allocated(cells: Cells, variables: Ptr, list: seq<Ptr>, addr: Ptr, c: Cell)
    requires IsList(cells, variables, list) && AreVariables(cells, list) && addr !in cells
    ensures var after := cells[addr := c];
            IsList(after, variables, list) && AreVariables(after, list)
            && Bindings(after, list) == Bindings(cells, list)
            && NothingShared(after, list) == NothingShared(cells, list)
  {
    var after := cells[addr := c];
    ListFrame(cells, after, variables, list);
  }

  lemma FirstOf(cells: Cells, p: Ptr, list: seq<Ptr>, k: nat)
    requires k <= |list| && IsList(cells, p, list[k..]) && p != NULL
    ensures k < |list| && p == list[k] && p in cells && IsList(cells, cells[p].next, list[k + 1..])
  {
    assert k < |list| ==> list[k..][1..] == list[k + 1..];
  }

  lemma ListEnds(cells: Cells, list: seq<Ptr>, k: nat)
    requires k <= |list| && IsList(cells, NULL, list[k..])
    ensures k == |list|
  {
  }

  lemma SameCost(b: Binding)
    ensures forall value :: Cost(b) == Room(b.1) + Extent(KVar(b.0, value))
  {
  }

  lemma NewName(bs: seq<Binding>, k: nat)
    requires k < |bs| && UniqueBindings(bs)
    ensures IndexOf(Reverse(Copies(bs)[..k]), bs[k].0) == k
  {
    var cs := Copies(bs)[..k];
    forall i | 0 <= i < k
      ensures Reverse(cs)[i].0 != bs[k].0
    {
      ReverseAt(cs, i);
    }
    assert |Reverse(cs)| == k;
  }

  lemma StillUnshared(cells: Cells, list: seq<Ptr>, rv: Ptr, name: cstring, value: Ptr, after: Cells)
    requires AreVariables(cells, list) && NothingShared(cells, list)
    requires rv !in cells && rv in after && after[rv].kind == KVar(name, value)
    requires forall a :: a in cells ==> a in after && after[a] == cells[a]
    requires AreVariables(after, [rv] + list)
    requires value != NULL ==> forall i :: 0 <= i < |list| ==> cells[list[i]].kind.value != value
    ensures NothingShared(after, [rv] + list)
  {
    var ps := [rv] + list;
    forall i, j | 0 <= i < j < |ps|
      ensures after[ps[i]].kind.value != after[ps[j]].kind.value || after[ps[i]].kind.value == NULL
    {
      assert ps[j] == list[j - 1];
      if i > 0 {
        assert ps[i] == list[i - 1];
      }
    }
  }

  // ----- Why unshared values always fit ---------------------------------------

  function Extents(cells: Cells, ps: seq<Ptr>): nat
    requires forall i :: 0 <= i < |ps| ==> ps[i] in cells
  {
    if ps == [] then 0 else Extent(cells[ps[0]].kind) + Extents(cells, ps[1..])
  }

  lemma {:induction false} ExtentsWithout(cells: Cells, ps: seq<Ptr>, k: nat)
    requires k < |ps| && forall i :: 0 <= i < |ps| ==> ps[i] in cells
    ensures Extents(cells, ps) == Extent(cells[ps[k]].kind) + Extents(cells, ps[..k] + ps[k + 1..])
    decreases k
  {
    hide Extent;
    if k == 0 {
      assert ps[..0] + ps[1..] == ps[1..];
    } else {
      ExtentsWithout(cells, ps[1..], k - 1);
      assert (ps[..k] + ps[k + 1..])[1..] == ps[1..][..k - 1] + ps[1..][k..];
    }
  }

  lemma {:induction false} Highest(ps: seq<Ptr>) returns (k: nat)
    requires ps != []
    ensures k < |ps| && forall i :: 0 <= i < |ps| ==> ps[i] <= ps[k]
  {
    if |ps| == 1 {
      k := 0;
    } else {
      var j := Highest(ps[1..]);
      assert forall i :: 0 < i < |ps| ==> ps[i] == ps[1..][i - 1];
      k := if ps[1..][j] > ps[0] then j + 1 else 0;
    }
  }

  /** Different cells below a bound fit below it. */
  lemma {:induction false} ExtentsFit(cells: Cells, index: nat, ps: seq<Ptr>, bound: nat)
    requires WellPlaced(cells, index) && Distinct(ps)
    requires forall i :: 0 <= i < |ps| ==> ps[i] in cells && ps[i] + Extent(cells[ps[i]].kind) <= bound
    ensures Extents(cells, ps) <= bound
    decreases |ps|
  {
    if ps != [] {
      hide Extent;
      var k := Highest(ps);
      var rest := ps[..k] + ps[k + 1..];
      ExtentsWithout(cells, ps, k);
      forall i | 0 <= i < |rest|
        ensures rest[i] in cells && rest[i] + Extent(cells[rest[i]].kind) <= ps[k]
      {
        assert rest[i] == ps[if i < k then i else i + 1];
      }
      ExtentsFit(cells, index, rest, ps[k]);
    }
  }

  /** The terms of the variables that the collector copies. */
  function Held(cells: Cells, list: seq<Ptr>): (r: seq<Ptr>)
    requires AreVariables(cells, list)
    ensures forall j :: 0 <= j < |r| ==> r[j] in cells && !cells[r[j]].kind.KVar?
    ensures forall j :: 0 <= j < |r| ==>
              r[j] != NULL && exists i :: 0 <= i < |list| && cells[list[i]].kind.value == r[j]
  {
    if list == [] then []
    else
      var value := cells[list[0]].kind.value;
      assert forall i :: 0 <= i < |list[1..]| ==> list[1..][i] == list[i + 1];
      (if value != NULL && IsValue(cells[value].kind) then [value] else []) + Held(cells, list[1..])
  }

  lemma {:induction false} HeldIsDistinct(cells: Cells, list: seq<Ptr>)
    requires AreVariables(cells, list) && NothingShared(cells, list)
    ensures Distinct(Held(cells, list))
    decreases |list|
  {
    if list != [] {
      assert forall i :: 0 <= i < |list[1..]| ==> list[1..][i] == list[i + 1];
      HeldIsDistinct(cells, list[1..]);
    }
  }

  lemma {:induction false} ExtentsConcat(cells: Cells, a: seq<Ptr>, b: seq<Ptr>)
    requires (forall i :: 0 <= i < |a| ==> a[i] in cells) && (forall i :: 0 <= i < |b| ==> b[i] in cells)
    ensures Extents(cells, a + b) == Extents(cells, a) + Extents(cells, b)
    decreases |a|
  {
    hide Extent;
    if a == [] {
      assert a + b == b;
    } else {
      assert (a + b)[1..] == a[1..] + b;
      ExtentsConcat(cells, a[1..], b);
    }
  }

  /** The copies take the room of the variables and of what they hold. */
  lemma {:induction false} HeldTotal(cells: Cells, list: seq<Ptr>)
    requires AreVariables(cells, list)
    ensures Total(Copies(Bindings(cells, list))) == Extents(cells, Held(cells, list)) + Extents(cells, list)
    decreases |list|
  {
    if list != [] {
      HeldTotal(cells, list[1..]);
      CopiesFirst(cells, list);
      HeldFirst(cells, list);
      SameCost(Copies(Bindings(cells, list))[0]);
      hide Extent, Cost, Copies, Bindings, Held;
    }
  }

  lemma CopiesFirst(cells: Cells, list: seq<Ptr>)
    requires AreVariables(cells, list) && list != []
    ensures var v := cells[list[0]].kind; var cs := Copies(Bindings(cells, list));
            cs != [] && cs[0] == Copied((v.text, Contents(cells, v.value)))
            && cs[1..] == Copies(Bindings(cells, list[1..]))
  {
    hide Copied, Contents;
  }

  lemma HeldFirst(cells: Cells, list: seq<Ptr>)
    requires AreVariables(cells, list) && list != []
    ensures Extents(cells, Held(cells, list))
         == Room(Copied(("", Contents(cells, cells[list[0]].kind.value))).1) + Extents(cells, Held(cells, list[1..]))
  {
    hide Extent;
    var value := cells[list[0]].kind.value;
    if value != NULL && IsValue(cells[value].kind) {
      var ps := [value] + Held(cells, list[1..]);
      assert ps[1..] == Held(cells, list[1..]) && Held(cells, list) == ps;
    } else {
      assert Held(cells, list) == Held(cells, list[1..]);
    }
  }

  /** Without sharing, the copies take no more than the heap in use: collection
      cannot run out. */
  lemma UnsharedAlwaysFits(heap: Heap)
    requires heap.Valid() && NothingShared(heap.cells, heap.list)
    ensures Total(Copies(Bindings(heap.cells, heap.list))) <= heap.index <= HEAP_SIZE
  {
    hide Extent;
    var cells, list := heap.cells, heap.list;
    var held := Held(cells, list);
    ListIsDistinct(cells, heap.variables, list);
    HeldIsDistinct(cells, list);
    HeldTotal(cells, list);
    ExtentsConcat(cells, held, list);
    ExtentsFit(cells, heap.index, held + list, heap.index);
  }

  lemma CopiesTurned(bs: seq<Binding>)
    ensures forall i :: 0 <= i < |bs| ==>
              Reverse(Copies(bs))[|bs| - 1 - i] == (bs[i].0, if HoldsCall(bs[i]) then None else bs[i].1)
  {
    forall i | 0 <= i < |bs|
      ensures Reverse(Copies(bs))[|bs| - 1 - i] == (bs[i].0, if HoldsCall(bs[i]) then None else bs[i].1)
    {
      hide *;
      CopyAt(bs, i);
      ReverseAt(Copies(bs), |bs| - 1 - i);
    }
  }

  lemma CopyAt(bs: seq<Binding>, i: nat)
    requires i < |bs|
    ensures |Copies(bs)| == |bs|
    ensures Copies(bs)[i] == (bs[i].0, if HoldsCall(bs[i]) then None else bs[i].1)
  {
    CopiedKinds(bs[i].0, bs[i].1);
    assert bs[i] == (bs[i].0, bs[i].1);
    hide IsValue, Copied;
    assert Copies(bs)[i] == Copied(bs[i]);
  }

  /** What two collections make of a binding is what one makes of it. */
  lemma CollectedTwiceAt(bs: seq<Binding>, i: nat)
    requires i < |bs|
    ensures var r := Reverse(Copies(bs));
            |r| == |bs| == |Reverse(Copies(r))| && r[|bs| - 1 - i] == Reverse(Copies(r))[i]
            && r[|bs| - 1 - i] == (bs[i].0, if HoldsCall(bs[i]) then None else bs[i].1)
  {
    var cs := Copies(bs);
    var r := Reverse(cs);
    var j := |bs| - 1 - i;
    CopyAt(bs, i);
    CopyAt(r, j);
    hide Copies, Reverse;
    ReverseAt(cs, j);
    ReverseAt(Copies(r), i);
  }

  /** When exactly a second collection works: when no call was held.  Then it only
      turns the list around again. */
  lemma CollectedAgain(bs: seq<Binding>)
    requires NoNulls(bs)
    ensures var r := Reverse(Copies(bs));
            && (NoNulls(r) <==> forall i :: 0 <= i < |bs| ==> !HoldsCall(bs[i]))
            && (NoNulls(r) ==> Reverse(Copies(r)) == bs)
  {
    var r := Reverse(Copies(bs));
    forall i | 0 <= i < |bs|
      ensures |r| == |bs| == |Reverse(Copies(r))| && r[|bs| - 1 - i] == Reverse(Copies(r))[i]
      ensures HoldsCall(bs[i]) <==> r[|bs| - 1 - i].1.None?
      ensures !HoldsCall(bs[i]) ==> r[|bs| - 1 - i] == bs[i]
    {
      CollectedTwiceAt(bs, i);
    }
    hide Reverse, Copies, HoldsCall;
    if NoNulls(r) {
      forall i | 0 <= i < |bs|
        ensures !HoldsCall(bs[i]) && Reverse(Copies(r))[i] == bs[i]
      {
        assert r[|bs| - 1 - i].1.Some?;
      }
    } else {
      var j :| 0 <= j < |r| && r[j].1.None?;
      assert HoldsCall(bs[|bs| - 1 - j]);
    }
  }

  /** After a collection every variable is looked up as before, but a call is gone. */
  lemma CollectedLookup(bs: seq<Binding>, name: cstring)
    requires UniqueBindings(bs)
    ensures var r := Reverse(Copies(bs)); var i, j := IndexOf(bs, name), IndexOf(r, name);
            && (i < |bs| <==> j < |r|)
            && (i < |bs| ==> r[j] == (name, if HoldsCall(bs[i]) then None else bs[i].1))
  {
    var cs := Copies(bs);
    var r := Reverse(cs);
    var i, j := IndexOf(bs, name), IndexOf(r, name);
    if i < |bs| {
      ReverseAt(cs, |bs| - 1 - i);
      CopiedKinds(bs[i].0, bs[i].1);
      assert r[|bs| - 1 - i].0 == name;
    }
    if j < |r| {
      ReverseAt(cs, j);
    }
  }

  /** Four variables that hold one string term. */
  function SharedCells(text: cstring): Cells {
    map[0 := Cell(KStr(text), NULL),
        4168 := Cell(KVar("a", 0), NULL),
        4208 := Cell(KVar("b", 0), 4168),
        4248 := Cell(KVar("c", 0), 4208),
        4288 := Cell(KVar("d", 0), 4248)]
  }

  const SHARED_LIST: seq<Ptr> := [4288, 4248, 4208, 4168]

  lemma SharedIsPlaced(text: cstring)
    requires |text| == HEAP_SIZE / 4 - 1
    ensures WellPlaced(SharedCells(text), 4328)
  {
    assert Extent(KStr(text)) == 4168;
    assert forall name: cstring, v :: |name| == 1 ==> Extent(KVar(name, v)) == 40;
    hide Extent;
  }

  lemma SharedIsList(text: cstring)
    ensures IsList(SharedCells(text), 4288, SHARED_LIST)
  {
    var cells := SharedCells(text);
    assert SHARED_LIST[1..][1..] == [4208, 4168] && [4208, 4168][1..] == [4168] && [4168][1..] == [];
    assert IsList(cells, 4168, [4168]);
    assert IsList(cells, 4208, [4208, 4168]);
    assert IsList(cells, 4248, SHARED_LIST[1..]);
  }

  lemma {:induction false} EqualCosts(bs: seq<Binding>, c: nat)
    requires forall i :: 0 <= i < |bs| ==> Cost(bs[i]) == c
    ensures Total(bs) == |bs| * c
  {
    hide Cost;
    if bs != [] {
      EqualCosts(bs[1..], c);
      assert |bs| * c == (|bs| - 1) * c + c;
    }
  }

  /** Sharing: when four variables hold one string term of 4133 octets, as many as
      readfile returns, they fit in the heap, but their copies do not. */
  lemma SharedMayNotFit(text: cstring)
    requires |text| == HEAP_SIZE / 4 - 1
    ensures var cells := SharedCells(text);
            && WellPlaced(cells, 4328) && IsList(cells, 4288, SHARED_LIST) && AreVariables(cells, SHARED_LIST)
            && UniqueBindings(Bindings(cells, SHARED_LIST)) && NoNulls(Bindings(cells, SHARED_LIST))
            && Total(Copies(Bindings(cells, SHARED_LIST))) > HEAP_SIZE
  {
    SharedIsPlaced(text);
    SharedIsList(text);
    var bs := Bindings(SharedCells(text), SHARED_LIST);
    assert Extent(KStr(text)) == 4168;
    assert forall name: cstring, v :: |name| == 1 ==> Extent(KVar(name, v)) == 40;
    hide Extent, IsList, WellPlaced;
    var v := Some(KStr(text));
    assert bs[0] == ("d", v) && bs[1] == ("c", v) && bs[2] == ("b", v) && bs[3] == ("a", v);
    hide Total;
    EqualCosts(Copies(bs), 4208);
  }
}
