/** How the semantic actions of src/parser.y build terms in the heap: parameters
    and actions are put in front of a list one by one, and the list is reversed in
    place, so that what runs comes in source order. */
module TermBuild {
  import opened CString
  import opened Values
  import opened Script
  import opened Staged
  import opened TermHeap

  // ----- The heap as terms ----------------------------------------------------

  /** The contents of a cell without its parameters. */
  predicate Matches(k: Kind, t: Term) {
    match t
    case Ident(name) => k == KIdent(name)
    case Lit(Str(s)) => k == KStr(s)
    case Lit(Num(n)) => k == KNum(n)
    case Lit(Bool(b)) => k == KBool(b)
    case Fun(fn, _) => k.KFun? && k.fn == fn
    case Neg(_) => false
  }

  /** The cell at `p` stands for a term whose cells all lie from `low` up to `p`.
      The link of the cell itself plays no part. */
  ghost predicate Stands(cells: Cells, p: Ptr, t: Term, low: Ptr)
    decreases t
  {
    && p in cells && low <= p && Matches(cells[p].kind, t)
    && (t.Fun? ==> exists ps :: AreParams(cells, cells[p].kind.params, ps, t.params, low, p))
  }

  ghost predicate AreParams(cells: Cells, head: Ptr, ps: seq<Ptr>, ts: seq<Term>, low: Ptr, high: Ptr)
    decreases ts, 0
  {
    && |ps| == |ts| && IsList(cells, head, ps)
    && forall i :: 0 <= i < |ts| ==> ps[i] < high && Stands(cells, ps[i], ts[i], low)
  }

  /** A term stands as long as its cells below the top one do not change. */
  lemma {:induction false} StandsFrame(cells: Cells, other: Cells, p: Ptr, t: Term, low: Ptr)
    requires Stands(cells, p, t, low)
    requires p in other && other[p].kind == cells[p].kind
    requires forall a :: a in cells && low <= a < p ==> a in other && other[a] == cells[a]
    ensures Stands(other, p, t, low)
    decreases t
  {
    if t.Fun? {
      var ps :| AreParams(cells, cells[p].kind.params, ps, t.params, low, p);
      forall i | 0 <= i < |ps|
        ensures Stands(other, ps[i], t.params[i], low)
      {
        StandsFrame(cells, other, ps[i], t.params[i], low);
      }
      ListFrame(cells, other, cells[p].kind.params, ps);
      assert AreParams(other, other[p].kind.params, ps, t.params, low, p);
    }
  }

  lemma StandsHigher(cells: Cells, p: Ptr, t: Term, low: Ptr, lower: Ptr)
    requires Stands(cells, p, t, low) && lower <= low
    ensures Stands(cells, p, t, lower)
    decreases t
  {
    if t.Fun? {
      var ps :| AreParams(cells, cells[p].kind.params, ps, t.params, low, p);
      forall i | 0 <= i < |ps|
        ensures Stands(cells, ps[i], t.params[i], lower)
      {
        StandsHigher(cells, ps[i], t.params[i], low, lower);
      }
      assert AreParams(cells, cells[p].kind.params, ps, t.params, lower, p);
    }
  }

  // ----- term_reverse ---------------------------------------------------------

  /** Nothing but links of some cells differs. */
  ghost predicate OnlyLinks(before: Cells, after: Cells, ps: seq<Ptr>) {
    && before.Keys == after.Keys
    && forall a :: a in before ==> after[a].kind == before[a].kind && (a !in ps ==> after[a] == before[a])
  }

  lemma OnlyLinksPlaced(before: Cells, after: Cells, ps: seq<Ptr>, index: nat)
    requires WellPlaced(before, index) && OnlyLinks(before, after, ps)
    ensures WellPlaced(after, index)
  {
  }

  method ReverseList(h: Heap, list: Ptr, ghost ps: seq<Ptr>) returns (prev: Ptr)
    requires IsList(h.cells, list, ps)
    modifies h`cells
    ensures IsList(h.cells, prev, Reverse(ps))
    ensures OnlyLinks(old(h.cells), h.cells, ps)
  {
    ListIsDistinct(h.cells, list, ps);
    ListIsIn(h.cells, list, ps);
    var rv := list;
    prev := NULL;
    ghost var k := 0;
    while rv != NULL
      invariant 0 <= k <= |ps| && IsList(h.cells, rv, ps[k..]) && IsList(h.cells, prev, Reverse(ps[..k]))
      invariant OnlyLinks(old(h.cells), h.cells, ps)
      decreases |ps| - k
    {
      ghost var was := h.cells;
      FirstOf(was, rv, ps, k);
      var next := h.cells[rv].next;
      h.cells := h.cells[rv := h.cells[rv].(next := prev)];
      Relink(old(h.cells), was, ps, k, prev);
      prev, rv, k := rv, next, k + 1;
    }
    ListEnds(h.cells, ps, k);
    assert ps[..k] == ps;
  }

  /** One round of term_reverse. */
  lemma Relink(start: Cells, was: Cells, ps: seq<Ptr>, k: nat, prev: Ptr)
    requires k < |ps| && Distinct(ps) && OnlyLinks(start, was, ps) && ps[k] in was
    requires IsList(was, prev, Reverse(ps[..k])) && IsList(was, ps[k], ps[k..])
    ensures var after := was[ps[k] := was[ps[k]].(next := prev)];
            && IsList(after, was[ps[k]].next, ps[k + 1..]) && IsList(after, ps[k], Reverse(ps[..k + 1]))
            && OnlyLinks(start, after, ps)
  {
    var after := was[ps[k] := was[ps[k]].(next := prev)];
    assert ps[k..][1..] == ps[k + 1..] && ps[k..][0] == ps[k];
    assert IsList(was, was[ps[k]].next, ps[k + 1..]);
    ReverseAppend(ps[..k], ps[k]);
    assert ps[..k + 1] == ps[..k] + [ps[k]];
    ReverseIn(ps, k);
    ListFrame(was, after, prev, Reverse(ps[..k]));
    ListFrame(was, after, was[ps[k]].next, ps[k + 1..]);
    assert Reverse(ps[..k + 1])[1..] == Reverse(ps[..k]);
  }

  lemma ReverseIn(ps: seq<Ptr>, k: nat)
    requires Distinct(ps) && k < |ps|
    ensures forall i :: 0 <= i < |Reverse(ps[..k])| ==> Reverse(ps[..k])[i] != ps[k]
  {
    forall i | 0 <= i < k
      ensures Reverse(ps[..k])[i] != ps[k]
    {
      ReverseAt(ps[..k], i);
    }
  }

  lemma {:induction false} ReverseTwice<T>(s: seq<T>)
    ensures Reverse(Reverse(s)) == s
  {
    var r := Reverse(Reverse(s));
    forall i | 0 <= i < |s|
      ensures r[i] == s[i]
    {
      ReverseAt(Reverse(s), i);
      ReverseAt(s, |s| - 1 - i);
    }
  }

  // ----- Building -------------------------------------------------------------

  function TopKind(t: Term, params: Ptr): Kind
    requires !t.Neg?
  {
    match t
    case Ident(name) => KIdent(name)
    case Lit(Str(s)) => KStr(s)
    case Lit(Num(n)) => KNum(n)
    case Lit(Bool(b)) => KBool(b)
    case Fun(fn, _) => KFun(fn, params)
  }

  /** A function called by its name; the other ones are operators. */
  predicate IsCall(fn: Fn) {
    fn !in {Assign, Add, Subtract}
  }

  /** The names in function_table. */
  function NameOf(fn: Fn): cstring {
    match fn
    case Assign => "="
    case Add => "+"
    case Subtract => "-"
    case Print => "print"
    case Vars => "vars"
    case Sleep => "sleep"
    case Reboot => "reboot"
    case Poweroff => "poweroff"
    case Getenv => "getenv"
    case Setenv => "setenv"
    case Loadenv => "loadenv"
    case Saveenv => "saveenv"
    case Cmd => "cmd"
    case Readfile => "readfile"
    case FwupRevert => "fwup_revert"
  }

  /** The scanner makes an identifier of the name in a call. */
  function NameRoom(t: Term): nat {
    if t.Fun? && IsCall(t.fn) then Extent(KIdent(NameOf(t.fn))) else 0
  }

  /** The room that building a term takes. */
  /** The names that are called are short: 32 octets and one or two words of eight. */
  lemma NameRooms(fn: Fn, ps: seq<Term>)
    requires IsCall(fn)
    ensures NameRoom(Fun(fn, ps)) == if fn in {Poweroff, Readfile, FwupRevert} then 48 else 40
  {
  }

  function Room(t: Term): nat
    requires Built(t)
    decreases t, 0
  {
    NameRoom(t) + (if t.Fun? then RoomAll(t.params) else 0) + Extent(TopKind(t, NULL))
  }

  function RoomAll(ts: seq<Term>): nat
    requires forall i :: 0 <= i < |ts| ==> Built(ts[i])
    decreases ts, 1
  {
    if ts == [] then 0 else RoomAll(ts[..|ts| - 1]) + Room(ts[|ts| - 1])
  }

  /** For one: getenv("a") takes 40 octets for the name, 40 for the text and 32 for
      the call. */
  lemma GetenvRoom()
    ensures Room(Fun(Getenv, [Lit(Str("a"))])) == 112
  {
    var t := Lit(Str("a"));
    assert [t][..0] == [] && RoomAll([]) == 0;
    assert RoomAll([t]) == Room(t);
  }

  lemma RoomStep(ts: seq<Term>, i: nat)
    requires i < |ts| && forall j :: 0 <= j < |ts| ==> Built(ts[j])
    ensures RoomAll(ts[..i + 1]) == RoomAll(ts[..i]) + Room(ts[i])
  {
    hide Room, Built;
    assert ts[..i + 1][..i] == ts[..i];
  }

  lemma {:induction false} RoomPrefix(ts: seq<Term>, i: nat)
    requires i <= |ts| && forall j :: 0 <= j < |ts| ==> Built(ts[j])
    ensures RoomAll(ts[..i]) <= RoomAll(ts)
    decreases |ts| - i
  {
    hide Room, Built;
    if i == |ts| {
      assert ts[..i] == ts;
    } else {
      RoomStep(ts, i);
      RoomPrefix(ts, i + 1);
    }
  }

  /** Old cells are as they were, and new ones are above them. */
  ghost predicate Grown(before: Cells, index: nat, after: Cells) {
    && (forall a :: a in before ==> a in after && after[a] == before[a])
    && (forall a :: a in after && a !in before ==> index <= a)
  }

  /** Terms that have been built one after the other, from `start` up to `index`,
      each with its cells between its low address and its own. */
  ghost predicate InARow(cells: Cells, ps: seq<Ptr>, lows: seq<Ptr>, ts: seq<Term>, start: Ptr, index: Ptr) {
    && |ps| == |lows| <= |ts|
    && (forall i :: 0 <= i < |ps| ==> start <= lows[i] <= ps[i] < index && Stands(cells, ps[i], ts[i], lows[i]))
    && (forall i, j :: 0 <= i < j < |ps| ==> ps[i] < lows[j])
  }

  /** Links of the built terms may change, and cells above may come. */
  lemma InARowFrame(before: Cells, after: Cells, ps: seq<Ptr>, lows: seq<Ptr>, ts: seq<Term>, start: Ptr,
      index: Ptr, higher: Ptr)
    requires InARow(before, ps, lows, ts, start, index) && index <= higher
    requires forall a :: a in before && start <= a < index ==>
               a in after && after[a].kind == before[a].kind && (a !in ps ==> after[a] == before[a])
    ensures InARow(after, ps, lows, ts, start, higher)
  {
    hide Stands;
    forall i | 0 <= i < |ps|
      ensures Stands(after, ps[i], ts[i], lows[i])
    {
      StandsIn(before, ps[i], ts[i], lows[i]);
      forall a | a in before && lows[i] <= a < ps[i]
        ensures a in after && after[a] == before[a]
      {
      }
      StandsFrame(before, after, ps[i], ts[i], lows[i]);
    }
  }

  lemma StandsIn(cells: Cells, p: Ptr, t: Term, low: Ptr)
    requires Stands(cells, p, t, low)
    ensures p in cells && low <= p
  {
  }

  lemma RowIsParams(cells: Cells, head: Ptr, ps: seq<Ptr>, lows: seq<Ptr>, ts: seq<Term>, start: Ptr, index: Ptr)
    requires InARow(cells, ps, lows, ts, start, index) && |ps| == |ts| && IsList(cells, head, ps)
    ensures AreParams(cells, head, ps, ts, start, index)
  {
    hide Stands, IsList;
    forall i | 0 <= i < |ts|
      ensures Stands(cells, ps[i], ts[i], start)
    {
      StandsHigher(cells, ps[i], ts[i], lows[i], start);
    }
  }

  lemma ReverseHas<T>(s: seq<T>, x: T)
    ensures x in Reverse(s) ==> x in s
  {
    if x in Reverse(s) {
      var i :| 0 <= i < |Reverse(s)| && Reverse(s)[i] == x;
      ReverseAt(s, i);
    }
  }

  /** The scanner and the parser on a term: for a call, the name comes first, then the
      parameters, then the term itself. */
  method Build(h: Heap, t: Term) returns (ok: bool, p: Ptr)
    requires WellPlaced(h.cells, h.index) && Built(t)
    modifies h`cells, h`index
    ensures ok <==> old(h.index) + Room(t) <= HEAP_SIZE
    ensures ok ==> WellPlaced(h.cells, h.index) && h.index == old(h.index) + Room(t)
    ensures ok ==> Grown(old(h.cells), old(h.index), h.cells) && p < h.index
    ensures ok ==> Stands(h.cells, p, t, old(h.index)) && h.cells[p].next == NULL
    decreases t, 0
  {
    hide WellPlaced, IsList, Extent, NameOf, AreParams;
    p := NULL;
    ghost var start, before := h.index, h.cells;
    AllBelow(before, start);
    if t.Fun? {
      SameFun(t.fn);
      if IsCall(t.fn) {
        ok, p := h.NewTerm(KIdent(NameOf(t.fn)));
        if !ok {
          return;
        }
      }
      ghost var named, from := h.cells, h.index;
      var list; ghost var ps;
      ok, list, ps := BuildList(h, t.params);
      if !ok {
        return;
      }
      ghost var cells, index := h.cells, h.index;
      GrownTwice(before, start, named, from, cells);
      ParamsHigher(cells, list, ps, t.params, from, start, index);
      ok, p := h.NewTerm(KFun(t.fn, list));
      if ok {
        FunStands(cells, index, h.cells, p, t, list, ps, start);
      }
    } else {
      ok, p := h.NewTerm(TopKind(t, NULL));
    }
  }

  lemma GrownTwice(before: Cells, start: nat, named: Cells, from: nat, cells: Cells)
    requires Grown(before, start, named) && Grown(named, from, cells) && start <= from
    ensures Grown(before, start, cells)
  {
  }

  lemma ParamsHigher(cells: Cells, head: Ptr, ps: seq<Ptr>, ts: seq<Term>, low: Ptr, lower: Ptr, high: Ptr)
    requires AreParams(cells, head, ps, ts, low, high) && lower <= low
    ensures AreParams(cells, head, ps, ts, lower, high)
  {
    hide IsList, Stands;
    forall i | 0 <= i < |ts|
      ensures Stands(cells, ps[i], ts[i], lower)
    {
      StandsHigher(cells, ps[i], ts[i], low, lower);
    }
  }

  lemma SameFun(fn: Fn)
    ensures forall params :: Extent(KFun(fn, params)) == Extent(KFun(fn, NULL))
  {
  }

  lemma FunStands(before: Cells, index: nat, after: Cells, p: Ptr, t: Term, list: Ptr, ps: seq<Ptr>, low: Ptr)
    requires t.Fun? && AreParams(before, list, ps, t.params, low, index) && p == index && low <= p && p !in before
    requires after == before[p := Cell(KFun(t.fn, list), NULL)]
    ensures Stands(after, p, t, low)
  {
    hide IsList;
    forall i | 0 <= i < |ps|
      ensures Stands(after, ps[i], t.params[i], low)
    {
      StandsFrame(before, after, ps[i], t.params[i], low);
    }
    ListFrame(before, after, list, ps);
    assert AreParams(after, list, ps, t.params, low, p);
  }

  /** Parameters and Actions: each new term goes in front, then the list is
      reversed, so that it has the terms in source order. */
  method BuildList(h: Heap, ts: seq<Term>) returns (ok: bool, head: Ptr, ghost ps: seq<Ptr>)
    requires WellPlaced(h.cells, h.index) && forall i :: 0 <= i < |ts| ==> Built(ts[i])
    modifies h`cells, h`index
    ensures ok <==> old(h.index) + RoomAll(ts) <= HEAP_SIZE
    ensures ok ==> WellPlaced(h.cells, h.index) && h.index == old(h.index) + RoomAll(ts)
    ensures ok ==> Grown(old(h.cells), old(h.index), h.cells)
    ensures ok ==> AreParams(h.cells, head, ps, ts, old(h.index), h.index)
    decreases ts, 1
  {
    hide WellPlaced, IsList, Stands, Built, Room, RoomAll;
    ghost var start := h.index;
    ghost var lows: seq<Ptr> := [];
    ps, head := [], NULL;
    var list := NULL;
    EmptyLists(h.cells, h.index, ts);
    AllBelow(h.cells, h.index);
    for i := 0 to |ts|
      invariant |ps| == i && WellPlaced(h.cells, h.index) && h.index == start + RoomAll(ts[..i])
      invariant Grown(old(h.cells), start, h.cells)
      invariant InARow(h.cells, ps, lows, ts, start, h.index) && IsList(h.cells, list, Reverse(ps))
    {
      RoomStep(ts, i);
      RoomPrefix(ts, i + 1);
      ghost var cells, index := h.cells, h.index;
      var q;
      ok, q := Build(h, ts[i]);
      if !ok {
        return;
      }
      ghost var built := h.cells;
      StandsIn(built, q, ts[i], index);
      GrownLink(old(h.cells), start, cells, index, built, q, list);
      h.cells := h.cells[q := h.cells[q].(next := list)];
      RowGrows(cells, index, built, h.cells, ps, lows, ts, start, h.index, list, q);
      Relinked(built, h.index, q, list);
      lows, ps := lows + [index as Ptr], ps + [q];
      list := q;
    }
    assert ts[..|ts|] == ts;
    ghost var linked := h.cells;
    head := ReverseList(h, list, Reverse(ps));
    OnlyLinksPlaced(linked, h.cells, Reverse(ps), h.index);
    RowReversed(linked, h.cells, ps, lows, ts, start, h.index);
    ReverseTwice(ps);
    RowIsParams(h.cells, head, ps, lows, ts, start, h.index);
    GrownReversed(old(h.cells), start, linked, h.cells, ps);
    RoomFits(h.cells, h.index);
    ok := true;
  }

  lemma EmptyLists(cells: Cells, index: nat, ts: seq<Term>)
    ensures IsList(cells, NULL, Reverse<Ptr>([])) && InARow(cells, [], [], ts, index, index)
    ensures RoomAll(ts[..0]) == 0
  {
  }

  lemma RoomFits(cells: Cells, index: nat)
    requires WellPlaced(cells, index)
    ensures index <= HEAP_SIZE
  {
  }

  lemma RowAppend(cells: Cells, ps: seq<Ptr>, lows: seq<Ptr>, ts: seq<Term>, start: Ptr, index: Ptr, higher: Ptr,
      q: Ptr)
    requires InARow(cells, ps, lows, ts, start, index) && |ps| < |ts|
    requires start <= index <= q < higher && Stands(cells, q, ts[|ps|], index)
    ensures InARow(cells, ps + [q], lows + [index], ts, start, higher)
  {
    hide Stands;
  }

  lemma RowGrows(cells: Cells, index: nat, built: Cells, after: Cells, ps: seq<Ptr>, lows: seq<Ptr>, ts: seq<Term>,
                 start: nat, higher: nat, list: Ptr, q: Ptr)
    requires InARow(cells, ps, lows, ts, start, index) && IsList(cells, list, Reverse(ps)) && |ps| < |ts|
    requires Grown(cells, index, built) && start <= index <= q < higher && WellPlaced(cells, index)
    requires Stands(built, q, ts[|ps|], index) && after == built[q := Cell(built[q].kind, list)]
    ensures InARow(after, ps + [q], lows + [index as Ptr], ts, start, higher)
    ensures IsList(after, q, Reverse(ps + [q]))
  {
    hide Stands;
    StandsIn(built, q, ts[|ps|], index);
    InARowFrame(cells, after, ps, lows, ts, start, index, index);
    StandsFrame(built, after, q, ts[|ps|], index);
    RowAppend(after, ps, lows, ts, start, index, higher, q);
    ReverseAppend(ps, q);
    forall i | 0 <= i < |ps|
      ensures Reverse(ps)[i] in cells && Reverse(ps)[i] != q
    {
      ReverseAt(ps, i);
      StandsIn(cells, ps[|ps| - 1 - i], ts[|ps| - 1 - i], lows[|ps| - 1 - i]);
    }
    ListFrame(cells, after, list, Reverse(ps));
    assert ([q] + Reverse(ps))[1..] == Reverse(ps);
  }

  lemma RowReversed(linked: Cells, after: Cells, ps: seq<Ptr>, lows: seq<Ptr>, ts: seq<Term>, start: Ptr, index: Ptr)
    requires InARow(linked, ps, lows, ts, start, index) && OnlyLinks(linked, after, Reverse(ps))
    ensures InARow(after, ps, lows, ts, start, index)
  {
    hide Stands;
    forall a | a in linked && a !in ps
      ensures after[a] == linked[a]
    {
      ReverseHas(ps, a);
    }
    InARowFrame(linked, after, ps, lows, ts, start, index, index);
  }

  lemma AllBelow(cells: Cells, index: nat)
    requires WellPlaced(cells, index)
    ensures forall a :: a in cells ==> a < index
  {
  }

  lemma GrownLink(before: Cells, start: nat, cells: Cells, index: nat, built: Cells, q: Ptr, list: Ptr)
    requires Grown(before, start, cells) && Grown(cells, index, built) && start <= index <= q && q in built
    requires forall a :: a in before ==> a < start
    ensures Grown(before, start, built[q := Cell(built[q].kind, list)])
  {
  }

  lemma GrownReversed(before: Cells, start: nat, linked: Cells, after: Cells, ps: seq<Ptr>)
    requires Grown(before, start, linked) && OnlyLinks(linked, after, Reverse(ps))
    requires forall i :: 0 <= i < |ps| ==> start <= ps[i]
    requires forall a :: a in before ==> a < start
    ensures Grown(before, start, after)
  {
    hide Reverse;
    forall a | a in before
      ensures a !in Reverse(ps)
    {
      ReverseHas(ps, a);
    }
  }

  // ----- Using the lists ------------------------------------------------------

  /** How term_new_fun counts its parameters. */
  method Count(h: Heap, parameters: Ptr, ghost ps: seq<Ptr>) returns (arity: nat)
    requires IsList(h.cells, parameters, ps)
    ensures arity == |ps|
  {
    var p := parameters;
    arity := 0;
    while p != NULL
      invariant arity <= |ps| && IsList(h.cells, p, ps[arity..])
      decreases |ps| - arity
    {
      FirstOf(h.cells, p, ps, arity);
      arity, p := arity + 1, h.cells[p].next;
    }
    ListEnds(h.cells, ps, arity);
  }

  /** The walk of run_functions: the terms that it runs, in order. */
  method RunOrder(h: Heap, block: Ptr, ghost ps: seq<Ptr>) returns (order: seq<Ptr>)
    requires IsList(h.cells, block, ps)
    ensures order == ps
  {
    var rv := block;
    order := [];
    while rv != NULL
      invariant |order| <= |ps| && order == ps[..|order|] && IsList(h.cells, rv, ps[|order|..])
      decreases |ps| - |order|
    {
      FirstOf(h.cells, rv, ps, |order|);
      order, rv := order + [rv], h.cells[rv].next;
    }
    ListEnds(h.cells, ps, |order|);
  }

  /** A block that is built and then run: its actions run in source order, each
      of them once. */
  method BuildThenRun(h: Heap, actions: seq<Term>) returns (ok: bool, order: seq<Ptr>)
    requires WellPlaced(h.cells, h.index) && forall i :: 0 <= i < |actions| ==> Built(actions[i])
    modifies h`cells, h`index
    ensures ok <==> old(h.index) + RoomAll(actions) <= HEAP_SIZE
    ensures ok ==> |order| == |actions| && Distinct(order)
    ensures ok ==> forall i :: 0 <= i < |actions| ==> Stands(h.cells, order[i], actions[i], old(h.index))
  {
    hide Stands, WellPlaced, IsList, RoomAll, Built, Distinct;
    var block; ghost var ps;
    ok, block, ps := BuildList(h, actions);
    order := [];
    if ok {
      order := RunOrder(h, block, ps);
      ListIsDistinct(h.cells, block, ps);
    }
  }
}
