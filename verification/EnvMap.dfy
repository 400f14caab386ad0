/** The variable list of src/uboot_env.c as a map: the first pair with a name
    gives its value. */
module EnvMap {
  import opened CString
  import opened EnvBlock

  function Meaning(vars: seq<Pair>): map<cstring, cstring> {
    if vars == [] then map[] else Meaning(vars[1..])[vars[0].name := vars[0].value]
  }

  predicate UniqueNames(vars: seq<Pair>) {
    forall i, j :: 0 <= i < j < |vars| ==> vars[i].name != vars[j].name
  }

  /** The index of the first pair with a name, or the length of the list. */
  function Find(vars: seq<Pair>, name: cstring): (r: nat)
    ensures r <= |vars|
    ensures r < |vars| ==> vars[r].name == name
    ensures forall i :: 0 <= i < r ==> vars[i].name != name
  {
    if vars == [] || vars[0].name == name then 0 else 1 + Find(vars[1..], name)
  }

  lemma {:induction false} FindIsMeaning(vars: seq<Pair>, name: cstring)
    ensures Find(vars, name) < |vars| <==> name in Meaning(vars)
    ensures name in Meaning(vars) ==> vars[Find(vars, name)].value == Meaning(vars)[name]
  {
    if vars != [] && vars[0].name != name {
      FindIsMeaning(vars[1..], name);
    }
  }

  lemma FirstIsMeaning(vars: seq<Pair>, name: cstring, k: nat)
    requires k < |vars| && vars[k].name == name
    requires forall i :: 0 <= i < k ==> vars[i].name != name
    ensures name in Meaning(vars) && Meaning(vars)[name] == vars[k].value
  {
    FindIsMeaning(vars, name);
    assert Find(vars, name) == k;
  }

  lemma AbsentFromMeaning(vars: seq<Pair>, name: cstring)
    requires forall i :: 0 <= i < |vars| ==> vars[i].name != name
    ensures name !in Meaning(vars)
  {
    FindIsMeaning(vars, name);
  }

  /** With unique names the map has exactly the pairs of the list. */
  lemma UniqueMeaning(vars: seq<Pair>, p: Pair)
    requires UniqueNames(vars)
    ensures p in vars <==> p.name in Meaning(vars) && Meaning(vars)[p.name] == p.value
  {
    FindIsMeaning(vars, p.name);
    if p in vars {
      var k :| 0 <= k < |vars| && vars[k] == p;
      FirstIsMeaning(vars, p.name, k);
    }
  }

  // ----- Setting and removing -------------------------------------------------

  /** uboot_env_setenv: replace the first value, or put a new pair in front. */
  function SetPair(vars: seq<Pair>, name: cstring, value: cstring): seq<Pair> {
    var k := Find(vars, name);
    if k < |vars| then vars[k := Pair(name, value)] else [Pair(name, value)] + vars
  }

  /** uboot_env_unsetenv: drop the first pair with the name. */
  function DropPair(vars: seq<Pair>, name: cstring): seq<Pair> {
    var k := Find(vars, name);
    if k < |vars| then vars[..k] + vars[k + 1..] else vars
  }

  lemma MeaningByFirst(u: seq<Pair>, m: map<cstring, cstring>)
    requires forall n: cstring :: Find(u, n) < |u| <==> n in m
    requires forall n: cstring :: n in m ==> u[Find(u, n)].value == m[n]
    ensures Meaning(u) == m
  {
    forall n: cstring
      ensures n in Meaning(u) <==> n in m
      ensures n in m ==> Meaning(u)[n] == m[n]
    {
      FindIsMeaning(u, n);
    }
  }

  lemma FindIs(u: seq<Pair>, name: cstring, k: nat)
    requires k <= |u| && (k < |u| ==> u[k].name == name)
    requires forall i :: 0 <= i < k ==> u[i].name != name
    ensures Find(u, name) == k
  {
  }

  lemma SetPairMeaning(vars: seq<Pair>, name: cstring, value: cstring)
    ensures Meaning(SetPair(vars, name, value)) == Meaning(vars)[name := value]
    ensures UniqueNames(vars) ==> UniqueNames(SetPair(vars, name, value))
  {
    hide Meaning;
    var k, u := Find(vars, name), SetPair(vars, name, value);
    forall n: cstring
      ensures Find(u, n) < |u| <==> n in Meaning(vars)[name := value]
      ensures n in Meaning(vars)[name := value] ==> u[Find(u, n)].value == Meaning(vars)[name := value][n]
    {
      FindIsMeaning(vars, n);
      if k < |vars| {
        FindIs(u, n, Find(vars, n));
      } else if n == name {
        FindIs(u, n, 0);
      } else {
        FindIs(u, n, Find(vars, n) + 1);
      }
    }
    MeaningByFirst(u, Meaning(vars)[name := value]);
  }

  predicate AtMostOnce(vars: seq<Pair>, name: cstring) {
    forall i, j :: 0 <= i < j < |vars| && vars[i].name == name ==> vars[j].name != name
  }

  lemma DropPairOther(vars: seq<Pair>, name: cstring, n: cstring)
    requires n != name
    ensures n in Meaning(DropPair(vars, name)) <==> n in Meaning(vars)
    ensures n in Meaning(vars) ==> Meaning(DropPair(vars, name))[n] == Meaning(vars)[n]
  {
    hide Meaning;
    var k, f, u := Find(vars, name), Find(vars, n), DropPair(vars, name);
    FindIsMeaning(vars, n);
    FindIsMeaning(u, n);
    FindIs(u, n, if f > k then f - 1 else f);
  }

  lemma DropPairSame(vars: seq<Pair>, name: cstring)
    ensures name !in Meaning(DropPair(vars, name)) <==> AtMostOnce(vars, name)
  {
    hide Meaning;
    var k, u := Find(vars, name), DropPair(vars, name);
    FindIsMeaning(u, name);
    if AtMostOnce(vars, name) {
      FindIs(u, name, |u|);
    } else {
      var i, j :| 0 <= i < j < |vars| && vars[i].name == name && vars[j].name == name;
      assert j > k && u[j - 1].name == name;
    }
  }

  /** Removing a variable removes it exactly when it was there at most once:
      otherwise the pair it hid comes back.  Other variables stay. */
  lemma DropPairMeaning(vars: seq<Pair>, name: cstring)
    ensures name !in Meaning(DropPair(vars, name)) <==> AtMostOnce(vars, name)
    ensures Meaning(DropPair(vars, name)) - {name} == Meaning(vars) - {name}
    ensures UniqueNames(vars) ==> UniqueNames(DropPair(vars, name)) && AtMostOnce(vars, name)
  {
    hide Meaning, DropPair;
    DropPairSame(vars, name);
    forall n: cstring | n != name
      ensures n in Meaning(DropPair(vars, name)) <==> n in Meaning(vars)
      ensures n in Meaning(vars) ==> Meaning(DropPair(vars, name))[n] == Meaning(vars)[n]
    {
      DropPairOther(vars, name, n);
    }
    if UniqueNames(vars) {
      DropPairUnique(vars, name);
    }
  }

  lemma DropPairUnique(vars: seq<Pair>, name: cstring)
    requires UniqueNames(vars)
    ensures UniqueNames(DropPair(vars, name))
  {
  }

  // ----- Sorting --------------------------------------------------------------

  predicate Sorted(ps: seq<Pair>) {
    forall i, j :: 0 <= i < j < |ps| ==> !StrLess(ps[j].name, ps[i].name)
  }

  /** All that qsort promises: the same pairs, ordered by name.  Where equal
      names end up is not specified. */
  ghost predicate IsSortOf(old_: seq<Pair>, new_: seq<Pair>) {
    multiset(new_) == multiset(old_) && Sorted(new_)
  }

  function Insert(sorted: seq<Pair>, p: Pair): seq<Pair> {
    if sorted == [] || StrLess(p.name, sorted[0].name) then [p] + sorted
    else [sorted[0]] + Insert(sorted[1..], p)
  }

  lemma {:induction false} InsertMembers(sorted: seq<Pair>, p: Pair)
    ensures multiset(Insert(sorted, p)) == multiset(sorted) + multiset{p}
  {
    if sorted != [] && !StrLess(p.name, sorted[0].name) {
      InsertMembers(sorted[1..], p);
      assert sorted == [sorted[0]] + sorted[1..];
    }
  }

  lemma {:induction false} InsertSorts(sorted: seq<Pair>, p: Pair)
    requires Sorted(sorted)
    ensures Sorted(Insert(sorted, p))
  {
    hide StrLess;
    var r := Insert(sorted, p);
    if sorted == [] {
    } else if StrLess(p.name, sorted[0].name) {
      forall j | 0 <= j < |sorted|
        ensures !StrLess(sorted[j].name, p.name)
      {
        StrLessTotal(p.name, sorted[0].name);
        if StrLess(sorted[j].name, p.name) {
          StrLessTransitive(sorted[j].name, p.name, sorted[0].name);
        }
      }
    } else {
      InsertSorts(sorted[1..], p);
      InsertMembers(sorted[1..], p);
      forall j | 0 < j < |r|
        ensures !StrLess(r[j].name, sorted[0].name)
      {
        assert r[j] == Insert(sorted[1..], p)[j - 1];
        assert r[j] in multiset(Insert(sorted[1..], p));
        if r[j] != p {
          assert r[j] in sorted[1..];
        }
      }
    }
  }

  /** One way to sort.  With unique names it is the only one. */
  function SortPairs(ps: seq<Pair>): seq<Pair> {
    if ps == [] then [] else Insert(SortPairs(ps[1..]), ps[0])
  }

  lemma {:induction false} SortPairsSorts(ps: seq<Pair>)
    ensures IsSortOf(ps, SortPairs(ps))
  {
    if ps != [] {
      SortPairsSorts(ps[1..]);
      InsertMembers(SortPairs(ps[1..]), ps[0]);
      InsertSorts(SortPairs(ps[1..]), ps[0]);
      assert ps == [ps[0]] + ps[1..];
    }
  }

  lemma SameMembers<T>(a: seq<T>, b: seq<T>)
    requires multiset(a) == multiset(b)
    ensures |a| == |b|
    ensures forall x :: x in a <==> x in b
  {
    assert |multiset(a)| == |a| && |multiset(b)| == |b|;
    assert forall x :: x in a <==> x in multiset(a);
    assert forall x :: x in b <==> x in multiset(b);
  }

  lemma {:induction false} TwoInMultiset<T>(s: seq<T>, x: T)
    ensures multiset(s)[x] >= 2 <==> exists i, j :: 0 <= i < j < |s| && s[i] == x && s[j] == x
  {
    if exists i, j :: 0 <= i < j < |s| && s[i] == x && s[j] == x {
      var i, j :| 0 <= i < j < |s| && s[i] == x && s[j] == x;
      assert s == s[..j] + s[j..];
      assert s[..j][i] == x && s[j..][0] == x;
      assert multiset(s[..j])[x] >= 1 && multiset(s[j..])[x] >= 1;
    }
    if multiset(s)[x] >= 2 {
      assert s == [s[0]] + s[1..];
      if s[0] == x {
        assert x in multiset(s[1..]);
        var j :| 0 <= j < |s[1..]| && s[1..][j] == x;
        assert s[0] == x && s[j + 1] == x;
      } else {
        TwoInMultiset(s[1..], x);
        var i, j :| 0 <= i < j < |s[1..]| && s[1..][i] == x && s[1..][j] == x;
        assert s[i + 1] == x && s[j + 1] == x;
      }
    }
  }

  lemma UniqueCounts(ps: seq<Pair>, p: Pair)
    requires UniqueNames(ps)
    ensures multiset(ps)[p] == if p in ps then 1 else 0
  {
    TwoInMultiset(ps, p);
    assert p in ps <==> p in multiset(ps);
  }

  lemma UniquePermuted(a: seq<Pair>, b: seq<Pair>)
    requires multiset(a) == multiset(b) && UniqueNames(a)
    ensures UniqueNames(b)
  {
    SameMembers(a, b);
    forall i, j | 0 <= i < j < |b|
      ensures b[i].name != b[j].name
    {
      if b[i].name == b[j].name {
        assert b[i] in a && b[j] in a;
        var m :| 0 <= m < |a| && a[m] == b[i];
        var n :| 0 <= n < |a| && a[n] == b[j];
        assert m == n;
        TwoInMultiset(b, b[i]);
        UniqueCounts(a, b[i]);
      }
    }
  }

  lemma LeastIsFirst(a: seq<Pair>, p: Pair)
    requires Sorted(a) && p in a
    ensures p == a[0] || !StrLess(p.name, a[0].name)
  {
    var k :| 0 <= k < |a| && a[k] == p;
  }

  lemma TailPermuted<T>(a: seq<T>, b: seq<T>)
    requires multiset(a) == multiset(b) && a != [] && b != [] && a[0] == b[0]
    ensures multiset(a[1..]) == multiset(b[1..])
  {
    assert a == [a[0]] + a[1..] && b == [b[0]] + b[1..];
    assert multiset(a[1..]) == multiset(a) - multiset{a[0]};
    assert multiset(b[1..]) == multiset(b) - multiset{b[0]};
  }

  /** Unique names leave one way to sort. */
  lemma {:induction false} SortIsUnique(a: seq<Pair>, b: seq<Pair>)
    requires multiset(a) == multiset(b) && UniqueNames(a)
    requires Sorted(a) && Sorted(b)
    ensures a == b
  {
    hide StrLess;
    SameMembers(a, b);
    if a != [] {
      assert a[0] in b && b[0] in a;
      LeastIsFirst(a, b[0]);
      LeastIsFirst(b, a[0]);
      StrLessTotal(a[0].name, b[0].name);
      TailPermuted(a, b);
      SortIsUnique(a[1..], b[1..]);
      assert a == [a[0]] + a[1..] && b == [b[0]] + b[1..];
    }
  }

  lemma MeaningFixesPairs(u: seq<Pair>, v: seq<Pair>)
    requires UniqueNames(u) && UniqueNames(v) && Meaning(u) == Meaning(v)
    ensures multiset(u) == multiset(v)
  {
    hide Meaning, UniqueNames;
    forall p: Pair
      ensures multiset(u)[p] == multiset(v)[p]
    {
      UniqueMeaning(u, p);
      UniqueMeaning(v, p);
      UniqueCounts(u, p);
      UniqueCounts(v, p);
    }
  }

  lemma PermutedMeaning(u: seq<Pair>, v: seq<Pair>)
    requires UniqueNames(u) && multiset(u) == multiset(v)
    ensures UniqueNames(v) && Meaning(u) == Meaning(v)
  {
    UniquePermuted(u, v);
    SameMembers(u, v);
    hide Meaning, UniqueNames;
    forall n: cstring
      ensures n in Meaning(u) <==> n in Meaning(v)
      ensures n in Meaning(u) ==> Meaning(u)[n] == Meaning(v)[n]
    {
      if n in Meaning(u) {
        UniqueMeaning(u, Pair(n, Meaning(u)[n]));
        UniqueMeaning(v, Pair(n, Meaning(u)[n]));
      }
      if n in Meaning(v) {
        UniqueMeaning(v, Pair(n, Meaning(v)[n]));
        UniqueMeaning(u, Pair(n, Meaning(v)[n]));
      }
    }
  }

  lemma {:induction false} EncodeSplit(a: seq<Pair>, b: seq<Pair>)
    ensures Encode(a + b) == Encode(a) + Encode(b)
  {
    if a == [] {
      assert a + b == b;
    } else {
      assert (a + b)[1..] == a[1..] + b;
      EncodeSplit(a[1..], b);
      assert Encode(a + b) == Entry(a[0]) + (Encode(a[1..]) + Encode(b));
    }
  }

  lemma EncodeWithout(b: seq<Pair>, k: nat)
    requires k < |b|
    ensures |Encode(b)| == |Entry(b[k])| + |Encode(b[..k] + b[k + 1..])|
    ensures multiset(b[..k] + b[k + 1..]) == multiset(b) - multiset{b[k]}
  {
    hide Entry;
    assert b == b[..k] + ([b[k]] + b[k + 1..]);
    EncodeSplit(b[..k], [b[k]] + b[k + 1..]);
    EncodeSplit([b[k]], b[k + 1..]);
    EncodeSplit(b[..k], b[k + 1..]);
    assert Encode([b[k]]) == Entry(b[k]) + Encode([]) == Entry(b[k]);
  }

  /** How long the entries are does not depend on their order. */
  lemma {:induction false} EncodePermuted(a: seq<Pair>, b: seq<Pair>)
    requires multiset(a) == multiset(b)
    ensures |Encode(a)| == |Encode(b)|
    decreases |a|
  {
    hide Entry;
    SameMembers(a, b);
    if a != [] {
      assert a[0] in b;
      var k :| 0 <= k < |b| && b[k] == a[0];
      EncodeWithout(b, k);
      assert multiset(a[1..]) == multiset(a) - multiset{a[0]} by {
        assert a == [a[0]] + a[1..];
      }
      EncodePermuted(a[1..], b[..k] + b[k + 1..]);
    }
  }

  // ----- The block as a map ---------------------------------------------------

  lemma GoodNamesPermuted(a: seq<Pair>, b: seq<Pair>)
    requires multiset(a) == multiset(b) && GoodNames(a)
    ensures GoodNames(b)
  {
    hide GoodName;
    SameMembers(a, b);
    forall i | 0 <= i < |b|
      ensures GoodName(b[i].name)
    {
      assert b[i] in a;
    }
  }

  /** Saving a map and loading it gives the map back, as the reverse of the
      sorted list, whatever order the variables were set in. */
  lemma SaveThenLoad(vars: seq<Pair>, sorted: seq<Pair>, size: nat)
    requires UniqueNames(vars) && GoodNames(vars) && IsSortOf(vars, sorted)
    requires HasRoom(sorted, size)
    ensures ReadBlock(Block(sorted, size)) == Parsed(true, Reverse(sorted))
    ensures UniqueNames(Reverse(sorted)) && Meaning(Reverse(sorted)) == Meaning(vars)
  {
    hide Meaning, ReadBlock, Block;
    GoodNamesPermuted(vars, sorted);
    RoundTrip(sorted, size);
    ReverseMultiset(sorted);
    PermutedMeaning(vars, Reverse(sorted));
  }

  /** Exactly: what is read back is the map that was written if and only if its names
      are good. */
  lemma MapSurvives(vars: seq<Pair>, sorted: seq<Pair>, size: nat)
    requires UniqueNames(vars) && IsSortOf(vars, sorted) && HasRoom(sorted, size)
    ensures Meaning(ReadBlock(Block(sorted, size)).vars) == Meaning(vars) <==> GoodNames(vars)
  {
    hide Meaning, Block, Parse;
    var block := Block(sorted, size);
    var read := ReadBlock(block).vars;
    if GoodNames(vars) {
      SaveThenLoad(vars, sorted, size);
    } else if Meaning(read) == Meaning(vars) {
      ReadNamesAreGood(block[4..]);
      forall i | 0 <= i < |vars|
        ensures GoodName(vars[i].name)
      {
        var name := vars[i].name;
        UniqueMeaning(vars, vars[i]);
        FindIsMeaning(read, name);
        assert read[Find(read, name)].name == name;
      }
    }
  }

  /** For one: the variable `a=b` comes back as the variable `a`. */
  lemma BadNameIsLost(size: nat)
    requires size >= 12
    ensures ReadBlock(Block([Pair("a=b", "c")], size)) == Parsed(true, [Pair("a", "b=c")])
  {
    var bad, good := [Pair("a=b", "c")], [Pair("a", "b=c")];
    assert bad[1..] == [] && good[1..] == [];
    assert Entry(bad[0]) == Entry(good[0]) == ['a', '=', 'b', '=', 'c', NUL];
    assert Encode(bad) == Entry(bad[0]) + [] && Encode(good) == Entry(good[0]) + [];
    assert Reverse(good) == good by {
      assert Reverse(good) == Reverse(good[1..]) + [good[0]];
    }
    assert GoodNames(good);
    assert Payload(bad, size) == Payload(good, size);
    hide ReadBlock, Encode, Payload, GoodNames;
    RoundTrip(good, size);
  }

  /** Equal maps make equal blocks, and, with good names, only equal maps do. */
  lemma BlockIsCanonical(u: seq<Pair>, v: seq<Pair>, su: seq<Pair>, sv: seq<Pair>, size: nat)
    requires UniqueNames(u) && UniqueNames(v)
    requires IsSortOf(u, su) && IsSortOf(v, sv)
    requires HasRoom(su, size) && HasRoom(sv, size)
    ensures Meaning(u) == Meaning(v) ==> Block(su, size) == Block(sv, size)
    ensures GoodNames(u) && GoodNames(v) && Block(su, size) == Block(sv, size) ==> Meaning(u) == Meaning(v)
  {
    hide Meaning, Block;
    if Meaning(u) == Meaning(v) {
      MeaningFixesPairs(u, v);
      UniquePermuted(u, su);
      SortIsUnique(su, sv);
    }
    if GoodNames(u) && GoodNames(v) && Block(su, size) == Block(sv, size) {
      SaveThenLoad(u, su, size);
      SaveThenLoad(v, sv, size);
    }
  }

  /** Saving what was loaded writes the same block again. */
  lemma SaveIsStable(vars: seq<Pair>, first: seq<Pair>, second: seq<Pair>, size: nat)
    requires UniqueNames(vars) && GoodNames(vars) && IsSortOf(vars, first) && HasRoom(first, size)
    requires IsSortOf(ReadBlock(Block(first, size)).vars, second)
    ensures second == first
  {
    hide Meaning, ReadBlock, Block;
    SaveThenLoad(vars, first, size);
    ReverseMultiset(first);
    UniquePermuted(vars, first);
    SortIsUnique(first, second);
  }

  /** A name that a block gives twice reads as its last value. */
  lemma LastOccurrenceWins(s: seq<byte>, ps: seq<Pair>, rest: seq<byte>, k: nat)
    requires Holds(s, ps, rest) && k < |ps|
    requires forall j :: k < j < |ps| ==> ps[j].name != ps[k].name
    ensures ps[k].name in Meaning(Parse(s, []).vars)
    ensures Meaning(Parse(s, []).vars)[ps[k].name] == ps[k].value
  {
    hide Meaning, Parse;
    ReaderAcceptsFormat(s);
    var vars := Reverse(ps);
    forall i | 0 <= i < |ps|
      ensures vars[i] == ps[|ps| - 1 - i]
    {
      ReverseAt(ps, i);
    }
    FirstIsMeaning(vars, ps[k].name, |ps| - 1 - k);
  }
}
