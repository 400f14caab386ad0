/** C strings: sequences of octets without a NUL, ordered as strcmp orders them. */
module CString {
  /** An unsigned char. */
  type byte = c: char | c < '\U{0100}'

  /** What a NUL-terminated buffer holds in front of its NUL. */
  type cstring = s: seq<byte> | '\0' !in s

  const NUL: byte := '\0'

  datatype Option<+T> = None | Some(value: T)

  /** strcmp(a, b) < 0: octets compare unsigned, and the NUL is below them all. */
  predicate StrLess(a: cstring, b: cstring)
    decreases |a|
  {
    b != [] && (a == [] || a[0] < b[0] || (a[0] == b[0] && StrLess(a[1..], b[1..])))
  }

  lemma {:induction false} StrLessTotal(a: cstring, b: cstring)
    ensures StrLess(a, b) || StrLess(b, a) || a == b
    ensures !(StrLess(a, b) && StrLess(b, a))
    ensures a == b ==> !StrLess(a, b)
    decreases |a|
  {
    if a != [] && b != [] && a[0] == b[0] {
      StrLessTotal(a[1..], b[1..]);
      assert a == [a[0]] + a[1..] && b == [b[0]] + b[1..];
    }
  }

  lemma {:induction false} StrLessTransitive(a: cstring, b: cstring, c: cstring)
    requires StrLess(a, b) && StrLess(b, c)
    ensures StrLess(a, c)
    decreases |a|
  {
    if a != [] && a[0] == b[0] == c[0] {
      StrLessTransitive(a[1..], b[1..], c[1..]);
    }
  }

  /** The order is that of the first place where two texts differ; a text comes after
      what it begins with. */
  lemma {:induction false} StrLessIs(a: cstring, b: cstring)
    ensures StrLess(a, b)
            <==> exists k :: 0 <= k <= |a| && k < |b| && a[..k] == b[..k] && (k == |a| || a[k] < b[k])
    decreases |a|
  {
    forall k | 0 < k <= |a| && k < |b| && a[..k] == b[..k]
      ensures a[0] == b[0]
    {
      assert a[0] == a[..k][0] && b[0] == b[..k][0];
    }
    if a != [] && b != [] && a[0] == b[0] {
      StrLessIs(a[1..], b[1..]);
      if StrLess(a, b) {
        var k :| 0 <= k <= |a| - 1 && k < |b| - 1 && a[1..][..k] == b[1..][..k]
                 && (k == |a| - 1 || a[1..][k] < b[1..][k]);
        assert a[..k + 1] == [a[0]] + a[1..][..k] && b[..k + 1] == [b[0]] + b[1..][..k];
      }
      forall k | 0 <= k <= |a| && k < |b| && a[..k] == b[..k] && (k == |a| || a[k] < b[k])
        ensures StrLess(a[1..], b[1..])
      {
        assert a[1..][..k - 1] == a[..k][1..] && b[1..][..k - 1] == b[..k][1..];
      }
    } else if StrLess(a, b) {
      assert a[..0] == b[..0];
    }
  }

  function Lower(c: char): char {
    if 'A' <= c <= 'Z' then (c as int + 32) as char else c
  }

  /** strcasecmp(a, b) == 0 */
  predicate EqualIgnoringCase(a: seq<char>, b: seq<char>) {
    |a| == |b| && forall i :: 0 <= i < |a| ==> Lower(a[i]) == Lower(b[i])
  }

  function Reverse<T>(s: seq<T>): (r: seq<T>)
    ensures |r| == |s|
  {
    if s == [] then [] else Reverse(s[1..]) + [s[0]]
  }

  lemma {:induction false} ReverseAt<T>(s: seq<T>, i: nat)
    requires i < |s|
    ensures Reverse(s)[i] == s[|s| - 1 - i]
  {
    if i < |s| - 1 {
      ReverseAt(s[1..], i);
    }
  }

  lemma {:induction false} ReverseMultiset<T>(s: seq<T>)
    ensures multiset(Reverse(s)) == multiset(s)
  {
    if s != [] {
      ReverseMultiset(s[1..]);
      assert s == [s[0]] + s[1..];
    }
  }

  lemma {:induction false} ReverseAppend<T>(s: seq<T>, x: T)
    ensures Reverse(s + [x]) == [x] + Reverse(s)
  {
    var r := s + [x];
    if s == [] {
      assert r == [x] && r[1..] == [];
      assert Reverse(r) == Reverse(r[1..]) + [r[0]];
    } else {
      assert r[1..] == s[1..] + [x];
      ReverseAppend(s[1..], x);
      assert Reverse(r) == ([x] + Reverse(s[1..])) + [s[0]];
    }
  }

  lemma SliceOfSlice<T>(s: seq<T>, a: nat, b: nat, x: nat, y: nat)
    requires a <= b <= |s| && x <= y <= b - a
    ensures s[a..b][x..y] == s[a + x..a + y]
  {
    var inner, slice := s[a..b][x..y], s[a + x..a + y];
    forall i | 0 <= i < y - x
      ensures inner[i] == slice[i]
    {
      assert inner[i] == s[a..b][x + i] == s[a + (x + i)];
    }
  }

  lemma SliceOfRest<T>(s: seq<T>, a: nat, x: nat, y: nat)
    requires a <= |s| && x <= y <= |s| - a
    ensures s[a..][x..y] == s[a + x..a + y]
  {
    var rest, slice := s[a..][x..y], s[a + x..a + y];
    forall i | 0 <= i < y - x
      ensures rest[i] == slice[i]
    {
      assert rest[i] == s[a..][x + i] == s[a + (x + i)];
    }
  }
}
