/** The U-Boot environment block of src/uboot_env.c as a format: what a block is,
    what the reader makes of any block, and what a list of variables means. */
module EnvBlock {
  import opened CString
  import opened Crc32
  import Crc32Burst

  /** struct uboot_name_value, without its link. */
  datatype Pair = Pair(name: cstring, value: cstring)

  // ----- The format -----------------------------------------------------------

  const EQUALS: byte := '='
  const BLANK: byte := '\U{ff}'

  function Entry(p: Pair): (r: seq<byte>)
    ensures |r| == |p.name| + |p.value| + 2
  {
    p.name + [EQUALS] + p.value + [NUL]
  }

  function Encode(ps: seq<Pair>): seq<byte> {
    if ps == [] then [] else Entry(ps[0]) + Encode(ps[1..])
  }

  /** The reader looks for '=' from the second octet on. */
  predicate GoodName(name: cstring) {
    name != [] && forall i :: 1 <= i < |name| ==> name[i] != EQUALS
  }

  predicate GoodNames(ps: seq<Pair>) {
    forall i :: 0 <= i < |ps| ==> GoodName(ps[i].name)
  }

  /** The entries are over at a NUL, or at the end of the block. */
  predicate Ended(rest: seq<byte>) {
    rest == [] || rest[0] == NUL
  }

  /** A payload in the format: entries with good names, then their end. */
  ghost predicate Holds(s: seq<byte>, ps: seq<Pair>, rest: seq<byte>) {
    s == Encode(ps) + rest && GoodNames(ps) && Ended(rest)
  }

  // ----- The reader -----------------------------------------------------------

  /** The first '=' from `i` on, if it comes before a NUL and before the end. */
  function EqualsFrom(s: seq<byte>, i: nat): (r: Option<nat>)
    requires i <= |s|
    ensures r.Some? ==> i <= r.value < |s| && s[r.value] == EQUALS
    ensures r.Some? ==> forall j :: i <= j < r.value ==> s[j] != NUL && s[j] != EQUALS
    decreases |s| - i
  {
    if i == |s| || s[i] == NUL then None
    else if s[i] == EQUALS then Some(i)
    else EqualsFrom(s, i + 1)
  }

  /** The first NUL from `i` on. */
  function NulFrom(s: seq<byte>, i: nat): (r: Option<nat>)
    requires i <= |s|
    ensures r.Some? ==> i <= r.value < |s| && s[r.value] == NUL
    ensures r.Some? ==> forall j :: i <= j < r.value ==> s[j] != NUL
    decreases |s| - i
  {
    if i == |s| then None
    else if s[i] == NUL then Some(i)
    else NulFrom(s, i + 1)
  }

  /** The outcome of a read and the list it leaves, newest pair first. */
  datatype Parsed = Parsed(ok: bool, vars: seq<Pair>)

  function Parse(s: seq<byte>, vars: seq<Pair>): Parsed
    decreases |s|
  {
    if s == [] || s[0] == NUL then Parsed(true, vars)
    else
      match EqualsFrom(s, 1)
      case None => Parsed(false, vars)
      case Some(e) =>
        match NulFrom(s, e + 1)
        case None => Parsed(false, vars)
        case Some(z) => Parse(s[z + 1..], [Pair(s[..e], s[e + 1..z])] + vars)
  }

  predicate Sealed(block: seq<byte>)
    requires |block| >= 4
  {
    LoadWord(block[..4]) == Crc(block[4..])
  }

  /** uboot_env_read on a whole block. */
  function ReadBlock(block: seq<byte>): Parsed
    requires |block| >= 4
  {
    if Sealed(block) then Parse(block[4..], []) else Parsed(false, [])
  }

  lemma {:induction false} EqualsIsAt(s: seq<byte>, i: nat, k: nat)
    requires i <= k < |s| && s[k] == EQUALS
    requires forall j :: i <= j < k ==> s[j] != NUL && s[j] != EQUALS
    ensures EqualsFrom(s, i) == Some(k)
    decreases k - i
  {
    if i < k {
      EqualsIsAt(s, i + 1, k);
    }
  }

  lemma {:induction false} NulIsAt(s: seq<byte>, i: nat, k: nat)
    requires i <= k < |s| && s[k] == NUL
    requires forall j :: i <= j < k ==> s[j] != NUL
    ensures NulFrom(s, i) == Some(k)
    decreases k - i
  {
    if i < k {
      NulIsAt(s, i + 1, k);
    }
  }

  lemma EntryIsFound(p: Pair, tail: seq<byte>)
    requires GoodName(p.name)
    ensures var s := Entry(p) + tail;
            !Ended(s) && EqualsFrom(s, 1) == Some(|p.name|)
            && NulFrom(s, |p.name| + 1) == Some(|p.name| + 1 + |p.value|)
  {
    var s, e := Entry(p) + tail, |p.name|;
    var z := e + 1 + |p.value|;
    assert s[e] == EQUALS && s[z] == NUL;
    assert forall j :: 0 <= j < e ==> s[j] == p.name[j];
    assert forall j :: e + 1 <= j < z ==> s[j] == p.value[j - (e + 1)];
    EqualsIsAt(s, 1, e);
    NulIsAt(s, e + 1, z);
  }

  lemma EntryParts(p: Pair, tail: seq<byte>)
    ensures var s, e, z := Entry(p) + tail, |p.name|, |p.name| + 1 + |p.value|;
            z < |s| && s[..e] == p.name && s[e + 1..z] == p.value && s[z + 1..] == tail
  {
  }

  lemma ParseEntry(p: Pair, tail: seq<byte>, vars: seq<Pair>)
    requires GoodName(p.name)
    ensures Parse(Entry(p) + tail, vars) == Parse(tail, [p] + vars)
  {
    hide *;
    EntryParts(p, tail);
    EntryIsFound(p, tail);
    ParseTakes(Entry(p) + tail, vars, |p.name|, |p.name| + 1 + |p.value|);
  }

  lemma EncodeFirst(ps: seq<Pair>, rest: seq<byte>)
    requires ps != []
    ensures Encode(ps) + rest == Entry(ps[0]) + (Encode(ps[1..]) + rest)
  {
    hide Entry;
  }

  lemma ReverseFirst(ps: seq<Pair>, vars: seq<Pair>)
    requires ps != []
    ensures Reverse(ps) + vars == Reverse(ps[1..]) + ([ps[0]] + vars)
  {
  }

  /** Everything in the format is read, into the list in reverse. */
  lemma {:induction false} ParseComplete(ps: seq<Pair>, rest: seq<byte>, vars: seq<Pair>)
    requires GoodNames(ps) && Ended(rest)
    ensures Parse(Encode(ps) + rest, vars) == Parsed(true, Reverse(ps) + vars)
    decreases |ps|
  {
    if ps == [] {
      assert Encode(ps) + rest == rest && Reverse(ps) + vars == vars;
    } else {
      hide Parse, Entry, Encode, Reverse, GoodName;
      EncodeFirst(ps, rest);
      ReverseFirst(ps, vars);
      ParseEntry(ps[0], Encode(ps[1..]) + rest, vars);
      ParseComplete(ps[1..], rest, [ps[0]] + vars);
    }
  }

  /** Neither the end nor the beginning of an entry. */
  ghost predicate Malformed(rest: seq<byte>) {
    !Ended(rest) && forall p: Pair, tail :: GoodName(p.name) ==> rest != Entry(p) + tail
  }

  lemma StuckIsMalformed(s: seq<byte>)
    requires !Ended(s)
    requires EqualsFrom(s, 1).None? || NulFrom(s, EqualsFrom(s, 1).value + 1).None?
    ensures Malformed(s)
  {
    hide Entry, EqualsFrom, NulFrom;
    forall p: Pair, tail | GoodName(p.name)
      ensures s != Entry(p) + tail
    {
      if s == Entry(p) + tail {
        EntryIsFound(p, tail);
      }
    }
  }

  lemma ParseEnd(s: seq<byte>, vars: seq<Pair>)
    requires Ended(s)
    ensures Parse(s, vars) == Parsed(true, vars)
  {
  }

  lemma ParseStuck(s: seq<byte>, vars: seq<Pair>)
    requires !Ended(s)
    requires EqualsFrom(s, 1).None? || NulFrom(s, EqualsFrom(s, 1).value + 1).None?
    ensures Parse(s, vars) == Parsed(false, vars)
  {
    hide EqualsFrom, NulFrom;
  }

  lemma PartsAreText(s: seq<byte>, e: nat, z: nat)
    requires !Ended(s) && EqualsFrom(s, 1) == Some(e) && NulFrom(s, e + 1) == Some(z)
    ensures e < z < |s| && NUL !in s[..e] && NUL !in s[e + 1..z] && GoodName(s[..e])
  {
    hide EqualsFrom, NulFrom;
  }

  lemma ParseTakes(s: seq<byte>, vars: seq<Pair>, e: nat, z: nat)
    requires !Ended(s) && EqualsFrom(s, 1) == Some(e) && NulFrom(s, e + 1) == Some(z)
    ensures NUL !in s[..e] && NUL !in s[e + 1..z] && GoodName(s[..e])
    ensures Parse(s, vars) == Parse(s[z + 1..], [Pair(s[..e], s[e + 1..z])] + vars)
  {
    PartsAreText(s, e, z);
    hide EqualsFrom, NulFrom, GoodName;
    var name: cstring, value: cstring := s[..e], s[e + 1..z];
    assert Parse(s, vars) == Parse(s[z + 1..], [Pair(name, value)] + vars);
  }

  lemma EntryInFront(s: seq<byte>, p: Pair, e: nat, z: nat)
    requires 0 < e < z < |s| && s[e] == EQUALS && s[z] == NUL
    requires p.name == s[..e] && p.value == s[e + 1..z]
    ensures s == Entry(p) + s[z + 1..]
  {
    assert s == s[..e] + [s[e]] + s[e + 1..z] + [s[z]] + s[z + 1..];
  }

  /** Whatever the block, the reader takes entries off its front, as many as
      there are, and its verdict is about what is left. */
  lemma {:induction false} ParseSound(s: seq<byte>, vars: seq<Pair>) returns (ps: seq<Pair>, rest: seq<byte>)
    ensures s == Encode(ps) + rest && GoodNames(ps)
    ensures Parse(s, vars).vars == Reverse(ps) + vars
    ensures if Parse(s, vars).ok then Ended(rest) else Malformed(rest)
    decreases |s|
  {
    hide Parse, Entry, Malformed, EqualsFrom, NulFrom, GoodName;
    var e := if Ended(s) then None else EqualsFrom(s, 1);
    var z := if e.None? then None else NulFrom(s, e.value + 1);
    if z.None? {
      ps, rest := [], s;
      assert Encode(ps) + rest == s && Reverse(ps) + vars == vars;
      if Ended(s) {
        ParseEnd(s, vars);
      } else {
        ParseStuck(s, vars);
        StuckIsMalformed(s);
      }
    } else {
      ParseTakes(s, vars, e.value, z.value);
      var p := Pair(s[..e.value], s[e.value + 1..z.value]);
      EntryInFront(s, p, e.value, z.value);
      var more;
      more, rest := ParseSound(s[z.value + 1..], [p] + vars);
      ps := [p] + more;
      assert ps[1..] == more && ps[0] == p;
      hide Encode, Reverse;
      EncodeFirst(ps, rest);
      ReverseFirst(ps, vars);
    }
  }

  /** A read succeeds exactly on the format, and then there is one way to see
      the payload: the list read is the entries in reverse. */
  lemma ReaderAcceptsFormat(s: seq<byte>)
    ensures Parse(s, []).ok <==> exists ps, rest :: Holds(s, ps, rest)
    ensures forall ps, rest :: Holds(s, ps, rest) ==> Parse(s, []).vars == Reverse(ps)
  {
    var ps, rest := ParseSound(s, []);
    if Parse(s, []).ok {
      assert Holds(s, ps, rest);
    }
    forall ps, rest | Holds(s, ps, rest)
      ensures Parse(s, []) == Parsed(true, Reverse(ps))
    {
      ParseComplete(ps, rest, []);
      assert Reverse(ps) + [] == Reverse(ps);
    }
  }

  // ----- The writer -----------------------------------------------------------

  /** Room for the entries, one more NUL, and the octet the writer keeps free. */
  predicate HasRoom(ps: seq<Pair>, size: nat) {
    4 + |Encode(ps)| + 2 <= size
  }

  function Payload(ps: seq<Pair>, size: nat): (r: seq<byte>)
    requires HasRoom(ps, size)
    ensures |r| == size - 4
  {
    Encode(ps) + [NUL] + seq(size - 5 - |Encode(ps)|, i => BLANK)
  }

  function Block(ps: seq<Pair>, size: nat): (r: seq<byte>)
    requires HasRoom(ps, size)
    ensures |r| == size
  {
    StoreWord(Crc(Payload(ps, size))) + Payload(ps, size)
  }

  lemma BlockIsSealed(ps: seq<Pair>, size: nat)
    requires HasRoom(ps, size)
    ensures Sealed(Block(ps, size)) && Block(ps, size)[4..] == Payload(ps, size)
  {
    hide Crc, LoadWord, StoreWord;
    var block := Block(ps, size);
    assert block[..4] == StoreWord(Crc(Payload(ps, size))) && block[4..] == Payload(ps, size);
    LoadStored(Crc(Payload(ps, size)));
  }

  /** In octets: the CRC of the payload stands in front of it, its lowest octet first. */
  lemma SealedLowFirst(block: seq<byte>)
    requires |block| >= 4
    ensures Sealed(block) <==> LowFirst(block[..4], Crc(block[4..]))
  {
    hide Crc, LoadWord, LowFirst;
    LoadedLowFirst(block[..4], Crc(block[4..]));
  }

  /** For one: the variable a with the value b, in a block of 12 octets. */
  lemma SmallBlock()
    ensures var p := ['a', '=', 'b', '\0', '\0', '\U{ff}', '\U{ff}', '\U{ff}'];
            var block := Block([Pair("a", "b")], 12);
            block[4..] == p && LowFirst(block[..4], Crc(p))
  {
    var ps := [Pair("a", "b")];
    assert ps[1..] == [] && Entry(ps[0]) == ['a', '=', 'b', '\0'];
    assert Encode(ps) == Entry(ps[0]) + [] == Entry(ps[0]);
    assert Payload(ps, 12) == ['a', '=', 'b', '\0', '\0', '\U{ff}', '\U{ff}', '\U{ff}'];
    hide Crc, StoreWord, LowFirst, Payload, Encode;
    BlockIsSealed(ps, 12);
    SealedLowFirst(Block(ps, 12));
  }

  lemma ReadNamesAreGood(s: seq<byte>)
    ensures GoodNames(Parse(s, []).vars)
  {
    var ps, rest := ParseSound(s, []);
    forall i | 0 <= i < |ps|
      ensures GoodName(Reverse(ps)[i].name)
    {
      ReverseAt(ps, i);
    }
    assert Reverse(ps) + [] == Reverse(ps);
  }

  /** What was written is read back, in reverse, exactly when the names are good. */
  lemma RoundTrip(ps: seq<Pair>, size: nat)
    requires HasRoom(ps, size)
    ensures ReadBlock(Block(ps, size)) == Parsed(true, Reverse(ps)) <==> GoodNames(ps)
  {
    hide Crc, LoadWord, StoreWord, Block, Sealed;
    BlockIsSealed(ps, size);
    var rest := [NUL] + seq(size - 5 - |Encode(ps)|, i => BLANK);
    assert Payload(ps, size) == Encode(ps) + rest;
    if GoodNames(ps) {
      ParseComplete(ps, rest, []);
      assert Reverse(ps) + [] == Reverse(ps);
    }
    if ReadBlock(Block(ps, size)) == Parsed(true, Reverse(ps)) {
      ReadNamesAreGood(Payload(ps, size));
      forall i | 0 <= i < |ps|
        ensures GoodName(ps[i].name)
      {
        ReverseAt(ps, |ps| - 1 - i);
      }
    }
  }

  /** The reader rejects any payload changed within 32 consecutive bits. */
  lemma BurstRejected(good: seq<byte>, bad: seq<byte>, from: nat)
    requires |good| == |bad| >= 4 && good[..4] == bad[..4]
    requires Sealed(good)
    requires Crc32Burst.Burst(MessageBits(good[4..]), MessageBits(bad[4..]), from)
    ensures ReadBlock(bad) == Parsed(false, [])
  {
    hide Crc, LoadWord, Crc32Burst.Burst;
    Crc32Burst.BurstDetected(good[4..], bad[4..], from);
  }

  /** In octets: any change of at most four consecutive ones. */
  lemma OctetsRejected(good: seq<byte>, bad: seq<byte>, from: nat)
    requires |good| == |bad| && good != bad && 4 <= from
    requires |good| >= 4 && Sealed(good)
    requires forall i :: 0 <= i < |good| && good[i] != bad[i] ==> from <= i < from + 4
    ensures ReadBlock(bad) == Parsed(false, [])
  {
    hide Crc, LoadWord, Crc32Burst.Burst, Sealed, ReadBlock;
    assert good[..4] == bad[..4];
    assert good == good[..4] + good[4..] && bad == bad[..4] + bad[4..];
    Crc32Burst.OctetBurst(good[4..], bad[4..], from - 4);
    BurstRejected(good, bad, 8 * (from - 4));
  }
}
