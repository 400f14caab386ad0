/** struct uboot_env of src/uboot_env.c and the functions that work on it. */
module UbootEnv {
  import opened CString
  import opened Crc32
  import opened EnvBlock
  import opened EnvMap

  // ----- Sorting by name ------------------------------------------------------

  /** Stands for qsort: callers may use no more than its contract. */
  method Qsort(pairs: seq<Pair>) returns (sorted: seq<Pair>)
    ensures IsSortOf(pairs, sorted)
  {
    sorted := [];
    for i := 0 to |pairs|
      invariant multiset(sorted) == multiset(pairs[..i])
      invariant Sorted(sorted)
    {
      InsertMembers(sorted, pairs[i]);
      InsertSorts(sorted, pairs[i]);
      assert pairs[..i + 1] == pairs[..i] + [pairs[i]];
      sorted := Insert(sorted, pairs[i]);
    }
    assert pairs[..|pairs|] == pairs;
  }

  // ----- The buffer while it is filled ----------------------------------------

  /** A block with entries and without its last NUL and its CRC. */
  function Unsealed(ps: seq<Pair>, size: nat): (r: seq<byte>)
    requires 4 + |Encode(ps)| <= size
    ensures |r| == size
  {
    seq(4, i => BLANK) + Encode(ps) + seq(size - 4 - |Encode(ps)|, i => BLANK)
  }

  /** A buffer with some octets overwritten. */
  function Splice(b: seq<byte>, p: nat, s: seq<byte>): (r: seq<byte>)
    requires p + |s| <= |b|
    ensures |r| == |b|
  {
    b[..p] + s + b[p + |s|..]
  }

  lemma SpliceTwice(b: seq<byte>, p: nat, s: seq<byte>, t: seq<byte>)
    requires p + |s| + |t| <= |b|
    ensures Splice(Splice(b, p, s), p + |s|, t) == Splice(b, p, s + t)
  {
  }

  /** memcpy into a buffer. */
  method Copy(buffer: array<byte>, p: nat, s: seq<byte>)
    requires p + |s| <= buffer.Length
    modifies buffer
    ensures buffer[..] == Splice(old(buffer[..]), p, s)
  {
    for i := 0 to |s|
      invariant buffer[..p] == old(buffer[..p])
      invariant buffer[p..p + i] == s[..i]
      invariant buffer[p + i..] == old(buffer[p + i..])
    {
      buffer[p + i] := s[i];
      assert buffer[p..p + i + 1] == buffer[p..p + i] + [s[i]];
    }
    assert buffer[..] == buffer[..p] + buffer[p..p + |s|] + buffer[p + |s|..];
  }

  // ----- Steps of the reader --------------------------------------------------

  lemma EqualsStep(s: seq<byte>, i: nat)
    requires i <= |s|
    ensures EqualsFrom(s, i) ==
            if i == |s| || s[i] == NUL then None
            else if s[i] == EQUALS then Some(i) else EqualsFrom(s, i + 1)
  {
  }

  lemma NulStep(s: seq<byte>, i: nat)
    requires i <= |s|
    ensures NulFrom(s, i) == if i == |s| then None else if s[i] == NUL then Some(i) else NulFrom(s, i + 1)
  {
  }

  lemma BufferTakes(buffer: array<byte>, name: nat, vars: seq<Pair>, e: nat, z: nat)
    requires name < e < z < buffer.Length && !Ended(buffer[name..])
    requires EqualsFrom(buffer[name..], 1) == Some(e - name)
    requires NulFrom(buffer[name..], e - name + 1) == Some(z - name)
    ensures NUL !in buffer[name..e] && NUL !in buffer[e + 1..z]
    ensures Parse(buffer[name..], vars)
         == Parse(buffer[z + 1..], [Pair(buffer[name..e], buffer[e + 1..z])] + vars)
  {
    hide Parse, EqualsFrom, NulFrom, Ended;
    var s, b := buffer[name..], buffer[..];
    assert s == b[name..];
    ParseTakes(s, vars, e - name, z - name);
    SliceOfRest(b, name, 0, e - name);
    SliceOfRest(b, name, e - name + 1, z - name);
    SliceOfRest(b, name, z - name + 1, |s|);
    assert s[..e - name] == s[0..e - name] && s[z - name + 1..] == s[z - name + 1..|s|];
    assert b[name..e] == buffer[name..e] && b[e + 1..z] == buffer[e + 1..z] && b[z + 1..|b|] == buffer[z + 1..];
  }

  /** The two inner loops of the reader, on the entry that starts at `name`. */
  method ScanEntry(buffer: array<byte>, name: nat) returns (found: bool, endname: nat, endvalue: nat)
    requires name < buffer.Length && buffer[name] != NUL
    ensures var s := buffer[name..];
            if found
            then name < endname < endvalue < buffer.Length
                 && EqualsFrom(s, 1) == Some(endname - name)
                 && NulFrom(s, endname - name + 1) == Some(endvalue - name)
            else EqualsFrom(s, 1).None? || NulFrom(s, EqualsFrom(s, 1).value + 1).None?
  {
    hide EqualsFrom, NulFrom;
    ghost var s := buffer[name..];
    var end := buffer.Length;
    endname, endvalue := name + 1, end;
    while true
      invariant name < endname <= end
      invariant EqualsFrom(s, endname - name) == EqualsFrom(s, 1)
      decreases end - endname
    {
      EqualsStep(s, endname - name);
      if endname == end || buffer[endname] == NUL {
        return false, endname, endvalue;
      }
      if buffer[endname] == EQUALS {
        break;
      }
      endname := endname + 1;
    }
    ghost var value := endname + 1;
    endvalue := endname + 1;
    while true
      invariant value <= endvalue <= end
      invariant NulFrom(s, endvalue - name) == NulFrom(s, value - name)
      decreases end - endvalue
    {
      NulStep(s, endvalue - name);
      if endvalue == end {
        return false, endname, endvalue;
      }
      if buffer[endvalue] == NUL {
        break;
      }
      endvalue := endvalue + 1;
    }
    return true, endname, endvalue;
  }

  // ----- Steps of the writer --------------------------------------------------

  /** The list grows by one entry, and so does its encoding. */
  lemma EncodePrefix(ps: seq<Pair>, i: nat)
    requires i < |ps|
    ensures Encode(ps[..i + 1]) == Encode(ps[..i]) + Entry(ps[i])
    ensures |Encode(ps[..i + 1])| <= |Encode(ps)|
  {
    hide Entry;
    assert ps[..i + 1] == ps[..i] + [ps[i]];
    EncodeSplit(ps[..i], [ps[i]]);
    assert Encode([ps[i]]) == Entry(ps[i]) + Encode([]) == Entry(ps[i]);
    assert ps == ps[..i + 1] + ps[i + 1..];
    EncodeSplit(ps[..i + 1], ps[i + 1..]);
  }

  /** memcpy, '=', memcpy, NUL. */
  method WriteEntry(buffer: array<byte>, start: nat, pair: Pair)
    requires start + |Entry(pair)| <= buffer.Length
    modifies buffer
    ensures buffer[..] == Splice(old(buffer[..]), start, Entry(pair))
  {
    hide Splice;
    ghost var b, name := buffer[..], pair.name + [EQUALS];
    var p := start;
    Copy(buffer, p, pair.name);
    p := p + |pair.name|;
    Copy(buffer, p, [EQUALS]);
    SpliceTwice(b, start, pair.name, [EQUALS]);
    p := p + 1;
    Copy(buffer, p, pair.value);
    SpliceTwice(b, start, name, pair.value);
    p := p + |pair.value|;
    Copy(buffer, p, [NUL]);
    SpliceTwice(b, start, name + pair.value, [NUL]);
  }

  lemma BlankIsUnsealed(b: seq<byte>)
    requires |b| >= 4 && forall i :: 0 <= i < |b| ==> b[i] == BLANK
    ensures b == Unsealed([], |b|)
  {
  }

  lemma UnsealedGrows(ps: seq<Pair>, i: nat, size: nat, b: seq<byte>)
    requires i < |ps| && 4 + |Encode(ps[..i + 1])| <= size
    requires Encode(ps[..i + 1]) == Encode(ps[..i]) + Entry(ps[i])
    requires b == Splice(Unsealed(ps[..i], size), 4 + |Encode(ps[..i])|, Entry(ps[i]))
    ensures b == Unsealed(ps[..i + 1], size)
  {
    hide Entry, Encode;
  }

  lemma BlockIsWritten(ps: seq<Pair>, size: nat, b: seq<byte>)
    requires HasRoom(ps, size) && |b| == size && b[4..] == Payload(ps, size)
    ensures Splice(b, 0, StoreWord(Crc(b[4..]))) == Block(ps, size)
  {
    hide StoreWord, Crc, Payload;
  }

  lemma BlockIsLowFirst(ps: seq<Pair>, size: nat, b: seq<byte>)
    requires HasRoom(ps, size) && b == Block(ps, size)
    ensures LowFirst(b[..4], Crc(b[4..]))
  {
    hide Crc, LowFirst, Block, Payload;
    BlockIsSealed(ps, size);
    SealedLowFirst(b);
  }

  lemma EndOfEntries(ps: seq<Pair>, size: nat, b: seq<byte>)
    requires HasRoom(ps, size)
    requires b == Unsealed(ps, size)[4 + |Encode(ps)| := NUL]
    ensures b[4..] == Payload(ps, size)
  {
    hide Entry, Encode;
  }

  class Env {
    var envSize: nat
    var vars: seq<Pair>

    /** uboot_env_init */
    constructor ()
      ensures envSize == 0 && vars == []
    {
      envSize, vars := 0, [];
    }

    /** Reads the whole block and nothing outside it; a failed read keeps the
        entries in front of the fault. */
    method Read(buffer: array<byte>) returns (ok: bool)
      requires buffer.Length == envSize >= 4
      modifies this`vars
      ensures Parsed(ok, vars) == ReadBlock(buffer[..])
      ensures !LowFirst(buffer[..4], Crc(buffer[4..])) ==> !ok && vars == []
      ensures LowFirst(buffer[..4], Crc(buffer[4..])) ==> Parsed(ok, vars) == Parse(buffer[4..], [])
    {
      hide Crc, LoadWord, LowFirst, EqualsFrom, NulFrom, Parse;
      SealedLowFirst(buffer[..]);
      vars := [];
      var expectedCrc32 := LoadWord(buffer[..4]);
      var actualCrc32 := Crc32Buf(buffer, 4, envSize - 4);
      assert buffer[..][..4] == buffer[..4] && buffer[..][4..] == buffer[4..4 + (envSize - 4)] == buffer[4..];
      if expectedCrc32 != actualCrc32 {
        return false;
      }
      var end, name := envSize, 4;
      while name != end && buffer[name] != NUL
        invariant 4 <= name <= end
        invariant Parse(buffer[name..], vars) == Parse(buffer[4..], [])
        decreases end - name
      {
        var found, endname, endvalue := ScanEntry(buffer, name);
        if !found {
          ParseStuck(buffer[name..], vars);
          return false;
        }
        BufferTakes(buffer, name, vars, endname, endvalue);
        vars := [Pair(buffer[name..endname], buffer[endname + 1..endvalue])] + vars;
        name := endvalue + 1;
      }
      ParseEnd(buffer[name..], vars);
      return true;
    }

    /** uboot_env_setenv */
    method Setenv(name: cstring, value: cstring)
      modifies this`vars
      ensures vars == SetPair(old(vars), name, value)
      ensures Meaning(vars) == Meaning(old(vars))[name := value]
      ensures UniqueNames(old(vars)) ==> UniqueNames(vars)
    {
      SetPairMeaning(vars, name, value);
      var pair := 0;
      while pair < |vars|
        invariant pair <= |vars| && vars == old(vars)
        invariant forall i :: 0 <= i < pair ==> vars[i].name != name
      {
        if vars[pair].name == name {
          FindIs(vars, name, pair);
          vars := vars[pair := vars[pair].(value := value)];
          return;
        }
        pair := pair + 1;
      }
      FindIs(vars, name, pair);
      vars := [Pair(name, value)] + vars;
    }

    /** uboot_env_unsetenv */
    method Unsetenv(name: cstring)
      modifies this`vars
      ensures vars == DropPair(old(vars), name)
      ensures name !in Meaning(vars) <==> AtMostOnce(old(vars), name)
      ensures Meaning(vars) - {name} == Meaning(old(vars)) - {name}
      ensures UniqueNames(old(vars)) ==> UniqueNames(vars)
    {
      DropPairMeaning(vars, name);
      var pair := 0;
      while pair < |vars|
        invariant pair <= |vars| && vars == old(vars)
        invariant forall i :: 0 <= i < pair ==> vars[i].name != name
      {
        if vars[pair].name == name {
          FindIs(vars, name, pair);
          vars := vars[..pair] + vars[pair + 1..];
          return;
        }
        pair := pair + 1;
      }
      FindIs(vars, name, pair);
    }

    /** uboot_env_getenv */
    method Getenv(name: cstring) returns (value: Option<cstring>)
      ensures value == if name in Meaning(vars) then Some(Meaning(vars)[name]) else None
    {
      for pair := 0 to |vars|
        invariant forall i :: 0 <= i < pair ==> vars[i].name != name
      {
        if vars[pair].name == name {
          FirstIsMeaning(vars, name, pair);
          return Some(vars[pair].value);
        }
      }
      AbsentFromMeaning(vars, name);
      return None;
    }

    /** uboot_env_write: it succeeds exactly when there is room, in any order. */
    method Write(buffer: array<byte>) returns (ok: bool)
      requires buffer.Length == envSize
      modifies this`vars, buffer
      ensures ok <==> envSize >= 8 && HasRoom(old(vars), envSize)
      ensures envSize < 8 ==> vars == old(vars) && buffer[..] == old(buffer[..])
      ensures envSize >= 8 ==> IsSortOf(old(vars), vars)
      ensures ok ==> HasRoom(vars, envSize) && buffer[..] == Block(vars, envSize)
      ensures ok ==> LowFirst(buffer[..4], Crc(buffer[4..]))
      ensures envSize >= 8 && !ok ==>
                exists k :: 0 <= k < |vars| && HasRoom(vars[..k], envSize) && !HasRoom(vars[..k + 1], envSize)
                            && buffer[..] == Unsealed(vars[..k], envSize)
    {
      hide Crc, StoreWord, LowFirst, Entry, Sorted, Unsealed, Payload, Block, Splice;
      if envSize < 8 {
        return false;
      }
      forall i | 0 <= i < buffer.Length {
        buffer[i] := BLANK;
      }
      BlankIsUnsealed(buffer[..]);
      var p, end := 4, envSize - 2;
      vars := Qsort(vars);
      EncodePermuted(old(vars), vars);
      var pairs, i := vars, 0;
      while i < |pairs|
        invariant 0 <= i <= |pairs| && vars == pairs
        invariant p == 4 + |Encode(pairs[..i])| <= end
        invariant buffer[..] == Unsealed(pairs[..i], envSize)
      {
        var namelen, valuelen := |pairs[i].name|, |pairs[i].value|;
        EncodePrefix(pairs, i);
        if p + namelen + 1 + valuelen >= end {
          assert HasRoom(vars[..i], envSize) && !HasRoom(vars[..i + 1], envSize);
          return false;
        }
        WriteEntry(buffer, p, pairs[i]);
        UnsealedGrows(pairs, i, envSize, buffer[..]);
        p := p + namelen + 1 + valuelen + 1;
        i := i + 1;
      }
      assert pairs[..i] == pairs;
      buffer[p] := NUL;
      EndOfEntries(pairs, envSize, buffer[..]);
      var crc32 := Crc32Buf(buffer, 4, envSize - 4);
      assert buffer[4..4 + (envSize - 4)] == buffer[..][4..];
      BlockIsWritten(pairs, envSize, buffer[..]);
      Copy(buffer, 0, StoreWord(crc32));
      BlockIsLowFirst(pairs, envSize, buffer[..]);
      return true;
    }
  }
}
