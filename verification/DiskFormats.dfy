/** Disks and texts as other programs write and read them: the partition tables that a
    disk holds octet by octet, and the identities read back from their texts. */
module DiskFormats {
  import opened CString
  import opened BlockDevice
  import Values

  // ----- Texts read back ------------------------------------------------------

  /** What strtoull reads off hexadecimal text. */
  function HexNumber(text: seq<char>): nat {
    Values.DigitsValue(text, 16, 0)
  }

  lemma DigitIsRead(n: nat)
    requires n < 16
    ensures Values.IsDigit(HexDigit(n), 16) && Values.DigitValue(HexDigit(n)) == Some(n)
  {
  }

  lemma HexDigits(b: seq<byte>)
    ensures forall i :: 0 <= i < |Hex(b)| ==> Values.IsDigit(Hex(b)[i], 16)
  {
    forall i | 0 <= i < |Hex(b)|
      ensures Values.IsDigit(Hex(b)[i], 16)
    {
      assert Hex(b)[i] in Hex(b);
    }
  }

  /** The octets of a text, most significant first, as one number. */
  function BigEndian(b: seq<byte>): nat {
    if b == [] then 0 else 0x100 * BigEndian(b[..|b| - 1]) + b[|b| - 1] as int
  }

  lemma {:induction false} HexConcat(a: seq<byte>, b: seq<byte>)
    ensures Hex(a + b) == Hex(a) + Hex(b)
  {
    if a == [] {
      assert a + b == b;
    } else {
      assert (a + b)[1..] == a[1..] + b;
      HexConcat(a[1..], b);
    }
  }

  lemma TwoDigits(c: byte, acc: nat)
    ensures Values.DigitsValue(Hex([c]), 16, acc) == 0x100 * acc + c as int
  {
    var h, l := HexDigit(c as int / 16), HexDigit(c as int % 16);
    DigitIsRead(c as int / 16);
    DigitIsRead(c as int % 16);
    assert [c][1..] == [] && Hex([]) == [];
    assert Hex([c]) == [h, l] + [] == [h, l];
    hide HexDigit, Hex;
    assert [h, l][1..] == [l] && [l][1..] == [];
    assert Values.DigitsValue([l], 16, acc * 16 + c as int / 16)
        == Values.DigitsValue([], 16, (acc * 16 + c as int / 16) * 16 + c as int % 16);
  }

  /** The text of some octets reads as the number that they are, the first octet most
      significant. */
  lemma {:induction false} HexIsRead(b: seq<byte>)
    ensures HexNumber(Hex(b)) == BigEndian(b)
  {
    if b != [] {
      var front, last := b[..|b| - 1], b[|b| - 1];
      assert b == front + [last];
      HexConcat(front, [last]);
      HexDigits(front);
      hide Hex, BigEndian;
      Values.DigitsConcat(Hex(front), Hex([last]), 16, 0);
      HexIsRead(front);
      TwoDigits(last, BigEndian(front));
      BigEndianLast(b);
    }
  }

  lemma BigEndianLast(b: seq<byte>)
    requires b != []
    ensures BigEndian(b) == 0x100 * BigEndian(b[..|b| - 1]) + b[|b| - 1] as int
  {
  }

  lemma BigEndianFew(b: seq<byte>)
    ensures |b| == 1 ==> BigEndian(b) == b[0] as int
    ensures |b| == 2 ==> BigEndian(b) == 0x100 * b[0] as int + b[1] as int
    ensures |b| == 4 ==>
              BigEndian(b) == 0x100_0000 * b[0] as int + 0x1_0000 * b[1] as int + 0x100 * b[2] as int + b[3] as int
  {
    if |b| == 4 {
      var c := b[..3];
      assert c[..2] == b[..2] && b[..2][..1] == b[..1] && b[..1][..0] == [];
      assert BigEndian(b[..1]) == b[0] as int;
      assert BigEndian(b[..2]) == 0x100 * b[0] as int + b[1] as int;
      assert BigEndian(c) == 0x1_0000 * b[0] as int + 0x100 * b[1] as int + b[2] as int;
    } else if |b| == 2 {
      assert b[..1][..0] == [];
      assert BigEndian(b[..1]) == b[0] as int;
    }
  }

  /** The text of a UUID: three little-endian numbers, then the other octets in order. */
  lemma UuidIsRead(u: uuid)
    ensures var t := UuidText(u);
            && |t| == 36 && t[8] == t[13] == t[18] == t[23] == '-'
            && HexNumber(t[..8])
               == u[0] as int + 0x100 * u[1] as int + 0x1_0000 * u[2] as int + 0x100_0000 * u[3] as int
            && HexNumber(t[9..13]) == u[4] as int + 0x100 * u[5] as int
            && HexNumber(t[14..18]) == u[6] as int + 0x100 * u[7] as int
            && HexNumber(t[19..23]) == BigEndian(u[8..10]) && HexNumber(t[24..]) == BigEndian(u[10..])
  {
    UuidGroups(u);
    UuidDashes(u);
    hide Hex, UuidText, HexNumber;
    var a, b, c := [u[3], u[2], u[1], u[0]], [u[5], u[4]], [u[7], u[6]];
    HexIsRead(a);
    HexIsRead(b);
    HexIsRead(c);
    HexIsRead(u[8..10]);
    HexIsRead(u[10..]);
    BigEndianFew(a);
    BigEndianFew(b);
    BigEndianFew(c);
  }

  lemma UuidDashes(u: uuid)
    ensures var t := UuidText(u); t[8] == t[13] == t[18] == t[23] == '-'
  {
    hide Hex;
  }

  lemma WordIsRead(w: word)
    ensures HexNumber(Hex(ToBe32(w))) == w
  {
    hide Hex;
    HexIsRead(ToBe32(w));
    BigEndianFew(ToBe32(w));
    BytesOfWord(w);
    hide BigEndian, HexNumber, ToBe32;
  }

  /** The texts of an MBR: the signature as one number of eight digits, and behind it
      the number of the partition. */
  lemma MbrIsRead(w: word, n: byte)
    ensures |IdText(MbrDisk(w))| == 8 && HexNumber(IdText(MbrDisk(w))) == w
    ensures var t := IdText(MbrPart(w, n));
            |t| == 11 && HexNumber(t[..8]) == w && t[8] == '-' && HexNumber(t[9..]) == n as int
  {
    hide Hex, HexNumber, ToBe32;
    WordIsRead(w);
    HexIsRead([n]);
    BigEndianFew([n]);
    var t := IdText(MbrPart(w, n));
    assert t[..8] == Hex(ToBe32(w)) && t[9..] == Hex([n]);
  }

  // ----- Paths ----------------------------------------------------------------

  predicate EndsInDigit(s: seq<char>) {
    s != [] && '0' <= s[|s| - 1] <= '9'
  }

  /** The digits at the end of the path of a partition are its number, whatever the
      name of the disk ends in; a letter comes between only where it is needed. */
  lemma NumberStandsAlone(name: cstring, number: nat)
    requires name != [] && |name| <= 16
    ensures exists base: cstring ::
              PartPath(name, number) == base + Values.Decimal(number) && !EndsInDigit(base)
              && if EndsInDigit(name) then base == "/dev/" + name + "p" else base == "/dev/" + name
  {
    var base: cstring := DiskPath(name) + Separator(name);
    assert PartPath(name, number) == base + Values.Decimal(number);
    assert !EndsInDigit(name) ==> base == "/dev/" + name && base[|base| - 1] == name[|name| - 1];
  }

  /** What names no UUID is a path already. */
  lemma PathIsTaken(infos: seq<Info>, spec: cstring)
    ensures !("PARTUUID=" <= spec) && !("DISKUUID=" <= spec) ==> Resolve(infos, spec) == Some(spec)
  {
  }

  /** Names that begin with a dot, and disks that do not open, add nothing. */
  lemma {:induction false} HiddenAddNothing(names: seq<cstring>, more: seq<cstring>, name: cstring,
      open: cstring -> Option<Disk>)
    requires Openable(names + more, open) && name != [] && (name[0] == '.' || open(name).None?)
    requires CanProbe(name, open) && Openable(names + ([name] + more), open)
    ensures AllDevices(names + ([name] + more), open) == AllDevices(names + more, open)
    decreases |names|
  {
    hide CanProbe;
    var all := names + ([name] + more);
    if names == [] {
      assert all == [name] + more && all[1..] == more && names + more == more;
      assert DevicesNamed(name, open) == [];
    } else {
      assert all[1..] == names[1..] + ([name] + more) && (names + more)[1..] == names[1..] + more;
      HiddenAddNothing(names[1..], more, name, open);
    }
  }

  // ----- Disks octet by octet -------------------------------------------------

  function Octet(d: Disk, at: nat, i: nat): byte {
    d.image(at + i)
  }

  /** Four octets hold a word, the lowest first. */
  predicate WordAt(d: Disk, at: nat, w: word) {
    w == Octet(d, at, 0) as int + 0x100 * Octet(d, at, 1) as int + 0x1_0000 * Octet(d, at, 2) as int
         + 0x100_0000 * Octet(d, at, 3) as int
  }

  predicate TextAt(d: Disk, at: nat, text: seq<byte>) {
    forall i :: 0 <= i < |text| ==> Octet(d, at, i) == text[i]
  }

  ghost predicate Answers(d: Disk) {
    forall at :: !d.fails(at)
  }

  /** A GPT: the protective MBR, the header in the second sector, and the entries from
      the third on, each a type and a UUID; empty ones have no type. */
  ghost predicate HoldsGpt(d: Disk, disk: uuid, size: nat, parts: seq<Option<uuid>>) {
    && Answers(d)
    && d.image(510) == '\U{55}' && d.image(511) == '\U{AA}' && d.image(450) == '\U{EE}'
    && TextAt(d, 512, "EFI PART") && TextAt(d, 568, disk)
    && |parts| <= 256 && 32 <= size < 0x100_0000 && WordAt(d, 592, |parts|) && WordAt(d, 596, size)
    && (forall i :: 0 <= i < |parts| ==> HoldsEntry(d, 1024 + i * size, parts[i]))
  }

  ghost predicate HoldsEntry(d: Disk, at: nat, part: Option<uuid>) {
    && (part.None? <==> forall i :: 0 <= i < 16 ==> Octet(d, at, i) == '\0')
    && (part.Some? ==> TextAt(d, at + 16, part.value))
  }

  /** The devices of a table: what is not empty, by ascending number, then the disk. */
  function Devices(name: cstring, parts: seq<Option<Identity>>, from: nat): seq<Device>
    requires name != [] && from <= |parts|
    decreases |parts| - from
  {
    if from == |parts| then []
    else
      (if parts[from].Some? then [Device(Partition, PartPath(name, from + 1), parts[from].value)] else [])
      + Devices(name, parts, from + 1)
  }

  function GptIds(parts: seq<Option<uuid>>): (r: seq<Option<Identity>>)
    ensures |r| == |parts|
  {
    seq(|parts|, i requires 0 <= i < |parts| =>
      match parts[i]
      case None => None
      case Some(u) => Some(Gpt(u)))
  }

  lemma ReadIs(d: Disk, at: nat, n: nat)
    requires Answers(d)
    ensures Read(d, at, n).Some? && forall i :: 0 <= i < n ==> Read(d, at, n).value[i] == d.image(at + i)
  {
  }

  /** A piece of what was read. */
  lemma PieceIs(d: Disk, start: nat, n: nat, at: nat, k: nat, place: nat)
    requires Answers(d) && at + k <= n && place == start + at
    ensures Read(d, start, n).Some?
    ensures forall i :: 0 <= i < k ==> Read(d, start, n).value[at..at + k][i] == Octet(d, place, i)
  {
    ReadIs(d, start, n);
    forall i | 0 <= i < k
      ensures Read(d, start, n).value[at..at + k][i] == Octet(d, place, i)
    {
      assert start + (at + i) == place + i;
    }
  }

  lemma TextIs(d: Disk, start: nat, n: nat, at: nat, text: seq<byte>)
    requires Answers(d) && at + |text| <= n && TextAt(d, start + at, text)
    ensures Read(d, start, n).Some? && Read(d, start, n).value[at..at + |text|] == text
  {
    PieceIs(d, start, n, at, |text|, start + at);
    hide Octet, Read;
  }

  lemma WordIs(d: Disk, start: nat, at: nat, w: word)
    requires Answers(d) && at + 4 <= 512 && WordAt(d, start + at, w)
    ensures Read(d, start, 512).Some? && FromLe32(Read(d, start, 512).value[at..at + 4]) == w
  {
    PieceIs(d, start, 512, at, 4, start + at);
    hide Octet, Read;
  }

  lemma ZerosAre(piece: seq<byte>, d: Disk, place: nat)
    requires |piece| == 16 && forall i :: 0 <= i < 16 ==> piece[i] == Octet(d, place, i)
    ensures IsZeros(piece) <==> forall i :: 0 <= i < 16 ==> Octet(d, place, i) == '\0'
  {
    hide Octet;
    if IsZeros(piece) {
      forall i | 0 <= i < 16
        ensures Octet(d, place, i) == '\0'
      {
        assert piece[i] == '\0';
      }
    }
  }

  lemma EntryIs(d: Disk, size: nat, parts: seq<Option<uuid>>, k: nat)
    requires Answers(d) && 32 <= size && k < |parts| && HoldsEntry(d, 1024 + k * size, parts[k])
    ensures Read(d, 1024, Offset(size, |parts|)).Some?
    ensures var t := GptTable(Read(d, 1024, Offset(size, |parts|)).value, size, |parts|);
            t.Valid() && t.Partition(k + 1) == GptIds(parts)[k]
  {
    var n, at := Offset(size, |parts|), Offset(size, k);
    EntryFits(size, k + 1, |parts|);
    assert at == k * size && at + 32 <= n;
    var place := 1024 + at;
    PieceIs(d, 1024, n, at, 16, place);
    var table := Read(d, 1024, n).value;
    ZerosAre(table[at..at + 16], d, place);
    if parts[k].Some? {
      TextIs(d, 1024, n, at + 16, parts[k].value);
      hide Read, Offset;
      assert table[at + 16..at + 16 + 16] == parts[k].value;
    }
  }

  lemma ListedStep(name: cstring, t: Table, from: nat)
    requires name != [] && t.Valid() && from <= t.Count()
    ensures from == t.Count() ==> Listed(name, t, from + 1) == []
    ensures from < t.Count() ==>
              Listed(name, t, from + 1)
              == (if t.Partition(from + 1).Some?
                  then [Device(Partition, PartPath(name, from + 1), t.Partition(from + 1).value)] else [])
                 + Listed(name, t, from + 2)
  {
    hide PartPath;
  }

  lemma DevicesStep(name: cstring, ids: seq<Option<Identity>>, from: nat)
    requires name != [] && from <= |ids|
    ensures from == |ids| ==> Devices(name, ids, from) == []
    ensures from < |ids| ==>
              Devices(name, ids, from)
              == (if ids[from].Some? then [Device(Partition, PartPath(name, from + 1), ids[from].value)] else [])
                 + Devices(name, ids, from + 1)
  {
    hide PartPath;
  }

  lemma {:induction false} TableIs(name: cstring, t: Table, ids: seq<Option<Identity>>, from: nat)
    requires name != [] && t.Valid() && t.Count() == |ids| && from <= |ids|
    requires forall k :: 0 <= k < |ids| ==> t.Partition(k + 1) == ids[k]
    ensures Listed(name, t, from + 1) == Devices(name, ids, from)
    decreases |ids| - from
  {
    hide PartPath, Listed, Devices;
    ListedStep(name, t, from);
    DevicesStep(name, ids, from);
    if from < |ids| {
      assert t.Partition(from + 1) == ids[from];
      TableIs(name, t, ids, from + 1);
    }
  }

  lemma GptHeaderIs(d: Disk, disk: uuid, size: nat, parts: seq<Option<uuid>>)
    requires HoldsGpt(d, disk, size, parts)
    ensures GptHeader(d).Some?
    ensures var h := GptHeader(d).value;
            h[56..72] == disk && EntryCount(h) == |parts| && EntrySize(h) == size
    ensures Read(d, 0, 512).Some? && IsProtective(Read(d, 0, 512).value)
  {
    ReadIs(d, 0, 512);
    TextIs(d, 512, 512, 0, "EFI PART");
    TextIs(d, 512, 512, 56, disk);
    WordIs(d, 512, 80, |parts|);
    WordIs(d, 512, 84, size);
    var block := Read(d, 0, 512).value;
    assert block[510..] == ['\U{55}', '\U{AA}'];
    hide Read, FromLe32, Octet, HoldsEntry;
    assert |"EFI PART"| == 8;
  }

  lemma TableFits(size: nat, count: nat)
    requires size < 0x100_0000 && count <= 256
    ensures Offset(size, count) < 0x1_0000_0000
  {
    assert count * size <= 256 * size;
  }

  /** What a partitioning tool wrote is what is found: every partition that is not empty,
      under its number and with its UUID, and then the disk. */
  lemma GptDiskIsRead(d: Disk, name: cstring, disk: uuid, size: nat, parts: seq<Option<uuid>>)
    requires name != [] && HoldsGpt(d, disk, size, parts)
    ensures GptMakesSense(d)
    ensures DevicesOf(d, name)
         == Devices(name, GptIds(parts), 0) + [Device(WholeDisk, DiskPath(name), Gpt(disk))]
  {
    GptHeaderIs(d, disk, size, parts);
    TableFits(size, |parts|);
    GptTableIs(d, name, disk, size, parts);
    hide Read, Listed, Devices, GptIds, PartPath, DiskPath, Octet, GptHeader, Offset, HoldsGpt;
    hide EntryCount, EntrySize, IsProtective, HasBootSignature;
  }

  lemma GptTableIs(d: Disk, name: cstring, disk: uuid, size: nat, parts: seq<Option<uuid>>)
    requires name != [] && HoldsGpt(d, disk, size, parts)
    ensures var table := Read(d, 1024, Offset(size, |parts|));
            && table.Some? && ReadsInside(table.value, size, |parts|)
            && Listed(name, GptTable(table.value, size, |parts|), 1) == Devices(name, GptIds(parts), 0)
  {
    var n := Offset(size, |parts|);
    ReadIs(d, 1024, n);
    var t := GptTable(Read(d, 1024, n).value, size, |parts|);
    forall k | 0 <= k < |parts|
      ensures t.Valid() && t.Partition(k + 1) == GptIds(parts)[k]
    {
      EntryIs(d, size, parts, k);
    }
    hide Read, Listed, Devices, GptIds, PartPath, Octet, Offset;
    TableIs(name, t, GptIds(parts), 0);
  }

  /** An MBR: the signature of the disk, and the types of the four partitions; type 0 is
      empty. */
  ghost predicate HoldsMbr(d: Disk, signature: word, types: seq<byte>) {
    && Answers(d) && |types| == 4 && types[0] != '\U{EE}'
    && d.image(510) == '\U{55}' && d.image(511) == '\U{AA}' && WordAt(d, 440, signature)
    && d.image(450) == types[0] && d.image(466) == types[1] && d.image(482) == types[2] && d.image(498) == types[3]
  }

  function MbrIds(signature: word, types: seq<byte>): (r: seq<Option<Identity>>)
    requires |types| == 4
    ensures |r| == 4
  {
    seq(4, i requires 0 <= i < 4 =>
      if types[i] == '\0' then None else Some(MbrPart(signature, (i + 1) as char)))
  }

  /** The same for an MBR. */
  lemma MbrDiskIsRead(d: Disk, name: cstring, signature: word, types: seq<byte>)
    requires name != [] && HoldsMbr(d, signature, types)
    ensures GptMakesSense(d)
    ensures DevicesOf(d, name)
         == Devices(name, MbrIds(signature, types), 0) + [Device(WholeDisk, DiskPath(name), MbrDisk(signature))]
  {
    ReadIs(d, 0, 512);
    WordIs(d, 0, 440, signature);
    var mbr := Read(d, 0, 512).value;
    var t := MbrTable(mbr, signature);
    assert mbr[510..] == ['\U{55}', '\U{AA}'];
    assert mbr[450] == types[0] && mbr[466] == types[1] && mbr[482] == types[2] && mbr[498] == types[3];
    forall k | 0 <= k < 4
      ensures t.Partition(k + 1) == MbrIds(signature, types)[k]
    {
    }
    hide Read, Listed, Devices, MbrIds, PartPath, DiskPath, Octet, FromLe32;
    TableIs(name, t, MbrIds(signature, types), 0);
  }
}
