/** Partition enumeration and lookup of src/block_device.c. The layouts are those of
    the UEFI specification: section 5.2.1 (MBR), 5.3.2 (GPT header) and 5.3.3 (GPT
    entries). */
module BlockDevice {
  import opened CString
  import Values

  const WORD_RANGE := 0x1_0000_0000

  // ----- Identities and how they are written ----------------------------------

  type word = w: int | 0 <= w < 0x1_0000_0000

  type uuid = u: seq<byte> | |u| == 16 witness seq(16, i => '\0')

  /** What tells devices apart: GPT has UUIDs, an MBR has a signature and numbers. */
  datatype Identity = Gpt(uuid: uuid) | MbrDisk(signature: word) | MbrPart(signature: word, number: byte)

  /** from_le32 */
  function FromLe32(b: seq<byte>): word
    requires |b| == 4
  {
    b[0] as int + 0x100 * b[1] as int + 0x1_0000 * b[2] as int + 0x100_0000 * b[3] as int
  }

  function ToBe32(w: word): (b: seq<byte>)
    ensures |b| == 4
  {
    [(w / 0x100_0000) as char, (w / 0x1_0000 % 0x100) as char, (w / 0x100 % 0x100) as char, (w % 0x100) as char]
  }

  lemma WordOfBytes(b: seq<byte>)
    requires |b| == 4
    ensures ToBe32(FromLe32(b)) == [b[3], b[2], b[1], b[0]]
  {
    var w := FromLe32(b);
    assert w / 0x100_0000 == b[3] as int;
    assert w / 0x1_0000 == b[3] as int * 0x100 + b[2] as int;
    assert w / 0x100 == b[3] as int * 0x1_0000 + b[2] as int * 0x100 + b[1] as int;
  }

  lemma BytesOfWord(w: word)
    ensures var b := ToBe32(w); FromLe32([b[3], b[2], b[1], b[0]]) == w
  {
    var high := w / 0x1_0000;
    assert w == 0x1_0000 * high + w % 0x1_0000 && high == 0x100 * (high / 0x100) + high % 0x100;
    assert w / 0x100_0000 == high / 0x100;
    assert w % 0x1_0000 == 0x100 * (w / 0x100 % 0x100) + w % 0x100;
  }

  function HexDigit(n: nat): (c: byte)
    requires n < 16
    ensures '0' <= c <= '9' || 'a' <= c <= 'f'
  {
    if n < 10 then ('0' as int + n) as char else ('a' as int + n - 10) as char
  }

  /** %02x of each octet */
  function Hex(b: seq<byte>): (r: cstring)
    ensures |r| == 2 * |b|
    ensures forall c :: c in r ==> '0' <= c <= '9' || 'a' <= c <= 'f'
  {
    if b == [] then [] else [HexDigit(b[0] as int / 16), HexDigit(b[0] as int % 16)] + Hex(b[1..])
  }

  lemma {:induction false} HexInjective(a: seq<byte>, b: seq<byte>)
    requires Hex(a) == Hex(b)
    ensures a == b
  {
    assert |a| == |b|;
    if a != [] {
      var x, y := a[0] as int, b[0] as int;
      assert Hex(a)[0] == HexDigit(x / 16) && Hex(b)[0] == HexDigit(y / 16);
      assert Hex(a)[1] == HexDigit(x % 16) && Hex(b)[1] == HexDigit(y % 16);
      assert Hex(a)[2..] == Hex(a[1..]) && Hex(b)[2..] == Hex(b[1..]);
      assert x == 16 * (x / 16) + x % 16 && y == 16 * (y / 16) + y % 16;
      HexInjective(a[1..], b[1..]);
      assert a == [a[0]] + a[1..] && b == [b[0]] + b[1..];
    }
  }

  /** uuid_to_string_me: the first three groups are little endian. */
  function UuidText(u: uuid): (r: cstring)
    ensures |r| == 36
  {
    Hex([u[3], u[2], u[1], u[0]]) + "-" + Hex([u[5], u[4]]) + "-" + Hex([u[7], u[6]]) + "-"
    + Hex(u[8..10]) + "-" + Hex(u[10..])
  }

  lemma UuidTextInjective(u: uuid, v: uuid)
    requires UuidText(u) == UuidText(v)
    ensures u == v
  {
    hide Hex;
    UuidGroups(u);
    UuidGroups(v);
    HexInjective([u[3], u[2], u[1], u[0]], [v[3], v[2], v[1], v[0]]);
    HexInjective([u[5], u[4]], [v[5], v[4]]);
    HexInjective([u[7], u[6]], [v[7], v[6]]);
    HexInjective(u[8..10], v[8..10]);
    HexInjective(u[10..], v[10..]);
    hide UuidText;
    assert u[0] == v[0] && u[1] == v[1] && u[2] == v[2] && u[3] == v[3] by {
      assert [u[3], u[2], u[1], u[0]][0] == v[3] && [u[3], u[2], u[1], u[0]][1] == v[2];
      assert [u[3], u[2], u[1], u[0]][2] == v[1] && [u[3], u[2], u[1], u[0]][3] == v[0];
    }
    assert u[4] == v[4] && u[5] == v[5] by {
      assert [u[5], u[4]][0] == v[5] && [u[5], u[4]][1] == v[4];
    }
    assert u[6] == v[6] && u[7] == v[7] by {
      assert [u[7], u[6]][0] == v[7] && [u[7], u[6]][1] == v[6];
    }
    assert u == [u[0], u[1], u[2], u[3], u[4], u[5], u[6], u[7]] + u[8..10] + u[10..];
    assert v == [v[0], v[1], v[2], v[3], v[4], v[5], v[6], v[7]] + v[8..10] + v[10..];
  }

  lemma UuidGroups(u: uuid)
    ensures var t := UuidText(u);
            && t[..8] == Hex([u[3], u[2], u[1], u[0]]) && t[9..13] == Hex([u[5], u[4]])
            && t[14..18] == Hex([u[7], u[6]]) && t[19..23] == Hex(u[8..10]) && t[24..] == Hex(u[10..])
  {
    hide Hex;
  }

  /** The uuid field of a block_device_info. */
  function IdText(id: Identity): cstring {
    match id
    case Gpt(u) => UuidText(u)
    case MbrDisk(w) => Hex(ToBe32(w))
    case MbrPart(w, n) => Hex(ToBe32(w)) + "-" + Hex([n])
  }

  lemma IdTextLength(id: Identity)
    ensures |IdText(id)| == if id.Gpt? then 36 else if id.MbrDisk? then 8 else 11
  {
  }

  /** Different identities are written differently. */
  lemma IdTextInjective(a: Identity, b: Identity)
    requires IdText(a) == IdText(b)
    ensures a == b
  {
    hide Hex, UuidText;
    IdTextLength(a);
    IdTextLength(b);
    match (a, b)
    case (Gpt(u), Gpt(v)) => UuidTextInjective(u, v);
    case (MbrDisk(v), MbrDisk(w)) =>
      HexInjective(ToBe32(v), ToBe32(w));
      BytesOfWord(v);
      BytesOfWord(w);
    case (MbrPart(v, m), MbrPart(w, n)) =>
      assert IdText(a)[..8] == Hex(ToBe32(v)) && IdText(b)[..8] == Hex(ToBe32(w));
      assert IdText(a)[9..] == Hex([m]) && IdText(b)[9..] == Hex([n]);
      HexInjective(ToBe32(v), ToBe32(w));
      BytesOfWord(v);
      BytesOfWord(w);
      HexInjective([m], [n]);
      assert [m][0] == [n][0];
    case _ =>
  }

  // ----- What is on a disk ----------------------------------------------------

  /** Reads of a disk: each offset either gives what is there or fails. */
  datatype Disk = Disk(image: nat -> byte, fails: nat -> bool)

  /** pread */
  function Read(d: Disk, offset: nat, n: nat): (r: Option<seq<byte>>)
    ensures r.Some? ==> |r.value| == n
  {
    if d.fails(offset) then None else Some(seq(n, i requires 0 <= i => d.image(offset + i)))
  }

  datatype Kind = WholeDisk | Partition

  datatype Device = Device(kind: Kind, path: cstring, id: Identity)

  const BOOT_SIGNATURE: seq<byte> := ['\U{55}', '\U{AA}']
  const GPT_SIGNATURE: seq<byte> := "EFI PART"
  const PROTECTIVE: byte := '\U{EE}'

  function Clipped(name: cstring): cstring {
    if |name| <= 16 then name else name[..16]
  }

  function DiskPath(name: cstring): cstring {
    "/dev/" + Clipped(name)
  }

  /** p_or_np */
  function Separator(name: cstring): cstring
    requires name != []
  {
    if '0' <= name[|name| - 1] <= '9' then "p" else ""
  }

  function PartPath(name: cstring, number: nat): cstring
    requires name != []
  {
    DiskPath(name) + Separator(name) + Values.Decimal(number)
  }

  // ----- Partition tables ------------------------------------------------------

  /** The type GUID of an empty GPT entry is zero. */
  predicate IsZeros(b: seq<byte>) {
    forall i :: 0 <= i < |b| ==> b[i] == '\0'
  }

  /** Table contents in front of the loops that walk them. */
  datatype Table =
    | GptTable(entries: seq<byte>, size: nat, count: nat)
    | MbrTable(mbr: seq<byte>, signature: word)
  {
    predicate Valid() {
      match this
      case GptTable(entries, size, count) => |entries| == Offset(size, count) && ReadsInside(entries, size, count)
      case MbrTable(mbr, _) => |mbr| == 512
    }

    function Count(): nat {
      if GptTable? then count else 4
    }

    /** Partition `number`, if it is not empty. */
    function Partition(number: nat): (r: Option<Identity>)
      requires Valid() && 1 <= number <= Count()
    {
      match this
      case GptTable(entries, size, count) =>
        EntryInside(entries, size, number, count);
        var at := Offset(size, number - 1);
        if IsZeros(entries[at..at + 16]) then None else Some(Gpt(entries[at + 16..at + 32]))
      case MbrTable(mbr, signature) =>
        if mbr[446 + 16 * (number - 1) + 4] == '\0' then None else Some(MbrPart(signature, number as char))
    }
  }

  function Offset(size: nat, entries: nat): nat {
    entries * size
  }

  /** The reads of the loop stay inside the table: the type of every entry is there,
      and the GUID behind it when the entry is not empty.  Only the last entry can
      be too short for that. */
  predicate ReadsInside(entries: seq<byte>, size: nat, count: nat) {
    count == 0 || size >= 32
    || (size >= 16 && Offset(size, count - 1) + 16 <= |entries|
        && IsZeros(entries[Offset(size, count - 1)..Offset(size, count - 1) + 16]))
  }

  lemma EntryInside(entries: seq<byte>, size: nat, number: nat, count: nat)
    requires |entries| == Offset(size, count) && ReadsInside(entries, size, count) && 1 <= number <= count
    ensures var at := Offset(size, number - 1);
            at + 16 <= |entries| && (IsZeros(entries[at..at + 16]) || at + 32 <= |entries|)
  {
    EntryFits(size, number, count);
    if number < count {
      EntryFits(size, number + 1, count);
    }
    hide Offset, IsZeros;
  }

  lemma EntryFits(size: nat, number: nat, count: nat)
    requires 1 <= number <= count
    ensures Offset(size, number - 1) + size == Offset(size, number) <= Offset(size, count)
  {
  }

  /** The partitions of a table from number `from` on, in ascending order. */
  function Listed(name: cstring, t: Table, from: nat): seq<Device>
    requires name != [] && t.Valid() && 1 <= from <= t.Count() + 1
    decreases t.Count() + 1 - from
  {
    if from > t.Count() then []
    else
      (match t.Partition(from)
       case None => []
       case Some(id) => [Device(Partition, PartPath(name, from), id)])
      + Listed(name, t, from + 1)
  }

  /** The numbers that have a partition. */
  function Numbers(t: Table, from: nat): (r: seq<nat>)
    requires t.Valid() && 1 <= from <= t.Count() + 1
    ensures forall i :: (0 <= i < |r| ==> from <= r[i] <= t.Count() && t.Partition(r[i]).Some?)
    ensures forall i, j :: (0 <= i < j < |r| ==> r[i] < r[j])
    decreases t.Count() + 1 - from
  {
    if from > t.Count() then []
    else (if t.Partition(from).Some? then [from] else []) + Numbers(t, from + 1)
  }

  lemma {:induction false} NumbersMissNone(t: Table, from: nat, number: nat)
    requires t.Valid() && 1 <= from <= number <= t.Count() && t.Partition(number).Some?
    ensures number in Numbers(t, from)
    decreases t.Count() - from
  {
    if from < number {
      NumbersMissNone(t, from + 1, number);
    }
  }

  /** The k-th device listed is the k-th number that has a partition: none is
      missing, repeated or out of order. */
  lemma {:induction false} ListedIsExact(name: cstring, t: Table, from: nat)
    requires name != [] && t.Valid() && 1 <= from <= t.Count() + 1
    ensures |Listed(name, t, from)| == |Numbers(t, from)|
    ensures forall k :: (0 <= k < |Numbers(t, from)| ==>
              var n := Numbers(t, from)[k];
              Listed(name, t, from)[k] == Device(Partition, PartPath(name, n), t.Partition(n).value))
    decreases t.Count() + 1 - from
  {
    hide PartPath;
    if from <= t.Count() {
      ListedIsExact(name, t, from + 1);
    }
  }

  // ----- GPT ------------------------------------------------------------------

  predicate HasBootSignature(block: seq<byte>)
    requires |block| == 512
  {
    block[510..] == BOOT_SIGNATURE
  }

  predicate IsProtective(block: seq<byte>)
    requires |block| == 512
  {
    block[446 + 4] == PROTECTIVE
  }

  function EntryCount(header: seq<byte>): word
    requires |header| == 512
  {
    FromLe32(header[80..84])
  }

  function EntrySize(header: seq<byte>): word
    requires |header| == 512
  {
    FromLe32(header[84..88])
  }

  /** The devices a GPT disk adds, and whether the probe calls it a success. */
  function GptDevices(d: Disk, name: cstring): (seq<Device>, bool)
    requires name != [] && GptMakesSense(d)
  {
    match GptHeader(d)
    case None => ([], false)
    case Some(header) =>
      var disk := Device(WholeDisk, DiskPath(name), Gpt(header[56..72]));
      var count, size := EntryCount(header), EntrySize(header);
      if count > 256 then ([disk], false)
      else
        match Read(d, 1024, Offset(size, count))
        case None => ([disk], false)
        case Some(table) => (Listed(name, GptTable(table, size, count), 1) + [disk], true)
  }

  /** The GPT header of a disk that has one. */
  function GptHeader(d: Disk): (r: Option<seq<byte>>)
    ensures r.Some? ==> |r.value| == 512
  {
    match Read(d, 0, 512)
    case None => None
    case Some(block) =>
      if !HasBootSignature(block) || !IsProtective(block) then None
      else
        match Read(d, 512, 512)
        case None => None
        case Some(header) => if header[..8] != GPT_SIGNATURE then None else Some(header)
  }

  /** What the table reader relies on: the size of the table fits 32 bits, and the
      reads stay inside it. */
  predicate GptMakesSense(d: Disk) {
    match GptHeader(d)
    case None => true
    case Some(header) =>
      var count, size := EntryCount(header), EntrySize(header);
      count <= 256 ==>
        Offset(size, count) < WORD_RANGE
        && match Read(d, 1024, Offset(size, count))
           case None => true
           case Some(table) => ReadsInside(table, size, count)
  }

  // ----- MBR ------------------------------------------------------------------

  function MbrDevices(d: Disk, name: cstring): (seq<Device>, bool)
    requires name != []
  {
    match Read(d, 0, 512)
    case None => ([], false)
    case Some(mbr) =>
      if !HasBootSignature(mbr) || IsProtective(mbr) then ([], false)
      else
        var signature := FromLe32(mbr[440..444]);
        (Listed(name, MbrTable(mbr, signature), 1)
         + [Device(WholeDisk, DiskPath(name), MbrDisk(signature))], true)
  }

  /** A disk that is not taken for an MBR adds nothing as one. */
  lemma MbrRefusal(d: Disk, name: cstring)
    requires name != []
    ensures !MbrDevices(d, name).1 ==> MbrDevices(d, name).0 == []
  {
  }

  /** probe_partitions: an MBR if there is one, else a GPT. */
  function DevicesOf(d: Disk, name: cstring): seq<Device>
    requires name != [] && GptMakesSense(d)
  {
    var (devices, ok) := MbrDevices(d, name);
    if ok then devices else devices + GptDevices(d, name).0
  }

  /** A probed disk contributes its partitions and then itself, once. */
  lemma DiskComesLast(d: Disk, name: cstring)
    requires name != [] && GptMakesSense(d)
    ensures var r := DevicesOf(d, name);
            r != [] ==> r[|r| - 1].kind == WholeDisk && forall i :: 0 <= i < |r| - 1 ==> r[i].kind == Partition
    ensures MbrDevices(d, name).1 || GptDevices(d, name).1 ==> DevicesOf(d, name) != []
  {
    var (mbr, ok) := MbrDevices(d, name);
    if ok {
      ListedAreParts(name, MbrTable(Read(d, 0, 512).value, mbr[|mbr| - 1].id.signature), 1);
    } else {
      assert mbr == [];
      assert DevicesOf(d, name) == GptDevices(d, name).0;
      var (gpt, good) := GptDevices(d, name);
      if good {
        var header := GptHeader(d).value;
        var count, size := EntryCount(header), EntrySize(header);
        ListedAreParts(name, GptTable(Read(d, 1024, Offset(size, count)).value, size, count), 1);
      }
    }
  }

  lemma {:induction false} ListedAreParts(name: cstring, t: Table, from: nat)
    requires name != [] && t.Valid() && 1 <= from <= t.Count() + 1
    ensures forall i :: 0 <= i < |Listed(name, t, from)| ==> Listed(name, t, from)[i].kind == Partition
    decreases t.Count() + 1 - from
  {
    hide PartPath;
    if from <= t.Count() {
      ListedAreParts(name, t, from + 1);
    }
  }

  // ----- Looking a UUID up ----------------------------------------------------

  /** struct block_device_info */
  datatype Info = Info(kind: Kind, path: cstring, uuid: cstring)

  function InfoOf(d: Device): Info {
    Info(d.kind, d.path, IdText(d.id))
  }

  function Infos(devices: seq<Device>): seq<Info> {
    seq(|devices|, i requires 0 <= i < |devices| => InfoOf(devices[i]))
  }

  lemma InfosConcat(a: seq<Device>, b: seq<Device>)
    ensures Infos(a + b) == Infos(a) + Infos(b)
  {
  }

  function Lookup(infos: seq<Info>, kind: Kind, text: cstring): Option<cstring> {
    if infos == [] then None
    else if kind == infos[0].kind && EqualIgnoringCase(text, infos[0].uuid) then Some(infos[0].path)
    else Lookup(infos[1..], kind, text)
  }

  /** The first device that is the one meant. */
  function FirstOf(devices: seq<Device>, kind: Kind, id: Identity): Option<Device> {
    if devices == [] then None
    else if devices[0].kind == kind && devices[0].id == id then Some(devices[0])
    else FirstOf(devices[1..], kind, id)
  }

  lemma IdTextIsLower(id: Identity)
    ensures forall i :: 0 <= i < |IdText(id)| ==> Lower(IdText(id)[i]) == IdText(id)[i]
  {
    hide Hex;
    var t := IdText(id);
    assert forall c :: c in t ==> !('A' <= c <= 'Z');
    assert forall i :: 0 <= i < |t| ==> t[i] in t;
  }

  /** A text that is one identity in some letter case is no other. */
  lemma IdTextInAnyCase(text: cstring, id: Identity, other: Identity)
    requires EqualIgnoringCase(text, IdText(id))
    ensures EqualIgnoringCase(text, IdText(other)) <==> other == id
  {
    hide IdText, Lower;
    IdTextIsLower(id);
    IdTextIsLower(other);
    if EqualIgnoringCase(text, IdText(other)) {
      assert IdText(other) == IdText(id);
      IdTextInjective(other, id);
    }
  }

  /** Text in any letter case finds exactly the first device with that identity. */
  lemma {:induction false} LookupFindsIdentity(devices: seq<Device>, kind: Kind, id: Identity, text: cstring)
    requires EqualIgnoringCase(text, IdText(id))
    ensures Lookup(Infos(devices), kind, text)
            == match FirstOf(devices, kind, id) case None => None case Some(d) => Some(d.path)
  {
    hide IdText, EqualIgnoringCase;
    if devices != [] {
      IdTextInAnyCase(text, id, devices[0].id);
      assert Infos(devices)[1..] == Infos(devices[1..]);
      LookupFindsIdentity(devices[1..], kind, id, text);
    }
  }

  /** find_block_device_by_spec */
  function Resolve(infos: seq<Info>, spec: cstring): Option<cstring> {
    if "PARTUUID=" <= spec then Lookup(infos, Partition, spec[9..])
    else if "DISKUUID=" <= spec then Lookup(infos, WholeDisk, spec[9..])
    else Some(spec)
  }

  // ----- Every disk -----------------------------------------------------------

  /** What all disks add, by ascending name; hidden names are passed over, and disks
      that do not open add nothing. */
  function AllDevices(names: seq<cstring>, open: cstring -> Option<Disk>): seq<Device>
    requires Openable(names, open)
  {
    if names == [] then [] else DevicesNamed(names[0], open) + AllDevices(names[1..], open)
  }

  function DevicesNamed(name: cstring, open: cstring -> Option<Disk>): seq<Device>
    requires CanProbe(name, open)
  {
    if name[0] == '.' then [] else DevicesOn(open(name), name)
  }

  function DevicesOn(disk: Option<Disk>, name: cstring): seq<Device>
    requires name != [] && ProbesInside(disk)
  {
    if disk.None? then [] else DevicesOf(disk.value, name)
  }

  predicate ProbesInside(disk: Option<Disk>) {
    disk.Some? ==> GptMakesSense(disk.value)
  }

  predicate CanProbe(name: cstring, open: cstring -> Option<Disk>) {
    name != [] && ProbesInside(open(name))
  }

  predicate Openable(names: seq<cstring>, open: cstring -> Option<Disk>) {
    forall i :: 0 <= i < |names| ==> CanProbe(names[i], open)
  }

  /** is_zeros */
  method AreZeros(b: seq<byte>, from: nat, n: nat) returns (zeros: bool)
    requires from + n <= |b|
    ensures zeros <==> IsZeros(b[from..from + n])
  {
    for i := 0 to n
      invariant forall k :: from <= k < from + i ==> b[k] == '\0'
    {
      if b[from + i] != '\0' {
        assert b[from..from + n][i] != '\0';
        return false;
      }
    }
    return true;
  }

  /** One round of a probe loop. */
  lemma ListedStep(name: cstring, t: Table, i: nat)
    requires name != [] && t.Valid() && 1 <= i <= t.Count()
    ensures Infos(Listed(name, t, i))
            == match t.Partition(i)
               case None => Infos(Listed(name, t, i + 1))
               case Some(id) => [Info(Partition, PartPath(name, i), IdText(id))] + Infos(Listed(name, t, i + 1))
  {
    hide PartPath, IdText;
    match t.Partition(i)
    case None =>
      assert Listed(name, t, i) == Listed(name, t, i + 1);
    case Some(id) =>
      InfosConcat([Device(Partition, PartPath(name, i), id)], Listed(name, t, i + 1));
  }

  /** The list with the partitions from a number on in front of it. */
  function InFront(name: cstring, t: Table, from: nat, base: seq<Info>): seq<Info>
    requires name != [] && t.Valid() && 1 <= from <= t.Count() + 1
  {
    Infos(Listed(name, t, from)) + base
  }

  lemma InFrontStep(name: cstring, t: Table, i: nat, base: seq<Info>)
    requires name != [] && t.Valid() && 1 <= i <= t.Count()
    ensures InFront(name, t, i, base)
            == match t.Partition(i)
               case None => InFront(name, t, i + 1, base)
               case Some(id) => [Info(Partition, PartPath(name, i), IdText(id))] + InFront(name, t, i + 1, base)
  {
    ListedStep(name, t, i);
    hide *;
    var rest := Infos(Listed(name, t, i + 1));
    if t.Partition(i).Some? {
      PrependedFirst(Info(Partition, PartPath(name, i), IdText(t.Partition(i).value)), rest, base);
    }
    InFrontIs(name, t, i, base);
    InFrontIs(name, t, i + 1, base);
  }

  lemma InFrontIs(name: cstring, t: Table, from: nat, base: seq<Info>)
    requires name != [] && t.Valid() && 1 <= from <= t.Count() + 1
    ensures InFront(name, t, from, base) == Infos(Listed(name, t, from)) + base
  {
  }

  lemma PrependedFirst(x: Info, rest: seq<Info>, base: seq<Info>)
    ensures ([x] + rest) + base == [x] + (rest + base)
  {
  }

  /** What the probe stores about a GPT entry. */
  function GptInfo(name: cstring, entries: seq<byte>, at: nat, number: nat): Info
    requires name != [] && at + 32 <= |entries|
  {
    Info(Partition, PartPath(name, number), UuidText(entries[at + 16..at + 32]))
  }

  lemma GptStep(name: cstring, entries: seq<byte>, size: nat, count: nat, i: nat, base: seq<Info>)
    requires name != [] && GptTable(entries, size, count).Valid() && 1 <= i <= count
    ensures var t, at := GptTable(entries, size, count), Offset(size, i - 1);
            && at + 16 <= |entries| && at == Offset(size, i) - size
            && if IsZeros(entries[at..at + 16]) then InFront(name, t, i, base) == InFront(name, t, i + 1, base)
               else at + 32 <= |entries|
                    && InFront(name, t, i, base) == [GptInfo(name, entries, at, i)] + InFront(name, t, i + 1, base)
  {
    EntryFits(size, i, count);
    EntryInside(entries, size, i, count);
    hide Offset, PartPath, UuidText, InFront, IsZeros;
    InFrontStep(name, GptTable(entries, size, count), i, base);
  }

  lemma MbrStep(name: cstring, mbr: seq<byte>, signature: word, i: nat, base: seq<Info>)
    requires name != [] && |mbr| == 512 && 1 <= i <= 4
    ensures var t := MbrTable(mbr, signature);
            InFront(name, t, i, base)
            == if mbr[446 + 16 * i - 12] == '\0' then InFront(name, t, i + 1, base)
               else [Info(Partition, PartPath(name, i), Hex(ToBe32(signature)) + "-" + Hex([i as char]))]
                    + InFront(name, t, i + 1, base)
  {
    hide PartPath, Hex, ToBe32, InFront;
    InFrontStep(name, MbrTable(mbr, signature), i, base);
  }

  lemma TableSize(t: Table)
    ensures t.Count() == if t.GptTable? then t.count else 4
    ensures t.MbrTable? && |t.mbr| == 512 ==> t.Valid()
  {
  }

  lemma NothingInFront(name: cstring, t: Table, base: seq<Info>)
    requires name != [] && t.Valid()
    ensures InFront(name, t, t.Count() + 1, base) == base
  {
  }

  lemma ProbeDone(listed: seq<Device>, disk: Device, before: seq<Info>)
    ensures Infos(listed) + ([InfoOf(disk)] + before) == Infos(listed + [disk]) + before
  {
    InfosConcat(listed, [disk]);
    assert Infos([disk]) == [InfoOf(disk)];
    hide Infos;
  }

  /** probe_partitions as its two attempts leave the list. */
  lemma DevicesOnCases(d: Disk, name: cstring, before: seq<Info>)
    requires name != [] && GptMakesSense(d)
    ensures DevicesOn(Some(d), name) == if MbrDevices(d, name).1 then MbrDevices(d, name).0 else GptDevices(d, name).0
    ensures !MbrDevices(d, name).1 ==> Infos(MbrDevices(d, name).0) + before == before
  {
    hide GptDevices;
    MbrRefusal(d, name);
    hide MbrDevices;
  }

  lemma InfosOfOne(disk: Device, before: seq<Info>)
    ensures [InfoOf(disk)] + before == Infos([disk]) + before
  {
  }

  lemma InfosOfNone(before: seq<Info>)
    ensures Infos([]) + before == before
  {
  }

  lemma AllStep(names: seq<cstring>, i: nat, open: cstring -> Option<Disk>)
    requires i < |names| && Openable(names, open) && Openable(Reverse(names[..i]), open)
    ensures Openable(Reverse(names[..i + 1]), open)
    ensures Infos(AllDevices(Reverse(names[..i + 1]), open))
            == Infos(DevicesNamed(names[i], open)) + Infos(AllDevices(Reverse(names[..i]), open))
  {
    var name, done := names[i], Reverse(names[..i]);
    ReverseAppend(names[..i], name);
    assert names[..i + 1] == names[..i] + [name];
    assert ([name] + done)[1..] == done;
    InfosConcat(DevicesNamed(name, open), AllDevices(done, open));
    hide Infos, DevicesNamed;
  }

  /** The list that the probes prepend to. */
  class DeviceList {
    var infos: seq<Info>

    constructor ()
      ensures infos == []
    {
      infos := [];
    }

    /** probe_gpt_devices */
    method ProbeGpt(d: Disk, name: cstring) returns (ok: bool)
      requires name != [] && GptMakesSense(d)
      modifies this
      ensures infos == Infos(GptDevices(d, name).0) + old(infos) && ok == GptDevices(d, name).1
    {
      hide Listed, Infos, Lookup, UuidText, PartPath, DiskPath, FromLe32;
      ghost var before := infos;
      InfosOfNone(infos);
      var block := Read(d, 0, 512);
      if block.None? || !HasBootSignature(block.value) || !IsProtective(block.value) {
        return false;
      }
      var header := Read(d, 512, 512);
      if header.None? || header.value[..8] != GPT_SIGNATURE {
        return false;
      }
      assert GptHeader(d) == header;
      ghost var disk := Device(WholeDisk, DiskPath(name), Gpt(header.value[56..72]));
      infos := [Info(WholeDisk, DiskPath(name), UuidText(header.value[56..72]))] + infos;
      InfosOfOne(disk, before);
      var count, size := FromLe32(header.value[80..84]), FromLe32(header.value[84..88]);
      if count > 256 {
        return false;
      }
      var table := Read(d, 1024, Offset(size, count));
      if table.None? {
        return false;
      }
      ghost var t := GptTable(table.value, size, count);
      GptLoop(name, table.value, size, count);
      ProbeDone(Listed(name, t, 1), disk, before);
      return true;
    }

    method GptLoop(name: cstring, table: seq<byte>, size: nat, count: nat)
      requires name != [] && GptTable(table, size, count).Valid()
      modifies this
      ensures infos == InFront(name, GptTable(table, size, count), 1, old(infos))
    {
      ghost var t, base := GptTable(table, size, count), infos;
      hide *;
      NothingInFront(name, t, base);
      TableSize(t);
      var i, at := count, Offset(size, count);
      while i > 0
        invariant 0 <= i <= count && at == Offset(size, i)
        invariant infos == InFront(name, t, i + 1, base)
      {
        GptStep(name, table, size, count, i, base);
        at := at - size;
        var empty := AreZeros(table, at, 16);
        if !empty {
          infos := [GptInfo(name, table, at, i)] + infos;
        }
        i := i - 1;
      }
    }

    /** probe_mbr_devices */
    method ProbeMbr(d: Disk, name: cstring) returns (ok: bool)
      requires name != []
      modifies this
      ensures infos == Infos(MbrDevices(d, name).0) + old(infos) && ok == MbrDevices(d, name).1
    {
      hide Infos, Listed, Lookup, PartPath, DiskPath, FromLe32, Hex, ToBe32;
      ghost var before := infos;
      InfosOfNone(infos);
      var mbr := Read(d, 0, 512);
      if mbr.None? || !HasBootSignature(mbr.value) || IsProtective(mbr.value) {
        return false;
      }
      var signature := FromLe32(mbr.value[440..444]);
      ghost var disk := Device(WholeDisk, DiskPath(name), MbrDisk(signature));
      infos := [Info(WholeDisk, DiskPath(name), Hex(ToBe32(signature)))] + infos;
      assert infos == [InfoOf(disk)] + before;
      MbrLoop(name, mbr.value, signature);
      ProbeDone(Listed(name, MbrTable(mbr.value, signature), 1), disk, before);
      return true;
    }

    method MbrLoop(name: cstring, mbr: seq<byte>, signature: word)
      requires name != [] && |mbr| == 512
      modifies this
      ensures infos == InFront(name, MbrTable(mbr, signature), 1, old(infos))
    {
      ghost var t, base := MbrTable(mbr, signature), infos;
      TableSize(t);
      hide *;
      NothingInFront(name, t, base);
      var i, at := 4, 446 + 4 * 16;
      while i > 0
        invariant 0 <= i <= 4 && at == 446 + 16 * i
        invariant infos == InFront(name, t, i + 1, base)
      {
        MbrStep(name, mbr, signature, i, base);
        at := at - 16;
        if mbr[at + 4] != '\0' {
          infos := [Info(Partition, PartPath(name, i), Hex(ToBe32(signature)) + "-" + Hex([i as char]))] + infos;
        }
        i := i - 1;
      }
    }

    /** probe_partitions */
    method ProbePartitions(disk: Option<Disk>, name: cstring) returns (ok: bool)
      requires name != [] && ProbesInside(disk)
      modifies this
      ensures infos == Infos(DevicesOn(disk, name)) + old(infos)
    {
      InfosOfNone(infos);
      if disk.None? {
        return false;
      }
      DevicesOnCases(disk.value, name, infos);
      hide *;
      ok := ProbeMbr(disk.value, name);
      if !ok {
        ok := ProbeGpt(disk.value, name);
      }
    }

    /** probe_block_devices, given the names in the order scandir returns them */
    method ProbeAll(names: seq<cstring>, open: cstring -> Option<Disk>)
      requires Openable(names, open)
      modifies this
      ensures Openable(Reverse(names), open) && infos == Infos(AllDevices(Reverse(names), open))
    {
      infos := [];
      assert names[..0] == [];
      for i := 0 to |names|
        invariant Openable(Reverse(names[..i]), open) && infos == Infos(AllDevices(Reverse(names[..i]), open))
      {
        var name := names[i];
        AllStep(names, i, open);
        assert CanProbe(name, open);
        InfosOfNone(infos);
        hide Infos, AllDevices, Openable, DevicesOn, ProbesInside;
        if name[0] != '.' {
          var _ := ProbePartitions(open(name), name);
        }
      }
      assert names[..|names|] == names;
    }

    /** find_block_device_by_uuid, after the probe */
    method FindByUuid(kind: Kind, text: cstring) returns (path: Option<cstring>)
      ensures path == Lookup(infos, kind, text)
    {
      var i := 0;
      while i < |infos|
        invariant 0 <= i <= |infos|
        invariant Lookup(infos, kind, text) == Lookup(infos[i..], kind, text)
      {
        if kind == infos[i].kind && EqualIgnoringCase(text, infos[i].uuid) {
          return Some(infos[i].path);
        }
        assert infos[i..][1..] == infos[i + 1..];
        i := i + 1;
      }
      return None;
    }
  }

  /** How a script names a device by UUID. */
  function Spec(kind: Kind, text: cstring): cstring {
    if kind == Partition then "PARTUUID=" + text else "DISKUUID=" + text
  }

  lemma ResolveLooksUp(infos: seq<Info>, kind: Kind, text: cstring)
    ensures Resolve(infos, Spec(kind, text)) == Lookup(infos, kind, text)
  {
    hide Lookup;
    assert ("PARTUUID=" + text)[9..] == text && ("DISKUUID=" + text)[9..] == text;
    assert ("DISKUUID=" + text)[0] != "PARTUUID="[0];
  }

  /** A UUID given in any letter case, whatever disks there are: the script sees the
      path of the first device with it, disks by ascending name and partitions by
      ascending number. */
  lemma DevicesAreFound(names: seq<cstring>, open: cstring -> Option<Disk>, kind: Kind, id: Identity, text: cstring)
    requires Openable(names, open) && EqualIgnoringCase(text, IdText(id))
    ensures var all := AllDevices(names, open);
            Resolve(Infos(all), Spec(kind, text))
            == match FirstOf(all, kind, id) case None => None case Some(d) => Some(d.path)
  {
    hide *;
    var all := AllDevices(names, open);
    ResolveLooksUp(Infos(all), kind, text);
    LookupFindsIdentity(all, kind, id, text);
  }
}
