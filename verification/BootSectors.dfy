/** Installing boot code and boot flags in a master boot record, and marking a GPT entry. */
module BootSectors {
  import opened Arithmetic
  import opened CStrings
  import opened ByteStrings

  const SECTOR: nat := 512
  const CODE: nat := 446

  datatype Result =
    | MbrOk | DeviceNotFound | PermissionDenied | InvalidPartition | BootcodeNotFound | WriteFailed
    | NotGpt | DeviceBusy | InvalidBootcodeSize | ReadFailed | SignatureMismatch | TableCorrupt

  /** How stat and then open(O_RDWR) on the device turn out; Missing is a failed stat. */
  datatype Access = Granted | Denied | Busy | Gone | Missing

  /** How many bytes a write gets out, and whether the sync behind it succeeds. */
  datatype WriteAnswer = WriteAnswer(count: nat, synced: bool) {
    predicate Complete(n: nat) {
      count >= n && synced
    }
  }

  function Refusal(a: Access): Result
    requires a != Granted
  {
    match a
    case Denied => PermissionDenied
    case Busy => DeviceBusy
    case Gone => DeviceNotFound
    case Missing => DeviceNotFound
  }

  /** What tells the ways apart: no permission, busy, and not there by either call. */
  predicate RefusedAs(access: Access, r: Result) {
    && (access == Denied <==> r == PermissionDenied) && (access == Busy <==> r == DeviceBusy)
    && (access == Gone || access == Missing <==> r == DeviceNotFound)
  }

  /** `data` with `part` written over it at `off`. */
  function Patch(data: Bytes, off: nat, part: Bytes): (r: Bytes)
    requires off + |part| <= |data|
    ensures |r| == |data| && r[off..off + |part|] == part
    ensures forall i :: 0 <= i < |data| && !(off <= i < off + |part|) ==> r[i] == data[i]
  {
    data[..off] + part + data[off + |part|..]
  }

  class BlockDevice {
    var data: Bytes

    constructor (data: Bytes)
      ensures this.data == data
    {
      this.data := data;
    }

    method Read(off: nat, n: nat) returns (s: Bytes)
      ensures s == Slice(data, off, n)
    {
      s := Slice(data, off, n);
    }

    /** A write may stop short; what it did get out stays on the device. */
    method Write(off: nat, part: Bytes, a: WriteAnswer) returns (ok: bool)
      requires off + |part| <= |data|
      modifies this
      ensures ok <==> a.Complete(|part|)
      ensures data == Patch(old(data), off, if a.count < |part| then part[..a.count] else part)
    {
      data := Patch(data, off, if a.count < |part| then part[..a.count] else part);
      ok := a.Complete(|part|);
    }
  }

  // ---------- what the two edits make of a sector ----------

  const SIGNATURE: Bytes := [0x55, 0xAA]

  /** The boot code, the old partition table, and the boot signature. */
  function WithCode(sector: Bytes, code: Bytes): (r: Bytes)
    requires |sector| == SECTOR && |code| == CODE
    ensures |r| == SECTOR
  {
    code + sector[CODE..510] + SIGNATURE
  }

  /** Where the flag byte of entry `i`, counted from 0, stands. */
  function FlagAt(i: nat): nat {
    CODE + 16 * i
  }

  predicate IsFlag(at: nat) {
    at == FlagAt(0) || at == FlagAt(1) || at == FlagAt(2) || at == FlagAt(3)
  }

  /** Entry `active`, counted from 1, is flagged and the other three are not. */
  function WithFlag(sector: Bytes, active: nat): (r: Bytes)
    requires |sector| == SECTOR && 1 <= active <= 4
    ensures |r| == SECTOR
  {
    seq(SECTOR, i requires 0 <= i < SECTOR =>
      if IsFlag(i) then (if i == FlagAt(active - 1) then 0x80 else 0x00) else sector[i])
  }

  function Signature(sector: Bytes): nat
    requires |sector| == SECTOR
  {
    Le16(sector[510..])
  }

  lemma CodeGivesSignature(sector: Bytes, code: Bytes)
    requires |sector| == SECTOR && |code| == CODE
    ensures Signature(WithCode(sector, code)) == 0xAA55
  {
  }

  /** What a whole installation leaves in the sector, byte by byte. */
  lemma InstalledBytes(sector: Bytes, code: Bytes, active: nat)
    requires |sector| == 512 && |code| == 446 && 1 <= active <= 4
    ensures var r := WithFlag(WithCode(sector, code), active);
            && |r| == 512 && r[..446] == code && r[510] == 0x55 && r[511] == 0xAA
            && r[446] == (if active == 1 then 0x80 else 0x00) && r[462] == (if active == 2 then 0x80 else 0x00)
            && r[478] == (if active == 3 then 0x80 else 0x00) && r[494] == (if active == 4 then 0x80 else 0x00)
            && forall i :: 446 <= i < 510 && i != 446 && i != 462 && i != 478 && i != 494 ==> r[i] == sector[i]
  {
  }

  /** Installing again changes nothing. */
  lemma InstallIdempotent(sector: Bytes, code: Bytes, active: nat)
    requires |sector| == SECTOR && |code| == CODE && 1 <= active <= 4
    ensures var r := WithFlag(WithCode(sector, code), active);
            WithFlag(WithCode(r, code), active) == r
  {
  }

  // ---------- the edits on a device ----------

  /** The device after a write of its first sector, which may have stopped part of the way. */
  function Edited(before: Bytes, sector: Bytes, a: WriteAnswer): (after: Bytes)
    requires |before| >= SECTOR && |sector| == SECTOR
    ensures |after| == |before| && after[SECTOR..] == before[SECTOR..]
    ensures a.count >= SECTOR ==> after[..SECTOR] == sector
  {
    var k := if a.count < SECTOR then a.count else SECTOR;
    sector[..k] + before[k..]
  }

  /** write_mbr */
  method WriteSector(dev: BlockDevice, sector: array<byte>, a: WriteAnswer) returns (ok: bool)
    requires |dev.data| >= SECTOR && sector.Length == SECTOR
    modifies dev
    ensures ok <==> a.Complete(SECTOR)
    ensures dev.data == Edited(old(dev.data), sector[..], a)
  {
    ok := dev.Write(0, sector[..], a);
  }

  /** There is a first sector to edit, and boot code of the right size for it. */
  predicate CodeFits(data: Bytes, code: Option<Bytes>) {
    |data| >= SECTOR && code.Some? && |code.value| == CODE
  }

  function CodeWritten(data: Bytes, code: Option<Bytes>, a: WriteAnswer): Bytes
    requires CodeFits(data, code)
  {
    Edited(data, WithCode(data[..SECTOR], code.value), a)
  }

  /** install_mbr_bootcode; `code` is the boot code file, None when there is none. */
  method InstallBootcode(dev: BlockDevice, code: Option<Bytes>, access: Access, a: WriteAnswer) returns (r: Result)
    modifies dev
    ensures r == MbrOk <==> CodeFits(old(dev.data), code) && access == Granted && a.Complete(SECTOR)
    ensures r == WriteFailed <==> CodeFits(old(dev.data), code) && access == Granted && !a.Complete(SECTOR)
    ensures dev.data == if r == MbrOk || r == WriteFailed then CodeWritten(old(dev.data), code, a) else old(dev.data)
    ensures r == BootcodeNotFound <==> access != Missing && code.None?
    ensures r == InvalidBootcodeSize <==> access != Missing && code.Some? && |code.value| != CODE
    ensures r != SignatureMismatch && r != InvalidPartition
    ensures (code.Some? && |code.value| == 446 && access != Granted) || access == Missing ==> RefusedAs(access, r)
  {
    if access == Missing {
      return DeviceNotFound;
    }
    if code.None? {
      return BootcodeNotFound;
    }
    if |code.value| != CODE {
      return InvalidBootcodeSize;
    }
    if access != Granted {
      return Refusal(access);
    }
    var current := dev.Read(0, SECTOR);
    if |current| != SECTOR {
      return ReadFailed;
    }
    var mbr := new byte[SECTOR](i requires 0 <= i < SECTOR => current[i]);
    assert mbr[..] == current;
    PutCode(mbr, code.value);
    var ok := WriteSector(dev, mbr, a);
    r := if ok then MbrOk else WriteFailed;
  }

  /** The edit in the buffer: copy the code in, then see to the signature. */
  method PutCode(mbr: array<byte>, code: Bytes)
    requires mbr.Length == SECTOR && |code| == CODE
    modifies mbr
    ensures mbr[..] == WithCode(old(mbr[..]), code)
  {
    ghost var sector := mbr[..];
    for i := 0 to CODE
      invariant forall k :: 0 <= k < i ==> mbr[k] == code[k]
      invariant forall k :: i <= k < SECTOR ==> mbr[k] == sector[k]
    {
      mbr[i] := code[i];
    }
    if (mbr[510] as int) + 0x100 * (mbr[511] as int) != 0xAA55 {
      mbr[510] := 0x55;
      mbr[511] := 0xAA;
    }
    SignatureBytes(mbr[510], mbr[511]);
    assert mbr[..] == code + sector[CODE..510] + [mbr[510], mbr[511]];
  }

  lemma SignatureBytes(low: byte, high: byte)
    ensures (low as int) + 0x100 * (high as int) == 0xAA55 <==> low == 0x55 && high == 0xAA
  {
  }

  /** There is a first sector with a boot signature, and it has such an entry. */
  predicate FlagFits(data: Bytes, active: int) {
    |data| >= SECTOR && 1 <= active <= 4 && Signature(data[..SECTOR]) == 0xAA55
  }

  function FlagWritten(data: Bytes, active: int, a: WriteAnswer): Bytes
    requires FlagFits(data, active)
  {
    Edited(data, WithFlag(data[..SECTOR], active), a)
  }

  /** set_boot_flag */
  method SetBootFlag(dev: BlockDevice, active: int, access: Access, a: WriteAnswer) returns (r: Result)
    modifies dev
    ensures r == InvalidPartition <==> !(1 <= active <= 4)
    ensures r == MbrOk <==> FlagFits(old(dev.data), active) && access == Granted && a.Complete(SECTOR)
    ensures r == WriteFailed <==> FlagFits(old(dev.data), active) && access == Granted && !a.Complete(SECTOR)
    ensures dev.data == if r == MbrOk || r == WriteFailed then FlagWritten(old(dev.data), active, a) else old(dev.data)
    ensures 1 <= active <= 4 && access != Granted ==> RefusedAs(access, r)
    ensures r == SignatureMismatch <==>
              && 1 <= active <= 4 && access == Granted && |old(dev.data)| >= SECTOR
              && Signature(old(dev.data)[..SECTOR]) != 0xAA55
  {
    if active < 1 || active > 4 {
      return InvalidPartition;
    }
    if access != Granted {
      return Refusal(access);
    }
    var current := dev.Read(0, SECTOR);
    if |current| != SECTOR {
      return ReadFailed;
    }
    var mbr := new byte[SECTOR](i requires 0 <= i < SECTOR => current[i]);
    assert mbr[..] == current;
    PutFlags(mbr, active);
    assert mbr[510] == current[510..][0] && mbr[511] == current[510..][1];
    if (mbr[510] as int) + 0x100 * (mbr[511] as int) != 0xAA55 {
      return SignatureMismatch;
    }
    var ok := WriteSector(dev, mbr, a);
    r := if ok then MbrOk else WriteFailed;
  }

  /** The edit in the buffer: one flag set, three cleared. */
  method PutFlags(mbr: array<byte>, active: nat)
    requires mbr.Length == SECTOR && 1 <= active <= 4
    modifies mbr
    ensures mbr[..] == WithFlag(old(mbr[..]), active)
  {
    ghost var sector := mbr[..];
    for i := 0 to 4
      invariant forall k :: 0 <= k < SECTOR && !IsFlag(k) ==> mbr[k] == sector[k]
      invariant forall e :: 0 <= e < i ==> mbr[FlagAt(e)] == if e == active - 1 then 0x80 else 0x00
    {
      mbr[FlagAt(i)] := if i == active - 1 then 0x80 else 0x00;
    }
    forall k | 0 <= k < SECTOR
      ensures mbr[k] == WithFlag(sector, active)[k]
    {
      if IsFlag(k) {
        var e := (k - CODE) / 16;
        assert k == FlagAt(e) && 0 <= e < 4;
      }
    }
  }

  /** The first of the two writes goes through. */
  predicate CodeInstalled(data: Bytes, code: Option<Bytes>, first: Access, a: WriteAnswer) {
    CodeFits(data, code) && first == Granted && a.Complete(SECTOR)
  }

  /**
    install_mbr_bootloader without GPT. A signature mismatch cannot occur. A bad partition number,
    or a second open that is refused, is only noticed after the boot code has been written.
   */
  method InstallBootloader(dev: BlockDevice, code: Option<Bytes>, active: int,
                           first: Access, second: Access, a: WriteAnswer, b: WriteAnswer) returns (r: Result)
    modifies dev
    ensures r == MbrOk <==>
              && CodeInstalled(old(dev.data), code, first, a)
              && 1 <= active <= 4 && second == Granted && b.Complete(SECTOR)
    ensures r != SignatureMismatch
    ensures r == InvalidPartition <==> CodeInstalled(old(dev.data), code, first, a) && !(1 <= active <= 4)
    ensures dev.data == Afterwards(old(dev.data), code, active, first, second, a, b)
  {
    ghost var data := dev.data;
    r := InstallBootcode(dev, code, first, a);
    if r != MbrOk {
      return;
    }
    CodeGivesFlagFits(data, code, active, a);
    r := SetBootFlag(dev, active, second, b);
  }

  /** What a call makes of the device, whether or not it succeeds. */
  function Afterwards(data: Bytes, code: Option<Bytes>, active: int, first: Access, second: Access,
                      a: WriteAnswer, b: WriteAnswer): Bytes
  {
    if !CodeFits(data, code) || first != Granted then data
    else
      var coded := CodeWritten(data, code, a);
      if !a.Complete(SECTOR) || !(1 <= active <= 4) || second != Granted then coded
      else
        CodeGivesFlagFits(data, code, active, a);
        FlagWritten(coded, active, b)
  }

  lemma CodeGivesFlagFits(data: Bytes, code: Option<Bytes>, active: int, a: WriteAnswer)
    requires CodeFits(data, code) && a.Complete(SECTOR)
    ensures var coded := CodeWritten(data, code, a);
            && coded[..SECTOR] == WithCode(data[..SECTOR], code.value)
            && (1 <= active <= 4 ==> FlagFits(coded, active))
  {
    CodeGivesSignature(data[..SECTOR], code.value);
  }

  /** After a success, the first sector is the installed one and nothing else has changed. */
  lemma SuccessInstalls(data: Bytes, code: Option<Bytes>, active: int, a: WriteAnswer, b: WriteAnswer)
    requires CodeFits(data, code) && 1 <= active <= 4 && a.Complete(SECTOR) && b.Complete(SECTOR)
    ensures Afterwards(data, code, active, Granted, Granted, a, b)
            == WithFlag(WithCode(data[..SECTOR], code.value), active) + data[SECTOR..]
  {
    CodeGivesFlagFits(data, code, active, a);
    var coded := CodeWritten(data, code, a);
    var after := Afterwards(data, code, active, Granted, Granted, a, b);
    assert after == after[..SECTOR] + after[SECTOR..];
  }

  /**
    A call that fails behind the first write, for a bad number or a refused open, has changed the
    device exactly when the boot code and signature were not there already.
   */
  lemma FailureChangesExactly(data: Bytes, code: Option<Bytes>, active: int, second: Access,
                              a: WriteAnswer, b: WriteAnswer)
    requires CodeInstalled(data, code, Granted, a) && (!(1 <= active <= 4) || second != Granted)
    ensures Afterwards(data, code, active, Granted, second, a, b) != data <==>
            data[..CODE] != code.value || data[510..SECTOR] != SIGNATURE
  {
    CodeGivesFlagFits(data, code, active, a);
    var sector, installed := data[..SECTOR], WithCode(data[..SECTOR], code.value);
    assert installed[..CODE] == code.value && installed[510..] == SIGNATURE && installed[CODE..510] == sector[CODE..510];
    assert sector == sector[..CODE] + sector[CODE..510] + sector[510..];
    assert installed == installed[..CODE] + installed[CODE..510] + installed[510..];
    assert sector[..CODE] == data[..CODE] && sector[510..] == data[510..SECTOR];
    var after := Afterwards(data, code, active, Granted, second, a, b);
    assert data == sector + data[SECTOR..] && after == installed + data[SECTOR..];
    assert after[..SECTOR] == installed;
  }

  // ---------- GPT entries ----------

  const U64 := 0x1_0000_0000_0000_0000

  /** The type GUID as the program writes it. */
  const EFI_SYSTEM: Bytes := [0xC1, 0x2A, 0x73, 0x28, 0xF8, 0x1F, 0x11, 0xD2,
                              0xBA, 0x4B, 0x00, 0xA0, 0xC9, 0x3E, 0xC9, 0x3B]

  const EFI_PART: Bytes := [0x45, 0x46, 0x49, 0x20, 0x50, 0x41, 0x52, 0x54]

  function Le64(b: Bytes): nat
    requires |b| >= 8
  {
    Le32(b[..4]) + 0x1_0000_0000 * Le32(b[4..8])
  }

  /** Where entry `number`, counted from 1, is looked for: in 64 bits, so the sum wraps around. */
  function EntryOffset(lba: nat, size: nat, number: nat): (off: nat)
    requires number >= 1
    ensures off < U64
  {
    (lba * 512 % U64 + (number - 1) * size) % U64
  }

  predicate SizeOk(size: nat) {
    128 <= size <= 512
  }

  /** What a write of the changed entry leaves: the 16 type bytes are new on success, and no byte
      outside of those is ever another one. */
  ghost predicate Retyped(before: Bytes, after: Bytes, off: nat, done: bool) {
    && off + 16 <= |before| == |after|
    && (done ==> after == Patch(before, off, EFI_SYSTEM))
    && forall i :: 0 <= i < |after| && !(off <= i < off + 16) ==> after[i] == before[i]
  }

  lemma Unfinished(before: Bytes, after: Bytes, off: nat, done: bool)
    requires Retyped(before, after, off, done)
    ensures Retyped(before, after, off, false)
  {
  }

  /** Writing back an entry that starts with the new type, whole or in part, is such an edit. */
  lemma WriteRetypes(data: Bytes, off: nat, entry: Bytes, count: nat)
    requires |entry| >= 16 && off + |entry| <= |data| && entry == data[off..off + |entry|]
    requires count <= |entry|
    ensures var changed := EFI_SYSTEM + entry[16..];
            Retyped(data, Patch(data, off, changed[..count]), off, count == |entry|)
  {
    var changed := EFI_SYSTEM + entry[16..];
    var after := Patch(data, off, changed[..count]);
    forall i | 0 <= i < |data| && !(off <= i < off + 16)
      ensures after[i] == data[i]
    {
      if off <= i < off + count {
        assert changed[..count][i - off] == changed[i - off] == entry[16..][i - off - 16] == entry[i - off];
      }
    }
    if count == |entry| {
      assert changed[..count] == changed;
      assert after == Patch(data, off, EFI_SYSTEM);
    }
  }

  /** The header names a table, and the table has such an entry, in use, inside the device. */
  predicate EntryFits(data: Bytes, number: int) {
    && |data| >= 1024 && data[512..520] == EFI_PART && 1 <= number <= 128
    && var size, off := HeaderSize(data), HeaderOffset(data, number);
       SizeOk(size) && off < U64 / 2 && off + size <= |data| && data[off + 48] % 2 == 1
  }

  function HeaderSize(data: Bytes): nat
    requires |data| >= 1024
  {
    Le32(data[596..600])
  }

  function HeaderOffset(data: Bytes, number: int): nat
    requires |data| >= 1024 && number >= 1
  {
    EntryOffset(Le64(data[584..592]), HeaderSize(data), number)
  }

  /** mark_efi_system_partition */
  method MarkEfi(dev: BlockDevice, number: int, access: Access, a: WriteAnswer) returns (r: Result)
    modifies dev
    ensures r == MbrOk || r == WriteFailed <==> EntryFits(old(dev.data), number) && access == Granted
    ensures r == MbrOk || r == WriteFailed ==>
              && (r == MbrOk <==> a.Complete(HeaderSize(old(dev.data))))
              && Retyped(old(dev.data), dev.data, HeaderOffset(old(dev.data), number), r == MbrOk)
    ensures r != MbrOk && r != WriteFailed ==> dev.data == old(dev.data)
    // Which test fails is told, in this order.
    ensures var data := old(dev.data);
            if !(1 <= number <= 128) then r == InvalidPartition
            else if access != Granted then RefusedAs(access, r)
            else if |data| < 1024 then r == ReadFailed
            else if data[512..520] != EFI_PART then r == NotGpt
            else if HeaderSize(data) < 128 || HeaderSize(data) > 512 then r == TableCorrupt
            else
              var off := HeaderOffset(data, number);
              if off >= U64 / 2 || off + HeaderSize(data) > |data| then r == ReadFailed
              else (r == InvalidPartition <==> data[off + 48] % 2 == 0)
  {
    hide Retyped, Patch;
    if number < 1 || number > 128 {
      return InvalidPartition;
    }
    if access != Granted {
      return Refusal(access);
    }
    var header := dev.Read(512, 512);
    if |header| != 512 {
      return ReadFailed;
    }
    HeaderFields(dev.data, header);
    if header[..8] != EFI_PART {
      return NotGpt;
    }
    var size := Le32(header[84..88]);
    if size < 128 || size > 512 {
      return TableCorrupt;
    }
    var off := EntryOffset(Le64(header[72..80]), size, number);
    if off >= U64 / 2 {
      return ReadFailed;
    }
    r := RewriteEntry(dev, off, size, a);
  }

  lemma HeaderFields(data: Bytes, header: Bytes)
    requires |header| == 512 && header == Slice(data, 512, 512)
    ensures |data| >= 1024 && header[..8] == data[512..520]
    ensures header[72..80] == data[584..592] && header[84..88] == data[596..600]
  {
    assert header == data[512..1024];
    InSector(data, 0, 8);
    InSector(data, 72, 80);
    InSector(data, 84, 88);
  }

  /** Reads the entry, checks that it is in use, and writes it back with the new type. */
  method RewriteEntry(dev: BlockDevice, off: nat, size: nat, a: WriteAnswer) returns (r: Result)
    requires SizeOk(size)
    modifies dev
    ensures r in {MbrOk, WriteFailed, ReadFailed, InvalidPartition}
    ensures r == MbrOk || r == WriteFailed <==> off + size <= |old(dev.data)| && old(dev.data)[off + 48] % 2 == 1
    ensures r == MbrOk || r == WriteFailed ==>
              && (r == MbrOk <==> a.Complete(size))
              && Retyped(old(dev.data), dev.data, off, r == MbrOk)
    ensures r != MbrOk && r != WriteFailed ==> dev.data == old(dev.data)
    ensures r == ReadFailed <==> off + size > |old(dev.data)|
  {
    hide Retyped, Patch;
    ghost var data := dev.data;
    var entry := dev.Read(off, size);
    if |entry| != size {
      return ReadFailed;
    }
    if entry[48] % 2 == 0 {
      return InvalidPartition;
    }
    var changed := EFI_SYSTEM + entry[16..];
    WriteRetypes(data, off, entry, if a.count < size then a.count else size);
    assert changed[..size] == changed;
    var ok := dev.Write(off, changed, a);
    Unfinished(data, dev.data, off, a.count >= size);
    r := if ok then MbrOk else WriteFailed;
  }

  /** How far into the table entry `number` starts. */
  lemma IntoTable(size: nat, number: nat)
    requires SizeOk(size) && 1 <= number <= 128
    ensures 0 <= (number - 1) * size <= 127 * 512
  {
    MulMonotone(number - 1, 127, size);
    MulMonotone(size, 512, 127);
  }

  /** Adding less than 2^63 and ending below 2^63 cannot have skipped the second half. */
  lemma NoSkip(base: nat, x: nat, y: nat)
    requires base < U64 && x < y < U64 / 2
    requires (base + x) % U64 < U64 / 2 && (base + y) % U64 < U64 / 2
    ensures (base + y) % U64 - (base + x) % U64 == y - x
  {
  }

  /** The places of two entries of the same table never overlap, wrapped around or not. */
  lemma EntriesDisjoint(lba: nat, size: nat, m: nat, n: nat)
    requires SizeOk(size) && 1 <= m < n <= 128
    requires EntryOffset(lba, size, m) < U64 / 2 && EntryOffset(lba, size, n) < U64 / 2
    ensures EntryOffset(lba, size, m) + size <= EntryOffset(lba, size, n)
  {
    IntoTable(size, m);
    IntoTable(size, n);
    MulMonotone(m, n - 1, size);
    assert m * size == (m - 1) * size + size;
    NoSkip(lba * 512 % U64, (m - 1) * size, (n - 1) * size);
  }

  /** Where a table start and a distance into the table lead, modulo 2^64. */
  lemma WrappedOffset(lba: nat, into: nat)
    requires into <= 127 * 512
    ensures var start := 512 * (lba % (U64 / 512)) + into;
            (lba * 512 % U64 + into) % U64 == if start < U64 then start else start - U64
  {
    var q, s := lba / (U64 / 512), lba % (U64 / 512);
    assert lba * 512 == q * U64 + 512 * s;
    Wrap(q, 512 * s);
  }

  lemma Wrap(q: nat, r: nat)
    requires r < U64
    ensures (q * U64 + r) % U64 == r
  {
  }

  /**
    The protective MBR and the header are out of reach of entry `number` exactly when the table
    starts, in its low 55 bits, at sector 2 or later and the entry does not lie past 2^64 — or far
    enough past it.
   */
  lemma HeaderOutOfReachExactly(lba: nat, size: nat, number: nat)
    requires SizeOk(size) && 1 <= number <= 128
    ensures EntryOffset(lba, size, number) >= 1024 <==>
            var start := 512 * (lba % (U64 / 512)) + (number - 1) * size;
            1024 <= start < U64 || start >= U64 + 1024
  {
    IntoTable(size, number);
    WrappedOffset(lba, (number - 1) * size);
  }

  /** Below sector 2^54 nothing wraps around. */
  lemma OffsetIs(lba: nat, size: nat, number: nat)
    requires SizeOk(size) && 1 <= number <= 128 && lba < 0x40_0000_0000_0000
    ensures EntryOffset(lba, size, number) == lba * 512 + (number - 1) * size
  {
    IntoTable(size, number);
    WrappedOffset(lba, (number - 1) * size);
    Small(lba);
  }

  /** With the table at sector 2 or later, and below 2^54, every entry is where the standard says. */
  lemma HeaderOutOfReach(lba: nat, size: nat, number: nat)
    requires SizeOk(size) && 1 <= number <= 128 && 2 <= lba < 0x40_0000_0000_0000
    ensures EntryOffset(lba, size, number) == lba * 512 + (number - 1) * size >= 1024
  {
    IntoTable(size, number);
    OffsetIs(lba, size, number);
  }

  lemma Small(lba: nat)
    requires lba < 0x40_0000_0000_0000
    ensures lba % (U64 / 512) == lba
  {
  }

  /** A table said to start at sector 2^55 has its first entry in the boot sector. */
  lemma WrappedTableStart(size: nat)
    requires SizeOk(size)
    ensures EntryOffset(0x80_0000_0000_0000, size, 1) == 0
  {
  }

  // ---------- the header, field by field ----------

  /** The GPT header of table 5-5 in section 5.3.2 of the UEFI Specification 2.10; `unused` fills its sector. */
  datatype GptHeader = GptHeader(
    revision: nat, headerSize: nat, headerCrc: nat, reserved: nat,
    myLba: nat, alternateLba: nat, firstUsable: nat, lastUsable: nat,
    diskGuid: Bytes, tableLba: nat, entries: nat, entrySize: nat, tableCrc: nat, unused: Bytes)

  predicate HeaderOk(h: GptHeader) {
    && h.revision < TWO32 && h.headerSize < TWO32 && h.headerCrc < TWO32 && h.reserved < TWO32
    && h.myLba < U64 && h.alternateLba < U64 && h.firstUsable < U64 && h.lastUsable < U64
    && |h.diskGuid| == 16 && h.tableLba < U64 && h.entries < TWO32 && h.entrySize < TWO32 && h.tableCrc < TWO32
    && |h.unused| == 420
  }

  function Put64(x: nat): (b: Bytes)
    requires x < U64
    ensures |b| == 8 && b[..4] == Put32(x % TWO32) && b[4..] == Put32(x / TWO32)
  {
    Put32(x % TWO32) + Put32(x / TWO32)
  }

  lemma Put64ReadsBack(x: nat)
    requires x < U64
    ensures Le64(Put64(x)) == x
  {
    hide Put32, Le32, Put64;
    assert Put64(x)[4..8] == Put64(x)[4..];
  }

  function HeaderFront(h: GptHeader): (b: Bytes)
    requires HeaderOk(h)
    ensures |b| == 72 && b[..8] == EFI_PART
  {
    [0x45, 0x46, 0x49, 0x20, 0x50, 0x41, 0x52, 0x54]
    + Put32(h.revision) + Put32(h.headerSize) + Put32(h.headerCrc) + Put32(h.reserved)
    + Put64(h.myLba) + Put64(h.alternateLba) + Put64(h.firstUsable) + Put64(h.lastUsable) + h.diskGuid
  }

  function EncodeHeader(h: GptHeader): (b: Bytes)
    requires HeaderOk(h)
    ensures |b| == 512
  {
    HeaderFront(h) + Put64(h.tableLba) + Put32(h.entries) + Put32(h.entrySize) + Put32(h.tableCrc) + h.unused
  }

  lemma HeaderPlaces(h: GptHeader)
    requires HeaderOk(h)
    ensures var b := EncodeHeader(h);
            b[..8] == EFI_PART && b[72..80] == Put64(h.tableLba) && b[84..88] == Put32(h.entrySize)
  {
    hide HeaderFront, Put64, Put32;
    assert EncodeHeader(h)[..8] == HeaderFront(h)[..8];
  }

  /** The disk has this header in its second sector. */
  predicate HasHeader(data: Bytes, h: GptHeader) {
    HeaderOk(h) && |data| >= 1024 && data[512..1024] == EncodeHeader(h)
  }

  lemma HeaderOnDisk(data: Bytes, h: GptHeader)
    requires HasHeader(data, h)
    ensures data[512..520] == EFI_PART && data[584..592] == Put64(h.tableLba) && data[596..600] == Put32(h.entrySize)
  {
    HeaderPlaces(h);
    hide EncodeHeader, Put64, Put32;
    InSector(data, 0, 8);
    InSector(data, 72, 80);
    InSector(data, 84, 88);
  }

  lemma InSector(data: Bytes, from: nat, to: nat)
    requires |data| >= 1024 && from <= to <= 512
    ensures data[512..1024][from..to] == data[512 + from..512 + to]
  {
    var sector := data[512..1024];
    assert sector[from..to] == data[512 + from..512 + to];
  }

  /**
    On every disk with such a header, and its table below sector 2^54, the entry that is addressed is
    the one the standard numbers so: of the table the header names, and by the size it gives. It is
    edited exactly if it lies on the disk and its first attribute bit is set.
   */
  lemma AddressesEntry(data: Bytes, h: GptHeader, number: nat)
    requires HasHeader(data, h) && SizeOk(h.entrySize) && 1 <= number <= 128 && h.tableLba < 0x40_0000_0000_0000
    ensures HeaderSize(data) == h.entrySize
    ensures HeaderOffset(data, number) == h.tableLba * 512 + (number - 1) * h.entrySize
    ensures var off := h.tableLba * 512 + (number - 1) * h.entrySize;
            EntryFits(data, number) <==>
            off < U64 / 2 && off + h.entrySize <= |data| && data[off + 48] % 2 == 1
  {
    HeaderOnDisk(data, h);
    Put64ReadsBack(h.tableLba);
    OffsetIs(h.tableLba, h.entrySize, number);
    hide EncodeHeader, Put64, Put32, Le32, Le64, EntryOffset;
  }

  // ---------- the type that is written ----------

  /** A GUID as appendix A of the same specification lays it out: the first three parts little-endian. */
  function GuidBytes(a: nat, b: nat, c: nat, rest: Bytes): Bytes
    requires a < TWO32 && b < TWO16 && c < TWO16 && |rest| == 8
  {
    Put32(a) + Put16(b) + Put16(c) + rest
  }

  /** The type written is not the C12A7328-F81F-11D2-BA4B-00A0C93EC93B it is meant to be, but another GUID. */
  lemma TypeMisspelt()
    ensures var rest: Bytes := [0xBA, 0x4B, 0x00, 0xA0, 0xC9, 0x3E, 0xC9, 0x3B];
            && EFI_SYSTEM != GuidBytes(0xC12A7328, 0xF81F, 0x11D2, rest)
            && EFI_SYSTEM == GuidBytes(0x28732AC1, 0x1FF8, 0xD211, rest)
  {
    var rest: Bytes := [0xBA, 0x4B, 0x00, 0xA0, 0xC9, 0x3E, 0xC9, 0x3B];
    assert GuidBytes(0xC12A7328, 0xF81F, 0x11D2, rest)[0] == Put32(0xC12A7328)[0] == 0x28;
    assert Put32(0x28732AC1) == [0xC1, 0x2A, 0x73, 0x28];
    assert Put16(0x1FF8) == [0xF8, 0x1F] && Put16(0xD211) == [0x11, 0xD2];
  }
}
