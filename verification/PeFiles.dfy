/** Reading sections and signatures out of PE/COFF images: two independent walkers and an encoder. */
module PeFiles {
  import opened CStrings
  import opened ByteStrings

  class BinFile {
    const data: Bytes
    var pos: nat

    constructor (data: Bytes)
      ensures this.data == data && pos == 0
    {
      this.data, pos := data, 0;
    }

    method Read(n: nat) returns (s: Bytes)
      modifies this
      ensures s == Slice(data, old(pos), n) && pos == old(pos) + |s|
    {
      s := Slice(data, pos, n);
      pos := pos + |s|;
    }

    method Seek(off: nat)
      modifies this
      ensures pos == off
    {
      pos := off;
    }
  }

  // ---------- what the walkers compute ----------

  /** The bytes of a name field up to its first NUL. */
  function CName(field: Bytes): Bytes {
    if field == [] || field[0] == 0 then [] else [field[0]] + CName(field[1..])
  }

  /** The name a caller asks for, cut to the eight bytes of the field. */
  function Wanted(name: Bytes): Bytes {
    CName(if |name| <= 8 then name else name[..8])
  }

  const MZ: Bytes := [0x4D, 0x5A]
  const PE_SIGNATURE: Bytes := [0x50, 0x45, 0, 0]

  datatype Header = Header(sections: nat, optSize: nat, optStart: nat) {
    function Table(): nat {
      optStart + optSize
    }
  }

  /** The header as a walker sees it that needs `need` of the 24 bytes at the PE signature. */
  function ParseHeader(data: Bytes, need: nat): Option<Header>
    requires 22 <= need
  {
    if |data| < 64 || data[..2] != MZ then None
    else
      var at := Le32(data[60..64]);
      if at + need > |data| || data[at..at + 4] != PE_SIGNATURE then None
      else Some(Header(Le16(data[at + 6..at + 8]), Le16(data[at + 20..at + 22]), at + 24))
  }

  /** Section number `at` was found and holds these bytes. */
  datatype Lookup = Broken | Absent | Found(at: nat, bytes: Bytes)

  function VirtualSize(header: Bytes): nat requires |header| >= 24 { Le32(header[8..12]) }

  function RawSize(header: Bytes): nat requires |header| >= 24 { Le32(header[16..20]) }

  function RawOffset(header: Bytes): nat requires |header| >= 24 { Le32(header[20..24]) }

  /** How many bytes a section has: its raw data, less the padding behind the virtual size. */
  function Extent(sh: Bytes): nat
    requires |sh| == 40
  {
    if 0 < VirtualSize(sh) < RawSize(sh) then VirtualSize(sh) else RawSize(sh)
  }

  /** The bytes of section `i` with this header. */
  function Answer(data: Bytes, sh: Bytes, i: nat): Lookup
    requires |sh| == 40
  {
    var bytes := Slice(data, RawOffset(sh), Extent(sh));
    if |bytes| != Extent(sh) then Broken else Found(i, bytes)
  }

  /** pe_read_section from section `i` on. */
  function Search(data: Bytes, h: Header, want: Bytes, i: nat): Lookup
    requires i <= h.sections
    decreases h.sections - i
  {
    if i == h.sections then Absent
    else
      var sh := Slice(data, h.Table() + 40 * i, 40);
      if |sh| != 40 then Broken
      else if CName(sh[..8]) == want then Answer(data, sh, i)
      else Search(data, h, want, i + 1)
  }

  function ReadSection(data: Bytes, name: Bytes): Lookup {
    var h := ParseHeader(data, 24);
    if h.None? then Broken else Search(data, h.value, Wanted(name), 0)
  }

  const SBAT: Bytes := [0x2E, 0x73, 0x62, 0x61, 0x74]

  /** pki_read_sbat from section `i` on, into a buffer with room for `room` bytes and a NUL. */
  function SearchSbat(data: Bytes, h: Header, room: nat, i: nat): Lookup
    requires i <= h.sections
    decreases h.sections - i
  {
    if i == h.sections then Absent
    else
      var sh := Slice(data, h.Table() + 40 * i, 24);
      if |sh| != 24 then Broken
      else if CName(sh[..8]) == SBAT then
        if RawSize(sh) == 0 || RawOffset(sh) == 0 then Found(i, [])
        else Found(i, Slice(data, RawOffset(sh), if RawSize(sh) < room then RawSize(sh) else room))
      else SearchSbat(data, h, room, i + 1)
  }

  function ReadSbat(data: Bytes, room: nat): Lookup {
    var h := ParseHeader(data, 22);
    if h.None? then Broken else SearchSbat(data, h.value, room, 0)
  }

  /** pki_is_signed; None is its -1. */
  function IsSigned(data: Bytes): Option<bool> {
    var h := ParseHeader(data, 22);
    if h.None? then None
    else if h.value.optSize < 4 then Some(false)
    else
      var magic := Slice(data, h.value.optStart, 2);
      if |magic| != 2 then None
      else if Le16(magic) != 0x10B && Le16(magic) != 0x20B then None
      else
        var directory := h.value.optStart + (if Le16(magic) == 0x10B then 96 else 112);
        var entry := Slice(data, directory + 4 * 8, 8);
        if |entry| != 8 then None
        else Some(Le32(entry[..4]) != 0 && Le32(entry[4..]) != 0)
  }

  // ---------- the walkers ----------

  /** The opening part of pe_read_section: leaves the file at the section table. */
  method OpenImage(f: BinFile) returns (h: Option<Header>)
    requires f.pos == 0
    modifies f
    ensures h == ParseHeader(f.data, 24)
    ensures h.Some? ==> f.pos == h.value.Table()
  {
    hide Le16, Le32;
    var data := f.data;
    var dos := f.Read(64);
    if |dos| != 64 {
      return None;
    }
    assert dos[..2] == data[..2] && dos[60..64] == data[60..64];
    if dos[..2] != MZ {
      return None;
    }
    var at := Le32(dos[60..64]);
    f.Seek(at);
    var pe := f.Read(24);
    if |pe| != 24 {
      return None;
    }
    assert pe[..4] == data[at..at + 4];
    if pe[..4] != PE_SIGNATURE {
      return None;
    }
    assert pe[6..8] == data[at + 6..at + 8] && pe[20..22] == data[at + 20..at + 22];
    h := Some(Header(Le16(pe[6..8]), Le16(pe[20..22]), at + 24));
    f.Seek(at + 24 + Le16(pe[20..22]));
  }

  /** pe_read_section; None is a file that cannot be opened. */
  method PeReadSection(file: Option<Bytes>, name: Bytes) returns (r: int, bytes: Bytes)
    ensures file.None? ==> r == -1
    ensures file.Some? ==>
              match ReadSection(file.value, name)
              case Broken => r == -1
              case Absent => r == 1
              case Found(_, found) => r == 0 && bytes == found
  {
    hide Le16, Le32, CName, ParseHeader;
    r, bytes := -1, [];
    if file.None? {
      return;
    }
    var f := new BinFile(file.value);
    var opened_ := OpenImage(f);
    if opened_.None? {
      return;
    }
    var h, want := opened_.value, Wanted(name);
    var i := 0;
    while i < h.sections
      invariant i <= h.sections && f.data == file.value && f.pos == h.Table() + 40 * i && r == -1
      invariant ReadSection(file.value, name) == Search(file.value, h, want, i)
    {
      var sh := f.Read(40);
      if |sh| != 40 {
        return;
      }
      if CName(sh[..8]) == want {
        var vsize, rsize := Le32(sh[8..12]), Le32(sh[16..20]);
        var n := if vsize != 0 && vsize < rsize then vsize else rsize;
        f.Seek(Le32(sh[20..24]));
        bytes := f.Read(n);
        if |bytes| == n {
          r := 0;
        }
        return;
      }
      i := i + 1;
    }
    r := 1;
  }

  /** open_pe: leaves the file at the optional header. */
  method OpenPe(f: BinFile) returns (h: Option<Header>)
    requires f.pos == 0
    modifies f
    ensures h == ParseHeader(f.data, 22)
    ensures h.Some? ==> f.pos == h.value.optStart
  {
    var data := f.data;
    var sig := f.Read(2);
    if |sig| != 2 || sig != MZ {
      assert |data| >= 2 ==> sig == data[..2];
      return None;
    }
    f.Seek(0x3C);
    var b := f.Read(4);
    if |b| != 4 {
      return None;
    }
    var at := Le32(b);
    f.Seek(at);
    sig := f.Read(4);
    if |sig| != 4 || sig != PE_SIGNATURE {
      return None;
    }
    var machine := f.Read(2);
    if |machine| != 2 {
      return None;
    }
    var sections := f.Read(2);
    if |sections| != 2 {
      return None;
    }
    f.Seek(f.pos + 12);
    var optSize := f.Read(2);
    if |optSize| != 2 {
      return None;
    }
    f.Seek(f.pos + 2);
    h := Some(Header(Le16(sections), Le16(optSize), at + 24));
  }

  /** Reads what pki_read_sbat looks at of one table entry, and goes on to the next; None at the end of the file. */
  method ReadEntry(f: BinFile) returns (sh: Option<Bytes>)
    modifies f
    ensures var s := Slice(f.data, old(f.pos), 24); sh == if |s| == 24 then Some(s) else None
    ensures sh.Some? ==> f.pos == old(f.pos) + 40
  {
    ghost var s := Slice(f.data, f.pos, 24);
    var name := f.Read(8);
    var sizes := f.Read(16);
    if |name| != 8 || |sizes| != 16 {
      return None;
    }
    assert s == name + sizes;
    f.Seek(f.pos + 16);
    sh := Some(name + sizes);
  }

  /** The raw data named by a table entry, as much of it as there is room for. */
  method ReadRaw(f: BinFile, sh: Bytes, room: nat) returns (bytes: Bytes)
    requires |sh| == 24
    modifies f
    ensures bytes == if RawSize(sh) == 0 || RawOffset(sh) == 0 then []
                     else Slice(f.data, RawOffset(sh), if RawSize(sh) < room then RawSize(sh) else room)
  {
    hide Le32;
    bytes := [];
    var rawSize, rawOffset := RawSize(sh), RawOffset(sh);
    if rawSize != 0 && rawOffset != 0 {
      f.Seek(rawOffset);
      bytes := f.Read(if rawSize < room then rawSize else room);
    }
  }

  /** The loop of pki_read_sbat over the section table. */
  method FindSbat(f: BinFile, h: Header, room: nat) returns (found: Lookup)
    requires f.pos == h.Table()
    modifies f
    ensures found == SearchSbat(f.data, h, room, 0)
  {
    hide Le32, CName, RawSize, RawOffset;
    var i := 0;
    while i < h.sections
      invariant i <= h.sections && f.pos == h.Table() + 40 * i
      invariant SearchSbat(f.data, h, room, 0) == SearchSbat(f.data, h, room, i)
    {
      var entry := ReadEntry(f);
      if entry.None? {
        return Broken;
      }
      if CName(entry.value[..8]) == SBAT {
        var bytes := ReadRaw(f, entry.value, room);
        return Found(i, bytes);
      }
      i := i + 1;
    }
    found := Absent;
  }

  /** pki_read_sbat into a buffer of `outSize` bytes; `bytes` is what it holds before its NUL. */
  method PkiReadSbat(file: Option<Bytes>, outSize: nat) returns (r: int, bytes: Bytes)
    ensures file.None? || outSize == 0 ==> r == -1
    ensures file.Some? && outSize > 0 ==>
              match ReadSbat(file.value, outSize - 1)
              case Broken => r == -1
              case Absent => r == 0 && bytes == []
              case Found(_, found) => r == |found| && bytes == found
  {
    hide ParseHeader, SearchSbat;
    r, bytes := -1, [];
    if outSize == 0 || file.None? {
      return;
    }
    var f := new BinFile(file.value);
    var opened_ := OpenPe(f);
    if opened_.None? {
      return;
    }
    f.Seek(f.pos + opened_.value.optSize);
    var found := FindSbat(f, opened_.value, outSize - 1);
    match found {
      case Broken =>
      case Absent => r := 0;
      case Found(_, raw) => r, bytes := |raw|, raw;
    }
  }

  /** pki_is_signed. */
  method PkiIsSigned(file: Option<Bytes>) returns (r: int)
    ensures file.None? ==> r == -1
    ensures file.Some? ==>
              match IsSigned(file.value)
              case None => r == -1
              case Some(signed) => r == if signed then 1 else 0
  {
    if file.None? {
      return -1;
    }
    var data := file.value;
    var f := new BinFile(data);
    var opened_ := OpenPe(f);
    if opened_.None? {
      return -1;
    }
    var h := opened_.value;
    if h.optSize < 4 {
      return 0;
    }
    var start := f.pos;
    var magic := f.Read(2);
    if |magic| != 2 {
      return -1;
    }
    var directory;
    if Le16(magic) == 0x10B {
      directory := start + 96;
    } else if Le16(magic) == 0x20B {
      directory := start + 112;
    } else {
      return -1;
    }
    f.Seek(directory + 4 * 8);
    ghost var entry := Slice(data, directory + 4 * 8, 8);
    var address := f.Read(4);
    if |address| != 4 {
      return -1;
    }
    var size := f.Read(4);
    if |size| != 4 {
      return -1;
    }
    assert entry == address + size;
    assert entry[..4] == address && entry[4..] == size;
    r := if Le32(address) != 0 && Le32(size) != 0 then 1 else 0;
  }

  // ---------- the two walkers agree ----------

  /**
    The answers `a` of pe_read_section(".sbat") and `b` of pki_read_sbat with `room` bytes to spare
    agree: they name the same section, and if that section has a file offset they are beginnings of
    the same raw bytes, one empty exactly when the other is.
   */
  ghost predicate Agree(data: Bytes, h: Header, room: nat, a: Lookup, b: Lookup) {
    && (a.Absent? ==> b.Absent?)
    && (a.Found? ==>
          && b.Found? && a.at == b.at && (a.bytes <= b.bytes || b.bytes <= a.bytes)
          && var sh := Slice(data, h.Table() + 40 * a.at, 40);
             && |sh| == 40
             && (RawOffset(sh) == 0 ==> b.bytes == [])
             && (RawOffset(sh) != 0 && |a.bytes| <= room ==> a.bytes <= b.bytes)
             && (RawOffset(sh) != 0 && room > 0 ==> (a.bytes == [] <==> b.bytes == [])))
  }

  lemma {:induction false} SearchesAgree(data: Bytes, h: Header, room: nat, i: nat)
    requires i <= h.sections
    ensures Agree(data, h, room, Search(data, h, SBAT, i), SearchSbat(data, h, room, i))
    decreases h.sections - i
  {
    if i < h.sections {
      var sh := Slice(data, h.Table() + 40 * i, 40);
      if |sh| == 40 {
        var short := Slice(data, h.Table() + 40 * i, 24);
        assert short == sh[..24];
        assert short[..8] == sh[..8] && short[16..20] == sh[16..20] && short[20..24] == sh[20..24];
        hide Le32, CName;
        if CName(sh[..8]) == SBAT {
          AnswersAgree(data, h, room, i);
        } else {
          SearchesAgree(data, h, room, i + 1);
        }
      }
    }
  }

  /** The case of a match. */
  lemma AnswersAgree(data: Bytes, h: Header, room: nat, i: nat)
    requires i < h.sections
    requires var sh := Slice(data, h.Table() + 40 * i, 40); |sh| == 40 && CName(sh[..8]) == SBAT
    ensures Agree(data, h, room, Search(data, h, SBAT, i), SearchSbat(data, h, room, i))
  {
    hide Le32, CName;
    var sh := Slice(data, h.Table() + 40 * i, 40);
    var short := Slice(data, h.Table() + 40 * i, 24);
    assert short == sh[..24];
    assert short[..8] == sh[..8] && short[16..20] == sh[16..20] && short[20..24] == sh[20..24];
  }

  /** The two walkers agree on every file on which pe_read_section does not fail, PE image or not. */
  lemma WalkersAgree(data: Bytes, room: nat)
    ensures var h := ParseHeader(data, 24); var name: Bytes := [0x2E, 0x73, 0x62, 0x61, 0x74];
            && (h.Some? ==> Agree(data, h.value, room, ReadSection(data, name), ReadSbat(data, room)))
            && (h.None? ==> ReadSection(data, name).Broken?)
  {
    hide Le16, Le32, Agree, Search, SearchSbat;
    var h := ParseHeader(data, 24);
    if h.Some? {
      SbatName();
      SearchesAgree(data, h.value, room, 0);
    }
  }

  lemma SbatName()
    ensures Wanted(SBAT) == SBAT
  {
  }

  // ---------- where only the second one answers ----------

  /** Entry `k` of the section table, or what the file has of it. */
  function EntryAt(data: Bytes, h: Header, k: nat): (e: Bytes)
    ensures |e| <= 40
  {
    Slice(data, h.Table() + 40 * k, 40)
  }

  /** The first entry from `i` on that is cut short or called ".sbat". */
  function Stop(data: Bytes, h: Header, i: nat): (j: nat)
    requires i <= h.sections
    ensures i <= j <= h.sections
    ensures forall k :: i <= k < j ==> |EntryAt(data, h, k)| == 40 && CName(EntryAt(data, h, k)[..8]) != SBAT
    ensures j < h.sections ==> |EntryAt(data, h, j)| < 40 || CName(EntryAt(data, h, j)[..8]) == SBAT
    decreases h.sections - i
  {
    if i == h.sections || |EntryAt(data, h, i)| < 40 || CName(EntryAt(data, h, i)[..8]) == SBAT then i
    else Stop(data, h, i + 1)
  }

  /** pe_read_section goes by the entry where it stops. */
  lemma {:induction false} SearchStops(data: Bytes, h: Header, i: nat)
    requires i <= h.sections
    ensures var j := Stop(data, h, i);
            Search(data, h, SBAT, i) ==
            if j == h.sections then Absent
            else if |EntryAt(data, h, j)| < 40 then Broken else Answer(data, EntryAt(data, h, j), j)
    decreases h.sections - i
  {
    hide CName, Answer, Slice;
    if i < Stop(data, h, i) {
      SearchStops(data, h, i + 1);
    }
  }

  /** Enough for pki_read_sbat: it looks at 24 bytes of an entry, and needs a next one only if there is to be one. */
  ghost predicate CanRead(data: Bytes, h: Header, j: nat) {
    var e := EntryAt(data, h, j);
    |e| == 40 || (|e| >= 24 && (CName(e[..8]) == SBAT || j + 1 == h.sections))
  }

  lemma ShortOf(data: Bytes, h: Header, j: nat)
    ensures var short := Slice(data, h.Table() + 40 * j, 24);
            && |short| == (if |EntryAt(data, h, j)| < 24 then |EntryAt(data, h, j)| else 24)
            && (|short| == 24 ==> short[..8] == EntryAt(data, h, j)[..8])
  {
  }

  /** Behind a table entry that is cut short there is nothing. */
  lemma NothingBehind(data: Bytes, h: Header, room: nat, j: nat)
    requires j < h.sections && |EntryAt(data, h, j)| < 40
    ensures SearchSbat(data, h, room, j + 1) == if j + 1 == h.sections then Absent else Broken
  {
    assert |Slice(data, h.Table() + 40 * (j + 1), 24)| == 0;
  }

  /** The case that the walk stops right here. */
  lemma SbatStopsHere(data: Bytes, h: Header, room: nat, i: nat)
    requires i < h.sections && (|EntryAt(data, h, i)| < 40 || CName(EntryAt(data, h, i)[..8]) == SBAT)
    ensures SearchSbat(data, h, room, i).Broken? <==> !CanRead(data, h, i)
  {
    ShortOf(data, h, i);
    if |EntryAt(data, h, i)| < 40 {
      NothingBehind(data, h, room, i);
    }
    hide CName, RawSize, RawOffset, EntryAt, Slice;
  }

  lemma SbatGoesOn(data: Bytes, h: Header, room: nat, i: nat)
    requires i < h.sections && |EntryAt(data, h, i)| == 40 && CName(EntryAt(data, h, i)[..8]) != SBAT
    ensures SearchSbat(data, h, room, i) == SearchSbat(data, h, room, i + 1)
  {
    ShortOf(data, h, i);
    hide CName, RawSize, RawOffset, EntryAt, Slice;
  }

  lemma {:induction false} SbatSearchStops(data: Bytes, h: Header, room: nat, i: nat)
    requires i <= h.sections
    ensures var j := Stop(data, h, i);
            SearchSbat(data, h, room, i).Broken? <==> j < h.sections && !CanRead(data, h, j)
    decreases h.sections - i
  {
    hide CName, EntryAt, CanRead;
    if i < h.sections {
      if i < Stop(data, h, i) {
        SbatGoesOn(data, h, room, i);
        SbatSearchStops(data, h, room, i + 1);
      } else {
        SbatStopsHere(data, h, room, i);
      }
    }
  }

  /** The section's bytes end behind the end of the file. */
  predicate RunsOver(data: Bytes, sh: Bytes)
    requires |sh| == 40
  {
    Extent(sh) > 0 && RawOffset(sh) + Extent(sh) > |data|
  }

  /**
    In the table: the walkers stop at a complete ".sbat" entry whose bytes run over the end, or at one
    cut short that still has its name and sizes and is ".sbat" or the last.
   */
  ghost predicate Lenient(data: Bytes, h: Header) {
    var j := Stop(data, h, 0);
    && j < h.sections && CanRead(data, h, j)
    && (|EntryAt(data, h, j)| == 40 ==> RunsOver(data, EntryAt(data, h, j)))
  }

  /**
    Whenever pki_read_sbat fails, so does pe_read_section(".sbat"). The former answers alone exactly
    in these cases, or when a file without sections ends in the last two bytes of the COFF header.
   */
  lemma OnlyOneAnswers(data: Bytes, room: nat)
    ensures ReadSbat(data, room).Broken? ==> ReadSection(data, SBAT).Broken?
    ensures ReadSection(data, SBAT).Broken? && !ReadSbat(data, room).Broken? <==>
            match ParseHeader(data, 24)
            case Some(h) => Lenient(data, h)
            case None => ParseHeader(data, 22).Some? && ParseHeader(data, 22).value.sections == 0
  {
    SbatName();
    HeadersNest(data);
    hide CName, Le16, Le32, ParseHeader, Search, SearchSbat, Stop, EntryAt;
    match ParseHeader(data, 24) {
      case Some(h) =>
        SearchStops(data, h, 0);
        SbatSearchStops(data, h, room, 0);
      case None =>
        if ParseHeader(data, 22).Some? {
          NoTable(data, room);
        }
    }
  }

  lemma HeadersNest(data: Bytes)
    ensures ParseHeader(data, 24).Some? ==> ParseHeader(data, 22) == ParseHeader(data, 24)
  {
  }

  lemma NoTable(data: Bytes, room: nat)
    requires ParseHeader(data, 24).None? && ParseHeader(data, 22).Some?
    ensures var h := ParseHeader(data, 22).value;
            SearchSbat(data, h, room, 0) == if h.sections == 0 then Absent else Broken
  {
    var h := ParseHeader(data, 22).value;
    assert Slice(data, h.Table(), 24) == [];
  }
}
