/** Image records and their encoding; reading an encoding gives the record back. */
module PeImages {
  import opened CStrings
  import opened ByteStrings
  import opened PeFiles

  /** `rest` is the sixteen header bytes neither walker looks at. */
  datatype Section = Section(name: Bytes, virtualSize: nat, address: nat, raw: Bytes, rest: Bytes)

  /** `dos` and `stub` surround the offset of the PE signature; `coff` is the middle of the COFF header. */
  datatype Image = Image(dos: Bytes, stub: Bytes, machine: nat, coff: Bytes, optional: Bytes,
                         characteristics: nat, sections: seq<Section>)

  /** Each section fits its header. */
  ghost predicate SectionsOk(sections: seq<Section>) {
    forall s :: s in sections ==> SectionOk(s)
  }

  predicate SectionOk(s: Section) {
    |s.name| == 8 && s.virtualSize < TWO32 && s.address < TWO32 && |s.rest| == 16
  }

  /** The raw data of the first `n` sections takes this many bytes. */
  function RawLength(sections: seq<Section>, n: nat): nat
    requires n <= |sections|
  {
    if n == 0 then 0 else RawLength(sections, n - 1) + |sections[n - 1].raw|
  }

  function TableStart(img: Image): nat {
    64 + |img.stub| + 24 + |img.optional|
  }

  function RawStart(img: Image): nat {
    TableStart(img) + 40 * |img.sections|
  }

  ghost predicate ImageOk(img: Image) {
    && |img.dos| == 58 && |img.coff| == 12 && img.machine < TWO16 && img.characteristics < TWO16
    && |img.optional| < TWO16 && |img.sections| < TWO16
    && SectionsOk(img.sections)
    && RawStart(img) + RawLength(img.sections, |img.sections|) < TWO32
  }

  function SectionHeader(s: Section, offset: nat): (b: Bytes)
    requires SectionOk(s) && offset < TWO32 && |s.raw| < TWO32
    ensures |b| == 40
  {
    s.name + Put32(s.virtualSize) + Put32(s.address) + Put32(|s.raw|) + Put32(offset) + s.rest
  }

  /** The first `n` table entries, raw data being laid out section after section from `start` on. */
  function Table(sections: seq<Section>, start: nat, n: nat): (b: Bytes)
    requires n <= |sections| && SectionsOk(sections) && start + RawLength(sections, n) < TWO32
    ensures |b| == 40 * n
  {
    if n == 0 then []
    else Table(sections, start, n - 1) + SectionHeader(sections[n - 1], start + RawLength(sections, n - 1))
  }

  function RawData(sections: seq<Section>, n: nat): (b: Bytes)
    requires n <= |sections|
    ensures |b| == RawLength(sections, n)
  {
    if n == 0 then [] else RawData(sections, n - 1) + sections[n - 1].raw
  }

  function DosHeader(img: Image): (b: Bytes)
    requires ImageOk(img)
    ensures |b| == 64 && b[..2] == [0x4D, 0x5A] && b[60..64] == Put32(64 + |img.stub|)
  {
    [0x4D, 0x5A] + img.dos + Put32(64 + |img.stub|)
  }

  function CoffHeader(img: Image): (b: Bytes)
    requires ImageOk(img)
    ensures |b| == 24 && b[..4] == [0x50, 0x45, 0, 0]
    ensures b[6..8] == Put16(|img.sections|) && b[20..22] == Put16(|img.optional|)
  {
    [0x50, 0x45, 0, 0] + Put16(img.machine) + Put16(|img.sections|) + img.coff
    + Put16(|img.optional|) + Put16(img.characteristics)
  }

  function Head(img: Image): (b: Bytes)
    requires ImageOk(img)
    ensures |b| == TableStart(img)
  {
    DosHeader(img) + img.stub + CoffHeader(img) + img.optional
  }

  function Encode(img: Image): Bytes
    requires ImageOk(img)
  {
    Head(img) + Table(img.sections, RawStart(img), |img.sections|) + RawData(img.sections, |img.sections|)
  }

  // ---------- reading the encoding ----------

  /** `part` stands at `off` in `data`. */
  predicate At(data: Bytes, off: nat, part: Bytes) {
    off + |part| <= |data| && data[off..off + |part|] == part
  }

  lemma AtEnds(a: Bytes, b: Bytes)
    ensures At(a + b, 0, a) && At(a + b, |a|, b)
  {
  }

  lemma AtInside(data: Bytes, off: nat, part: Bytes, k: nat, sub: Bytes)
    requires At(data, off, part) && At(part, k, sub)
    ensures At(data, off + k, sub)
  {
    var window := data[off..off + |part|];
    assert window[k..k + |sub|] == sub;
    forall i | 0 <= i < |sub|
      ensures data[off + k + i] == sub[i]
    {
      assert window[k + i] == window[k..k + |sub|][i];
    }
  }

  lemma AtIsSlice(data: Bytes, off: nat, part: Bytes)
    requires At(data, off, part)
    ensures Slice(data, off, |part|) == part
  {
  }

  /** Where the pieces of an image stand. */
  lemma Pieces(img: Image)
    requires ImageOk(img)
    ensures At(Encode(img), 0, Head(img))
    ensures At(Encode(img), TableStart(img), Table(img.sections, RawStart(img), |img.sections|))
    ensures At(Encode(img), RawStart(img), RawData(img.sections, |img.sections|))
  {
  }

  /** Where the headers of an image stand. */
  lemma HeadPieces(img: Image)
    requires ImageOk(img)
    ensures At(Encode(img), 0, DosHeader(img)) && At(Encode(img), 64 + |img.stub|, CoffHeader(img))
    ensures At(Encode(img), 64 + |img.stub| + 24, img.optional)
  {
    Pieces(img);
    hide At, Encode;
    var dos, coff := DosHeader(img), CoffHeader(img);
    AtEnds(dos + img.stub + coff, img.optional);
    AtEnds(dos + img.stub, coff);
    AtEnds(dos, img.stub);
    AtInside(Encode(img), 0, Head(img), |dos + img.stub + coff|, img.optional);
    AtInside(Encode(img), 0, Head(img), 0, dos + img.stub + coff);
    AtInside(Encode(img), 0, dos + img.stub + coff, |dos + img.stub|, coff);
    AtInside(Encode(img), 0, dos + img.stub + coff, 0, dos + img.stub);
    AtInside(Encode(img), 0, dos + img.stub, 0, dos);
  }

  /** Both walkers read the header the image was encoded with. */
  lemma HeaderReadsBack(img: Image, need: nat)
    requires ImageOk(img) && 22 <= need <= 24
    ensures ParseHeader(Encode(img), need) == Some(Header(|img.sections|, |img.optional|, 64 + |img.stub| + 24))
  {
    HeadPieces(img);
    var data, dos, coff, at := Encode(img), DosHeader(img), CoffHeader(img), 64 + |img.stub|;
    hide DosHeader, CoffHeader, Encode, Put16, Put32, Le16, Le32;
    assert data[..2] == data[0..64][..2] && data[60..64] == data[0..64][60..64];
    assert data[at..at + 4] == data[at..at + 24][..4];
    assert data[at + 6..at + 8] == data[at..at + 24][6..8];
    assert data[at + 20..at + 22] == data[at..at + 24][20..22];
  }

  lemma {:induction false} RoomFor(sections: seq<Section>, i: nat, n: nat)
    requires i < n <= |sections|
    ensures RawLength(sections, i) + |sections[i].raw| <= RawLength(sections, n)
  {
    if i < n - 1 {
      RoomFor(sections, i, n - 1);
    }
  }

  lemma {:induction false} RawDataAt(sections: seq<Section>, i: nat, n: nat)
    requires i < n <= |sections|
    ensures At(RawData(sections, n), RawLength(sections, i), sections[i].raw)
  {
    hide At;
    AtEnds(RawData(sections, n - 1), sections[n - 1].raw);
    if i < n - 1 {
      RawDataAt(sections, i, n - 1);
      AtInside(RawData(sections, n), 0, RawData(sections, n - 1), RawLength(sections, i), sections[i].raw);
    }
  }

  lemma {:induction false} TableAt(sections: seq<Section>, start: nat, i: nat, n: nat)
    requires i < n <= |sections| && SectionsOk(sections) && start + RawLength(sections, n) < TWO32
    ensures start + RawLength(sections, i) + |sections[i].raw| < TWO32
    ensures At(Table(sections, start, n), 40 * i, SectionHeader(sections[i], start + RawLength(sections, i)))
  {
    hide At, SectionHeader;
    RoomFor(sections, i, n);
    AtEnds(Table(sections, start, n - 1), SectionHeader(sections[n - 1], start + RawLength(sections, n - 1)));
    if i < n - 1 {
      TableAt(sections, start, i, n - 1);
      AtInside(Table(sections, start, n), 0, Table(sections, start, n - 1), 40 * i,
               SectionHeader(sections[i], start + RawLength(sections, i)));
    }
  }

  /** Where the raw data of section `i` goes. */
  function Offset(img: Image, i: nat): nat
    requires i <= |img.sections|
  {
    RawStart(img) + RawLength(img.sections, i)
  }

  lemma RawReadsBack(img: Image, i: nat)
    requires ImageOk(img) && i < |img.sections|
    ensures At(Encode(img), Offset(img, i), img.sections[i].raw)
    ensures Offset(img, i) + |img.sections[i].raw| < TWO32
  {
    var n := |img.sections|;
    Pieces(img);
    RawDataAt(img.sections, i, n);
    RoomFor(img.sections, i, n);
    hide At, Encode, RawLength, RawData;
    AtInside(Encode(img), RawStart(img), RawData(img.sections, n), RawLength(img.sections, i), img.sections[i].raw);
  }

  lemma EntryAt(img: Image, i: nat)
    requires ImageOk(img) && i < |img.sections| && Offset(img, i) + |img.sections[i].raw| < TWO32
    ensures At(Encode(img), TableStart(img) + 40 * i, SectionHeader(img.sections[i], Offset(img, i)))
  {
    hide At, Encode, Head, SectionHeader, Table, RawLength, Slice, RawData;
    var n := |img.sections|;
    Pieces(img);
    TableAt(img.sections, RawStart(img), i, n);
    AtInside(Encode(img), TableStart(img), Table(img.sections, RawStart(img), n), 40 * i,
             SectionHeader(img.sections[i], Offset(img, i)));
  }

  lemma EntryReadsBack(img: Image, i: nat)
    requires ImageOk(img) && i < |img.sections| && Offset(img, i) + |img.sections[i].raw| < TWO32
    ensures Slice(Encode(img), TableStart(img) + 40 * i, 40) == SectionHeader(img.sections[i], Offset(img, i))
  {
    EntryAt(img, i);
    hide At, Encode, Head, SectionHeader, Table, RawLength, Slice, RawData;
    AtIsSlice(Encode(img), TableStart(img) + 40 * i, SectionHeader(img.sections[i], Offset(img, i)));
  }

  /** The table entry and the raw data of section `i` read back. */
  lemma SectionReadsBack(img: Image, i: nat)
    requires ImageOk(img) && i < |img.sections|
    ensures Offset(img, i) + |img.sections[i].raw| < TWO32
    ensures Slice(Encode(img), TableStart(img) + 40 * i, 40) == SectionHeader(img.sections[i], Offset(img, i))
    ensures At(Encode(img), Offset(img, i), img.sections[i].raw)
  {
    RawReadsBack(img, i);
    EntryReadsBack(img, i);
  }

  /** The raw data of a section, trimmed to its virtual size when that is smaller and not zero. */
  function Contents(s: Section): Bytes {
    if 0 < s.virtualSize < |s.raw| then s.raw[..s.virtualSize] else s.raw
  }

  /** The first section from `i` on whose name, cut at its first NUL, is `want`. */
  function FirstNamed(sections: seq<Section>, want: Bytes, i: nat): Lookup
    requires i <= |sections|
    decreases |sections| - i
  {
    if i == |sections| then Absent
    else if CName(sections[i].name) == want then Found(i, Contents(sections[i]))
    else FirstNamed(sections, want, i + 1)
  }

  lemma HeaderFields(s: Section, offset: nat)
    requires SectionOk(s) && offset < TWO32 && |s.raw| < TWO32
    ensures var sh := SectionHeader(s, offset);
            && sh[..8] == s.name && VirtualSize(sh) == s.virtualSize
            && RawSize(sh) == |s.raw| && RawOffset(sh) == offset
  {
  }

  lemma ContentsAt(data: Bytes, off: nat, s: Section)
    requires At(data, off, s.raw)
    ensures Slice(data, off, |Contents(s)|) == Contents(s)
  {
  }

  lemma AnswerReadsBack(img: Image, i: nat)
    requires ImageOk(img) && i < |img.sections| && Offset(img, i) + |img.sections[i].raw| < TWO32
    ensures Answer(Encode(img), SectionHeader(img.sections[i], Offset(img, i)), i)
         == Found(i, Contents(img.sections[i]))
  {
    RawReadsBack(img, i);
    HeaderFields(img.sections[i], Offset(img, i));
    ContentsAt(Encode(img), Offset(img, i), img.sections[i]);
    hide Encode, SectionHeader, At, Slice, VirtualSize, RawSize, RawOffset, Offset;
  }

  lemma {:induction false} SearchReadsBack(img: Image, h: Header, want: Bytes, i: nat)
    requires ImageOk(img) && i <= |img.sections|
    requires h == Header(|img.sections|, |img.optional|, 64 + |img.stub| + 24)
    ensures Search(Encode(img), h, want, i) == FirstNamed(img.sections, want, i)
    decreases |img.sections| - i
  {
    hide Encode, SectionHeader, CName, Slice, Answer, Offset, At;
    if i < |img.sections| {
      SectionReadsBack(img, i);
      HeaderFields(img.sections[i], Offset(img, i));
      AnswerReadsBack(img, i);
      assert h.Table() == TableStart(img);
      if CName(img.sections[i].name) != want {
        SearchReadsBack(img, h, want, i + 1);
      }
    }
  }

  /**
    Reading a section of an encoded image by name never fails: it gives the contents of the first
    section of that name, or says that there is none.
   */
  lemma SectionRoundTrip(img: Image, name: Bytes)
    requires ImageOk(img)
    ensures ReadSection(Encode(img), name) == FirstNamed(img.sections, Wanted(name), 0)
    ensures !ReadSection(Encode(img), name).Broken?
  {
    HeaderReadsBack(img, 24);
    SearchReadsBack(img, Header(|img.sections|, |img.optional|, 64 + |img.stub| + 24), Wanted(name), 0);
    NeverBroken(img.sections, Wanted(name), 0);
  }

  lemma {:induction false} NeverBroken(sections: seq<Section>, want: Bytes, i: nat)
    requires i <= |sections|
    ensures !FirstNamed(sections, want, i).Broken?
    decreases |sections| - i
  {
    if i < |sections| {
      NeverBroken(sections, want, i + 1);
    }
  }

  // ---------- signatures ----------

  /** An optional header: PE32 or PE32+, the fields before the data directory, and the directory. */
  datatype Optional = Optional(plus: bool, fields: Bytes, directory: seq<(nat, nat)>)

  predicate OptionalOk(o: Optional) {
    && |o.fields| == (if o.plus then 110 else 94)
    && forall e | e in o.directory :: e.0 < TWO32 && e.1 < TWO32
  }

  function Directory(entries: seq<(nat, nat)>): (b: Bytes)
    requires forall e :: e in entries ==> e.0 < TWO32 && e.1 < TWO32
    ensures |b| == 8 * |entries|
  {
    if entries == [] then [] else Put32(entries[0].0) + Put32(entries[0].1) + Directory(entries[1..])
  }

  function EncodeOptional(o: Optional): Bytes
    requires OptionalOk(o)
  {
    Put16(if o.plus then 0x20B else 0x10B) + o.fields + Directory(o.directory)
  }

  /** Entry 4 of the data directory, the certificate table, has an address and a size. */
  predicate Signed(o: Optional) {
    |o.directory| > 4 && o.directory[4].0 != 0 && o.directory[4].1 != 0
  }

  lemma {:induction false} DirectoryAt(entries: seq<(nat, nat)>, i: nat)
    requires i < |entries| && forall e :: e in entries ==> e.0 < TWO32 && e.1 < TWO32
    ensures At(Directory(entries), 8 * i, Put32(entries[i].0) + Put32(entries[i].1))
  {
    hide Put32;
    var first, rest := Put32(entries[0].0) + Put32(entries[0].1), Directory(entries[1..]);
    assert Directory(entries) == first + rest;
    AtEnds(first, rest);
    if i > 0 {
      DirectoryAt(entries[1..], i - 1);
      AtInside(Directory(entries), 8, rest, 8 * (i - 1), Put32(entries[i].0) + Put32(entries[i].1));
    }
  }

  function DirectoryStart(o: Optional): nat {
    if o.plus then 112 else 96
  }

  /** The eight bytes the signature check looks at. */
  function CertificateBytes(img: Image, o: Optional): Bytes
    requires ImageOk(img)
  {
    Slice(Encode(img), 64 + |img.stub| + 24 + DirectoryStart(o) + 32, 8)
  }

  lemma OptionalPieces(o: Optional)
    requires OptionalOk(o)
    ensures At(EncodeOptional(o), 0, Put16(if o.plus then 0x20B else 0x10B))
    ensures At(EncodeOptional(o), DirectoryStart(o), Directory(o.directory))
  {
  }

  /** What the check answers is decided by those eight bytes, wherever they belong. */
  lemma CheckReadsCertificateBytes(img: Image, o: Optional)
    requires ImageOk(img) && OptionalOk(o) && img.optional == EncodeOptional(o)
    ensures var entry := CertificateBytes(img, o);
            IsSigned(Encode(img)) ==
            if |entry| != 8 then None else Some(Le32(entry[..4]) != 0 && Le32(entry[4..]) != 0)
  {
    HeaderReadsBack(img, 22);
    HeadPieces(img);
    OptionalPieces(o);
    var start, magic := 64 + |img.stub| + 24, Put16(if o.plus then 0x20B else 0x10B);
    hide Encode, Put16, EncodeOptional, Le32, Le16;
    AtInside(Encode(img), start, img.optional, 0, magic);
    assert Slice(Encode(img), start, 2) == magic;
  }

  /** With a directory of at least five entries they are entry 4 of it. */
  lemma CertificateIsEntry(img: Image, o: Optional)
    requires ImageOk(img) && OptionalOk(o) && img.optional == EncodeOptional(o)
    requires |o.directory| > 4
    ensures CertificateBytes(img, o) == Put32(o.directory[4].0) + Put32(o.directory[4].1)
  {
    HeadPieces(img);
    OptionalPieces(o);
    DirectoryAt(o.directory, 4);
    hide Encode, Put16, Put32, EncodeOptional, Directory, IsSigned, Le32;
    var start, entry := 64 + |img.stub| + 24, Put32(o.directory[4].0) + Put32(o.directory[4].1);
    AtInside(img.optional, DirectoryStart(o), Directory(o.directory), 32, entry);
    AtInside(Encode(img), start, img.optional, DirectoryStart(o) + 32, entry);
  }

  lemma PairReadsBack(x: nat, y: nat)
    requires x < TWO32 && y < TWO32
    ensures var pair := Put32(x) + Put32(y); Le32(pair[..4]) == x && Le32(pair[4..]) == y
  {
    hide Put32, Le32;
    assert (Put32(x) + Put32(y))[..4] == Put32(x) && (Put32(x) + Put32(y))[4..] == Put32(y);
  }

  /** With such a directory the check is right. */
  lemma SignatureRoundTrip(img: Image, o: Optional)
    requires ImageOk(img) && OptionalOk(o) && img.optional == EncodeOptional(o)
    requires |o.directory| > 4
    ensures IsSigned(Encode(img)) == Some(Signed(o))
  {
    hide ImageOk, Encode, Put32, EncodeOptional, IsSigned, Le32, CertificateBytes;
    CheckReadsCertificateBytes(img, o);
    CertificateIsEntry(img, o);
    assert o.directory[4] in o.directory;
    PairReadsBack(o.directory[4].0, o.directory[4].1);
  }

  /** Where the eight bytes stand that a short directory leads to, counted from its end. */
  function Behind(o: Optional): nat
    requires |o.directory| <= 4
  {
    32 - 8 * |o.directory|
  }

  /** With a shorter directory they are part of the first section's header. */
  lemma HeaderIsRead(img: Image, o: Optional)
    requires ImageOk(img) && OptionalOk(o) && img.optional == EncodeOptional(o)
    requires |o.directory| <= 4 && img.sections != []
    ensures SectionOk(img.sections[0]) && Offset(img, 0) + |img.sections[0].raw| < TWO32
    ensures CertificateBytes(img, o) == SectionHeader(img.sections[0], Offset(img, 0))[Behind(o)..Behind(o) + 8]
  {
    assert img.sections[0] in img.sections;
    assert |img.optional| == DirectoryStart(o) + 8 * |o.directory|;
    hide Encode, SectionHeader, EncodeOptional, At, ImageOk, Slice, Offset, OptionalOk;
    SectionReadsBack(img, 0);
    SliceInside(Encode(img), TableStart(img), SectionHeader(img.sections[0], Offset(img, 0)), Behind(o));
  }

  lemma SliceInside(data: Bytes, off: nat, part: Bytes, k: nat)
    requires Slice(data, off, |part|) == part && k + 8 <= |part|
    ensures Slice(data, off + k, 8) == part[k..k + 8]
  {
    assert part == data[off..off + |part|];
  }

  /** Without sections the file is over behind the directory. */
  lemma NothingIsRead(img: Image, o: Optional)
    requires ImageOk(img) && OptionalOk(o) && img.optional == EncodeOptional(o)
    requires |o.directory| <= 4 && img.sections == []
    ensures CertificateBytes(img, o) == []
  {
    assert |Encode(img)| == TableStart(img);
    assert |img.optional| == DirectoryStart(o) + 8 * |o.directory|;
    hide Encode, EncodeOptional;
  }

  /**
    What the header of the first section pretends to be: neither half of the eight bytes is zero.
    They are its name, its virtual size and address, its raw size and offset, or the rest of it.
   */
  ghost predicate LooksSigned(img: Image, o: Optional)
    requires ImageOk(img) && |o.directory| <= 4 && img.sections != []
  {
    var s := img.sections[0];
    assert s in img.sections;
    match |o.directory|
    case 4 => Le32(s.name[..4]) != 0 && Le32(s.name[4..]) != 0
    case 3 => s.virtualSize != 0 && s.address != 0
    case 2 => s.raw != []
    case 1 => Le32(s.rest[..4]) != 0 && Le32(s.rest[4..8]) != 0
    case _ => Le32(s.rest[8..12]) != 0 && Le32(s.rest[12..]) != 0
  }

  lemma HeaderWords(s: Section, offset: nat)
    requires SectionOk(s) && |s.raw| < TWO32 && offset < TWO32
    ensures var sh := SectionHeader(s, offset);
            && sh[0..8] == s.name && sh[24..32] == s.rest[..8] && sh[32..40] == s.rest[8..]
            && sh[8..16] == Put32(s.virtualSize) + Put32(s.address) && sh[16..24] == Put32(|s.raw|) + Put32(offset)
  {
    hide Put32;
  }

  predicate BothNonzero(entry: Bytes)
    requires |entry| == 8
  {
    Le32(entry[..4]) != 0 && Le32(entry[4..]) != 0
  }

  lemma WordsNonzero(s: Section, offset: nat)
    requires SectionOk(s) && |s.raw| < TWO32 && 0 < offset < TWO32
    ensures var sh := SectionHeader(s, offset);
            && (BothNonzero(sh[8..16]) <==> s.virtualSize != 0 && s.address != 0)
            && (BothNonzero(sh[16..24]) <==> s.raw != [])
  {
    HeaderWords(s, offset);
    PairReadsBack(s.virtualSize, s.address);
    PairReadsBack(|s.raw|, offset);
    hide SectionHeader, Put32, Le32;
  }

  lemma TextNonzero(s: Section, offset: nat)
    requires SectionOk(s) && |s.raw| < TWO32 && offset < TWO32
    ensures var sh := SectionHeader(s, offset);
            && (BothNonzero(sh[0..8]) <==> Le32(s.name[..4]) != 0 && Le32(s.name[4..]) != 0)
            && (BothNonzero(sh[24..32]) <==> Le32(s.rest[..4]) != 0 && Le32(s.rest[4..8]) != 0)
            && (BothNonzero(sh[32..40]) <==> Le32(s.rest[8..12]) != 0 && Le32(s.rest[12..]) != 0)
  {
    HeaderWords(s, offset);
    RestHalves(s.rest);
    hide SectionHeader, Le32;
  }

  lemma LooksSignedRead(img: Image, o: Optional)
    requires ImageOk(img) && OptionalOk(o) && img.optional == EncodeOptional(o)
    requires |o.directory| <= 4 && img.sections != []
    ensures |CertificateBytes(img, o)| == 8
    ensures LooksSigned(img, o) <==> BothNonzero(CertificateBytes(img, o))
  {
    hide ImageOk, OptionalOk, EncodeOptional, SectionHeader, Le32, CertificateBytes, Offset, BothNonzero;
    HeaderIsRead(img, o);
    RawStartPositive(img);
    WordsNonzero(img.sections[0], Offset(img, 0));
    TextNonzero(img.sections[0], Offset(img, 0));
  }

  lemma RawStartPositive(img: Image)
    requires img.sections != []
    ensures Offset(img, 0) > 0
  {
  }

  lemma RestHalves(rest: Bytes)
    requires |rest| == 16
    ensures rest[..8][..4] == rest[..4] && rest[..8][4..] == rest[4..8]
    ensures rest[8..][..4] == rest[8..12] && rest[8..][4..] == rest[12..]
  {
  }

  /** The answer for every image: by entry 4 if there is one, else by what stands in its place. */
  lemma SignatureAnswer(img: Image, o: Optional)
    requires ImageOk(img) && OptionalOk(o) && img.optional == EncodeOptional(o)
    ensures IsSigned(Encode(img)) ==
            if |o.directory| > 4 then Some(Signed(o))
            else if img.sections == [] then None
            else Some(LooksSigned(img, o))
  {
    hide ImageOk, OptionalOk, Encode, EncodeOptional, IsSigned, CertificateBytes, LooksSigned;
    if |o.directory| > 4 {
      SignatureRoundTrip(img, o);
    } else {
      CheckReadsCertificateBytes(img, o);
      if img.sections == [] {
        NothingIsRead(img, o);
      } else {
        LooksSignedRead(img, o);
      }
    }
  }

  /**
    The check is right exactly when the directory reaches entry 4, or there is a section and its
    header does not look like a certificate entry.
   */
  lemma SignatureRightExactlyWhen(img: Image, o: Optional)
    requires ImageOk(img) && OptionalOk(o) && img.optional == EncodeOptional(o)
    ensures IsSigned(Encode(img)) == Some(Signed(o)) <==>
            || |o.directory| > 4
            || (img.sections != [] && !LooksSigned(img, o))
  {
    hide ImageOk, OptionalOk, Encode, EncodeOptional, IsSigned, LooksSigned;
    SignatureAnswer(img, o);
    if img.sections != [] && |o.directory| <= 4 {
      LooksSignedRead(img, o);
    }
  }

  /** An unsigned image with four entries whose first section is called ".text" counts as signed. */
  lemma ShortDirectoryMisread(img: Image, o: Optional)
    requires ImageOk(img) && OptionalOk(o) && img.optional == EncodeOptional(o)
    requires |o.directory| == 4 && img.sections != []
    requires img.sections[0].name == [0x2E, 0x74, 0x65, 0x78, 0x74, 0, 0, 0]
    ensures IsSigned(Encode(img)) == Some(true) && !Signed(o)
  {
    SignatureAnswer(img, o);
    LooksSignedRead(img, o);
    var name := img.sections[0].name;
    assert name[..4] == [0x2E, 0x74, 0x65, 0x78] && name[4..] == [0x74, 0, 0, 0];
    hide ImageOk, OptionalOk, Encode, EncodeOptional, IsSigned, CertificateBytes;
  }

  /** An unsigned image with fewer than five entries and no section cannot be read at all. */
  lemma ShortDirectoryUnread(img: Image, o: Optional)
    requires ImageOk(img) && OptionalOk(o) && img.optional == EncodeOptional(o)
    requires |o.directory| <= 4 && img.sections == []
    ensures IsSigned(Encode(img)) == None && !Signed(o)
  {
    hide ImageOk, OptionalOk, Encode, EncodeOptional, IsSigned;
    SignatureAnswer(img, o);
  }
}
