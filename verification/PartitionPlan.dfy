/** Where partitions go on a disk: the MBR and GPT planners and the two-partition layout. */
module PartitionPlan {

  const SECTOR_SIZE: nat := 512
  const ALIGNMENT: nat := 2048
  const MIN_DEVICE_SIZE: nat := 10 * 1024 * 1024
  const MIN_BOOT_SECTORS: nat := 50 * 2048
  const MAX_BOOT_SECTORS: nat := 200 * 2048

  /** Overrun stands for a write behind the four parts a plan has room for. */
  datatype PlanResult = PlanOk | NoSpace | InvalidSize | Overrun

  datatype Part = Part(start: nat, end: nat, boot: bool)

  /** The parts follow one another without gap or overlap from sector `first` to sector `last`. */
  ghost predicate Tiles(parts: seq<Part>, first: int, last: int) {
    && parts != [] && parts[0].start == first && parts[|parts| - 1].end == last
    && (forall i :: 0 <= i < |parts| ==> parts[i].start <= parts[i].end)
    && (forall i :: 0 <= i < |parts| - 1 ==> parts[i + 1].start == parts[i].end + 1)
  }

  function Size(p: Part): int {
    p.end - p.start + 1
  }

  /** Every sector of a tiled range belongs to exactly one part. */
  lemma {:induction false} TilesCoverOnce(parts: seq<Part>, first: int, last: int, s: int)
    requires Tiles(parts, first, last) && first <= s <= last
    ensures exists i :: 0 <= i < |parts| && parts[i].start <= s <= parts[i].end
    ensures forall i, j :: 0 <= i < j < |parts| ==> parts[i].end < parts[j].start
  {
    if |parts| == 1 {
      assert parts[0].start <= s <= parts[0].end;
    } else {
      var rest := parts[1..];
      if s <= parts[0].end {
        assert parts[0].start <= s <= parts[0].end;
        TilesCoverOnce(rest, rest[0].start, last, last) by {
          LastNotBeforeFirst(rest, rest[0].start, last);
        }
      } else {
        TilesCoverOnce(rest, rest[0].start, last, s);
        var k :| 0 <= k < |rest| && rest[k].start <= s <= rest[k].end;
        assert parts[k + 1] == rest[k];
      }
      forall i, j | 0 <= i < j < |parts|
        ensures parts[i].end < parts[j].start
      {
        if i > 0 {
          assert rest[i - 1].end < rest[j - 1].start;
        } else if j > 1 {
          assert rest[0].end < rest[j - 1].start;
        }
      }
    }
  }

  lemma {:induction false} LastNotBeforeFirst(parts: seq<Part>, first: int, last: int)
    requires Tiles(parts, first, last)
    ensures first <= last
  {
    if |parts| > 1 {
      var rest := parts[1..];
      LastNotBeforeFirst(rest, rest[0].start, last);
    }
  }

  /** Where part `k` of `size` sectors each starts. */
  function NthStart(first: nat, size: nat, k: nat): nat {
    first + k * size
  }

  lemma NthStartNext(first: nat, size: nat, k: nat)
    ensures NthStart(first, size, k + 1) == NthStart(first, size, k) + size
    ensures NthStart(first, size, 0) == first
  {
  }

  lemma LastStart(first: nat, size: nat, count: nat)
    requires count > 0
    ensures NthStart(first, size, count - 1) == first + count * size - size
  {
  }

  /** The planners' loop: `count` parts of `size` sectors, the last one up to `last` instead. */
  method EqualParts(first: nat, size: nat, count: nat, last: nat, bootable: bool) returns (parts: seq<Part>)
    requires count >= 1 && size >= 1 && NthStart(first, size, count - 1) <= last
    ensures |parts| == count && Tiles(parts, first, last)
    ensures forall i :: 0 <= i < count ==> parts[i].start == NthStart(first, size, i)
    ensures forall i :: 0 <= i < count - 1 ==> Size(parts[i]) == size
    ensures Size(parts[count - 1]) == last + 1 - NthStart(first, size, count - 1)
    ensures forall i :: 0 <= i < count ==> parts[i].boot == (bootable && i == 0)
  {
    hide NthStart;
    NthStartNext(first, size, 0);
    parts := [];
    for i := 0 to count
      invariant |parts| == i
      invariant forall k :: 0 <= k < i ==> parts[k].start == NthStart(first, size, k)
      invariant forall k :: 0 <= k < i ==>
                  parts[k].end == if k == count - 1 then last else NthStart(first, size, k) + size - 1
      invariant forall k :: 0 <= k < i ==> parts[k].boot == (bootable && k == 0)
    {
      var start := NthStart(first, size, i);
      var end := if i == count - 1 then last else start + size - 1;
      parts := parts + [Part(start, end, bootable && i == 0)];
    }
    forall k | 0 <= k < count - 1
      ensures parts[k + 1].start == parts[k].end + 1
    {
      NthStartNext(first, size, k);
    }
  }

  /** Where the MBR planner starts partition `i`. */
  function MbrStart(total: nat, count: nat, i: nat): nat
    requires count > 0 && total >= 2 * ALIGNMENT
  {
    NthStart(ALIGNMENT, (total - 2 * ALIGNMENT) / count, i)
  }

  /** All starts are multiples of 1 MB, as documented, exactly when the common size is one. */
  lemma MbrAlignedExactly(total: nat, count: nat)
    requires count > 0 && total >= 2 * ALIGNMENT
    ensures (forall i: nat :: i < count ==> MbrStart(total, count, i) % ALIGNMENT == 0)
            <==> count == 1 || (total - 2 * ALIGNMENT) / count % ALIGNMENT == 0
  {
    var size := (total - 2 * ALIGNMENT) / count;
    if size % ALIGNMENT == 0 {
      forall i: nat | i < count
        ensures MbrStart(total, count, i) % ALIGNMENT == 0
      {
        MultipleOf(i, size);
      }
    } else if count > 1 {
      assert MbrStart(total, count, 1) == ALIGNMENT + size;
    } else {
      assert MbrStart(total, count, 0) == ALIGNMENT;
    }
  }

  lemma MultipleOf(i: nat, size: nat)
    requires size % ALIGNMENT == 0
    ensures NthStart(ALIGNMENT, size, i) % ALIGNMENT == 0
  {
    var q := size / ALIGNMENT;
    assert i * size == (i * q) * ALIGNMENT;
    Multiple(i * q + 1);
  }

  lemma Multiple(m: nat)
    ensures m * ALIGNMENT % ALIGNMENT == 0
  {
  }

  /** Three partitions on 16 MB: the second does not start on a multiple of 1 MB. */
  lemma MbrMisaligned()
    ensures MbrStart(32768, 3, 1) % ALIGNMENT != 0
  {
  }

  /** plan_mbr_partition: the plan covers [2048, total - 1] exactly. */
  method PlanMbr(deviceBytes: nat, count: int) returns (result: PlanResult, parts: seq<Part>)
    ensures result == InvalidSize <==> !(1 <= count <= 4)
    ensures result != Overrun
    ensures result == PlanOk <==>
              && 1 <= count <= 4 && deviceBytes >= 10485760
              && deviceBytes / 512 >= (count + 2) * 2048
    ensures result == PlanOk ==>
              var total := deviceBytes / SECTOR_SIZE;
              var size := (total - 2 * ALIGNMENT) / count;
              && |parts| == count && Tiles(parts, 2048, total - 1)
              && (forall i :: 0 <= i < count ==> Size(parts[i]) >= size >= ALIGNMENT)
              && size + ALIGNMENT <= Size(parts[count - 1]) < size + ALIGNMENT + count
              && (forall i :: 0 <= i < count ==> parts[i].boot == (i == 0))
              && (forall i :: 0 <= i < count ==> parts[i].start == MbrStart(total, count, i))
  {
    parts := [];
    if count < 1 || count > 4 {
      return InvalidSize, parts;
    }
    if deviceBytes < MIN_DEVICE_SIZE {
      return NoSpace, parts;
    }
    var total := deviceBytes / SECTOR_SIZE;
    var reserved := ALIGNMENT + 2048;
    if total <= reserved {
      return NoSpace, parts;
    }
    var available := total - reserved;
    var size := available / count;
    QuotientBounds(available, count, size);
    if size < ALIGNMENT {
      return NoSpace, parts;
    }
    LastStart(ALIGNMENT, size, count);
    hide NthStart;
    parts := EqualParts(ALIGNMENT, size, count, total - 1, true);
    result := PlanOk;
  }

  /** The disk has room for so many parts behind the GPT's own sectors. */
  predicate GptFits(deviceBytes: nat, count: int) {
    deviceBytes >= 10485760 && deviceBytes / 512 >= 2115 + count * 2048
  }

  /** plan_gpt_partition: covers [2082, total - 35]. It does not mind a count its plan has no room for. */
  method PlanGpt(deviceBytes: nat, count: int) returns (result: PlanResult, parts: seq<Part>)
    ensures result == PlanOk <==> 1 <= count <= 4 && GptFits(deviceBytes, count)
    ensures result == Overrun <==> count > 4 && GptFits(deviceBytes, count)
    ensures result == InvalidSize <==> count < 1
    ensures result == PlanOk ==>
              var total := deviceBytes / SECTOR_SIZE;
              var size := (total - 2115) / count;
              && |parts| == count && Tiles(parts, 2082, total - 35)
              && (forall i :: 0 <= i < count - 1 ==> Size(parts[i]) == size >= ALIGNMENT)
              && size - 1 <= Size(parts[count - 1]) <= size + count - 2
              && parts[0].start % ALIGNMENT == 34
  {
    parts := [];
    if count < 1 {
      return InvalidSize, parts;
    }
    if deviceBytes < MIN_DEVICE_SIZE {
      return NoSpace, parts;
    }
    var total := deviceBytes / SECTOR_SIZE;
    var reserved := 34 + 33 + ALIGNMENT;
    if total <= reserved {
      return NoSpace, parts;
    }
    var first := 34 + ALIGNMENT;
    var available := total - first - 33;
    var size := available / count;
    QuotientBounds(available, count, size);
    if size < ALIGNMENT {
      return NoSpace, parts;
    }
    if count > 4 {
      return Overrun, parts;
    }
    LastStart(first, size, count);
    hide NthStart;
    parts := EqualParts(first, size, count, total - 34 - 1, false);
    result := PlanOk;
  }

  lemma QuotientBounds(n: nat, d: nat, q: nat)
    requires d > 0 && q == n / d
    ensures d * q <= n < d * q + d
    ensures q >= ALIGNMENT <==> n >= d * ALIGNMENT
  {
  }

  datatype Layout = Layout(bootBytes: nat, dataStart: nat, dataSize: nat)

  /** partition_calculate_layout; None when the device is too small. */
  method CalculateLayout(bootBytes: nat, total: nat) returns (layout: Layout, ok: bool)
    ensures ok <==> total >= Clamp(bootBytes / SECTOR_SIZE) + ALIGNMENT
    ensures ok ==> layout.bootBytes == Clamp(bootBytes / SECTOR_SIZE) * SECTOR_SIZE
    ensures ok ==> ALIGNMENT + layout.bootBytes / SECTOR_SIZE + layout.dataSize == total
    ensures ok ==> layout.dataStart + layout.dataSize == total
  {
    layout := Layout(0, 0, 0);
    var boot := bootBytes / SECTOR_SIZE;
    if boot < MIN_BOOT_SECTORS {
      boot := MIN_BOOT_SECTORS;
    }
    if boot > MAX_BOOT_SECTORS {
      boot := MAX_BOOT_SECTORS;
    }
    if total < boot + ALIGNMENT {
      return layout, false;
    }
    layout, ok := Layout(boot * SECTOR_SIZE, boot + ALIGNMENT, total - (boot + ALIGNMENT)), true;
  }

  function Clamp(sectors: nat): (c: nat)
    ensures MIN_BOOT_SECTORS <= c <= MAX_BOOT_SECTORS
  {
    if sectors < MIN_BOOT_SECTORS then MIN_BOOT_SECTORS
    else if sectors > MAX_BOOT_SECTORS then MAX_BOOT_SECTORS else sectors
  }

  /** A size between 50 and 200 MB is kept, any other moved to the nearer of these. */
  lemma ClampKeeps(sectors: nat)
    ensures 102400 <= sectors <= 409600 ==> Clamp(sectors) == sectors
    ensures sectors < 102400 ==> Clamp(sectors) == 102400
    ensures sectors > 409600 ==> Clamp(sectors) == 409600
  {
  }

  /** The sectors of the two partitions, ends included. */
  datatype Geometry = Geometry(bootStart: int, bootEnd: int, dataStart: int, dataEnd: int) {
    /** Together they are the sectors from 2048 to `last`, and neither is empty. */
    predicate Covers(last: int) {
      bootStart == ALIGNMENT && bootStart <= bootEnd && dataStart == bootEnd + 1 && dataStart <= dataEnd == last
    }
  }

  /**
    The geometry partition_wipe_and_create asks for on a disk that was listed with `total` sectors
    and that libparted finds `length` sectors long: the data partition follows the latter.
   */
  method WriteGeometry(bootBytes: nat, total: nat, length: nat) returns (g: Geometry, ok: bool)
    ensures ok <==> total >= Clamp(bootBytes / SECTOR_SIZE) + ALIGNMENT
    ensures ok ==> g.bootStart == ALIGNMENT && g.bootEnd - g.bootStart + 1 == Clamp(bootBytes / SECTOR_SIZE)
    ensures ok ==> g.dataStart == g.bootEnd + 1 && g.dataEnd == length - 1
    ensures ok ==> (g.Covers(length - 1) <==> length > Clamp(bootBytes / SECTOR_SIZE) + ALIGNMENT)
    ensures ok ==> (g.dataEnd - g.dataStart + 1 == total - Clamp(bootBytes / SECTOR_SIZE) - ALIGNMENT <==> length == total)
  {
    g := Geometry(0, 0, 0, 0);
    var layout;
    layout, ok := CalculateLayout(bootBytes, total);
    if ok {
      var bootStart := 2048;
      var bootEnd := bootStart + layout.bootBytes / SECTOR_SIZE - 1;
      assert layout.dataStart == bootEnd + 1;
      var dataStart := bootEnd + 1;
      g := Geometry(bootStart, bootEnd, dataStart, length - 1);
    }
  }
}
