/** Bytes, pieces of files, and little-endian numbers. */
module ByteStrings {

  newtype byte = x: int | 0 <= x < 256

  type Bytes = seq<byte>

  /** What fread finds of `n` bytes at `off`: possibly fewer, at the end of the file. */
  function Slice(data: Bytes, off: nat, n: nat): (s: Bytes)
    ensures |s| <= n && (off + n <= |data| ==> s == data[off..off + n])
    ensures |s| == n && n > 0 ==> off + n <= |data|
  {
    if off >= |data| then [] else data[off..if off + n <= |data| then off + n else |data|]
  }

  function Le16(b: Bytes): nat
    requires |b| >= 2
  {
    (b[0] as int) + 0x100 * (b[1] as int)
  }

  function Le32(b: Bytes): nat
    requires |b| >= 4
  {
    (b[0] as int) + 0x100 * (b[1] as int) + 0x1_0000 * (b[2] as int) + 0x100_0000 * (b[3] as int)
  }

  const TWO16 := 0x1_0000
  const TWO32 := 0x1_0000_0000

  function Put16(x: nat): (b: Bytes)
    requires x < TWO16
    ensures |b| == 2 && Le16(b) == x
  {
    [(x % 0x100) as byte, (x / 0x100) as byte]
  }

  function Put32(x: nat): (b: Bytes)
    requires x < TWO32
    ensures |b| == 4 && Le32(b) == x
  {
    var high := x / TWO16;
    var low := x % TWO16;
    [(low % 0x100) as byte, (low / 0x100) as byte, (high % 0x100) as byte, (high / 0x100) as byte]
  }
}
