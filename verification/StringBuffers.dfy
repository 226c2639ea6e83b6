/** The growing buffer a generated text is collected in. */
module StringBuffers {

  const FIRST: nat := 8192
  const CHUNK: nat := 4096

  class StrBuf {
    var buf: array<char>
    var len: nat

    /** Nothing allocated yet, or a NUL behind the contents and never more than about twice the need. */
    ghost predicate Valid()
      reads this, buf
    {
      if buf.Length == 0 then len == 0
      else len < buf.Length && buf[len] == '\0' && (buf.Length <= FIRST || buf.Length < 2 * (len + 1))
    }

    ghost function Contents(): string
      reads this, buf
      requires Valid()
    {
      buf[..len]
    }

    constructor ()
      ensures Valid() && Contents() == "" && fresh(buf)
    {
      buf := new char[0];
      len := 0;
    }

    /** sb_append: the formatted chunk goes behind what is there, in a larger buffer if need be. */
    method Append(chunk: string)
      requires Valid() && |chunk| < CHUNK
      modifies this, buf
      ensures Valid() && Contents() == old(Contents()) + chunk
      ensures buf == old(buf) || fresh(buf)
    {
      if chunk == "" {
        return;
      }
      Reserve(|chunk|);
      Store(buf, len, chunk);
      len := len + |chunk|;
    }

    /** Room for `n` more characters and the NUL. */
    method Reserve(n: nat)
      requires Valid() && 0 < n < CHUNK
      modifies this
      ensures len == old(len) && len + n < buf.Length && buf[..len] == old(buf[..len])
      ensures buf.Length <= FIRST || buf.Length < 2 * (len + n + 1)
      ensures buf == old(buf) || fresh(buf)
    {
      if len + n + 1 > buf.Length {
        var capacity := if buf.Length > 0 then buf.Length * 2 else FIRST;
        while capacity < len + n + 1
          invariant capacity > 0 && (capacity <= FIRST || capacity < 2 * (len + n + 1))
          decreases len + n + 1 - capacity
        {
          capacity := capacity * 2;
        }
        var larger := new char[capacity];
        Copy(larger, buf, len);
        buf := larger;
      }
    }
  }

  method Copy(to: array<char>, from: array<char>, n: nat)
    requires n <= from.Length && n <= to.Length && to != from
    modifies to
    ensures to[..n] == from[..n]
  {
    for i := 0 to n
      invariant to[..i] == from[..i]
    {
      to[i] := from[i];
    }
  }

  /** memcpy behind the first `at` characters, and a NUL behind that. */
  method Store(to: array<char>, at: nat, chunk: string)
    requires at + |chunk| < to.Length
    modifies to
    ensures to[..at + |chunk|] == old(to[..at]) + chunk && to[at + |chunk|] == '\0'
  {
    for i := 0 to |chunk|
      invariant to[..at + i] == old(to[..at]) + chunk[..i]
    {
      to[at + i] := chunk[i];
    }
    to[at + |chunk|] := '\0';
    assert chunk[..|chunk|] == chunk;
  }
}
