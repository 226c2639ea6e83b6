/** Strings as the C library sees them: searches, cuts and decimal numbers. */
module CStrings {

  datatype Option<+T> = None | Some(value: T)

  /** The part of `s` before its first NUL, which is all a C string function can see. */
  function UptoNul(s: string): (r: string)
    ensures r <= s && '\0' !in r
  {
    if s == "" || s[0] == '\0' then "" else
    assert s == [s[0]] + s[1..];
    [s[0]] + UptoNul(s[1..])
  }

  /** Strings that agree up to a NUL are the same C string. */
  lemma {:induction false} UptoNulIs(s: string, k: nat)
    requires k <= |s| && '\0' !in s[..k] && (k < |s| ==> s[k] == '\0')
    ensures UptoNul(s) == s[..k]
  {
    if k > 0 {
      assert s[0] in s[..k];
      assert s[1..][..k - 1] == s[..k][1..];
      UptoNulIs(s[1..], k - 1);
      assert s[..k] == [s[0]] + s[1..][..k - 1];
    }
  }

  lemma {:induction false} UptoNulEnds(s: string)
    ensures |UptoNul(s)| < |s| ==> s[|UptoNul(s)|] == '\0'
    ensures '\0' in s ==> |UptoNul(s)| < |s|
  {
    if s != "" && s[0] != '\0' {
      UptoNulEnds(s[1..]);
    }
  }

  lemma {:induction false} UptoNulWhole(s: string)
    requires '\0' !in s
    ensures UptoNul(s) == s
  {
    if s != "" {
      UptoNulWhole(s[1..]);
    }
  }

  /** strchr: the offset of the first `c`, or |s| when there is none. */
  function IndexOf(s: string, c: char): (i: nat)
    ensures i <= |s|
    ensures c !in s[..i]
    ensures i < |s| ==> s[i] == c
  {
    if s == "" || s[0] == c then 0 else
    var i := 1 + IndexOf(s[1..], c);
    assert s[..i] == [s[0]] + s[1..][..i - 1];
    i
  }

  /** Every way of being the first occurrence is the same way. */
  lemma {:induction false} IndexOfIs(s: string, c: char, i: nat)
    requires i <= |s| && c !in s[..i] && (i < |s| ==> s[i] == c)
    ensures IndexOf(s, c) == i
  {
  }

  function FirstLine(text: string): string {
    text[..IndexOf(text, '\n')]
  }

  function AfterLine(text: string): (rest: string)
    ensures text != "" ==> |rest| < |text|
  {
    var i := IndexOf(text, '\n');
    if i < |text| then text[i + 1..] else ""
  }

  /** strrchr: the offset of the last `c`, or -1. */
  function LastIndexOf(s: string, c: char): (i: int)
    ensures -1 <= i < |s| && (i >= 0 ==> s[i] == c)
    ensures forall k :: i < k < |s| ==> s[k] != c
  {
    if s == "" then -1
    else if s[|s| - 1] == c then |s| - 1
    else LastIndexOf(s[..|s| - 1], c)
  }

  predicate MatchesAt(s: string, pattern: string, i: nat) {
    i + |pattern| <= |s| && s[i..i + |pattern|] == pattern
  }

  /** strstr != NULL. */
  predicate Contains(s: string, pattern: string) {
    exists i | 0 <= i <= |s| :: MatchesAt(s, pattern, i)
  }

  /** strncpy or "%.*s" into a buffer that keeps at most `n` characters. */
  function Truncate(s: string, n: nat): (r: string)
    ensures r <= s && |r| == if |s| <= n then |s| else n
  {
    if |s| <= n then s else s[..n]
  }

  predicate IsDigit(c: char) { '0' <= c <= '9' }

  predicate IsSpace(c: char) { c == ' ' || '\t' <= c <= '\r' }

  function Digit(d: nat): (c: char)
    requires d < 10
    ensures IsDigit(c) && (c as int) - ('0' as int) == d
  {
    ('0' as int + d) as char
  }

  /** The decimal digits of `n`, most significant first. */
  function Digits(n: nat): (s: string)
    ensures s != "" && forall c | c in s :: IsDigit(c)
  {
    if n < 10 then [Digit(n)] else Digits(n / 10) + [Digit(n % 10)]
  }

  /** printf("%d"). */
  function PrintInt(n: int): string {
    if n < 0 then "-" + Digits(-n) else Digits(n)
  }

  /** The value of the leading digits of `s`, continuing from `acc`. */
  function DigitsValue(s: string, acc: int): int {
    if s == "" || !IsDigit(s[0]) then acc
    else DigitsValue(s[1..], 10 * acc + (s[0] as int - '0' as int))
  }

  /** atoi: white space, one optional sign, leading digits; anything else ends the number. */
  function Atoi(s: string): int {
    if s == "" then 0
    else if IsSpace(s[0]) then Atoi(s[1..])
    else if s[0] == '-' then -DigitsValue(s[1..], 0)
    else if s[0] == '+' then DigitsValue(s[1..], 0)
    else DigitsValue(s, 0)
  }

  lemma {:induction false} DigitsValueAppend(s: string, c: char, acc: int)
    requires forall d | d in s :: IsDigit(d)
    requires IsDigit(c)
    ensures DigitsValue(s + [c], acc) == 10 * DigitsValue(s, acc) + (c as int - '0' as int)
  {
    if s == "" {
      assert (s + [c])[1..] == "";
    } else {
      assert (s + [c])[1..] == s[1..] + [c];
      DigitsValueAppend(s[1..], c, 10 * acc + (s[0] as int - '0' as int));
    }
  }

  lemma {:induction false} DigitsRoundTrip(n: nat)
    ensures DigitsValue(Digits(n), 0) == n
  {
    if n >= 10 {
      DigitsRoundTrip(n / 10);
      DigitsValueAppend(Digits(n / 10), Digit(n % 10), 0);
    } else {
      assert Digits(n)[1..] == "";
    }
  }

  lemma {:induction false} DigitsValueStops(s: string, rest: string, acc: int)
    requires forall c | c in s :: IsDigit(c)
    requires rest == "" || !IsDigit(rest[0])
    ensures DigitsValue(s + rest, acc) == DigitsValue(s, acc)
  {
    if s == "" {
      assert s + rest == rest;
    } else {
      assert (s + rest)[1..] == s[1..] + rest;
      DigitsValueStops(s[1..], rest, 10 * acc + (s[0] as int - '0' as int));
    }
  }

  lemma AtoiUnsigned(s: string)
    requires s != "" && IsDigit(s[0])
    ensures Atoi(s) == DigitsValue(s, 0)
  {
    hide DigitsValue;
  }

  lemma AtoiNegative(s: string)
    requires s != "" && s[0] == '-'
    ensures Atoi(s) == -DigitsValue(s[1..], 0)
  {
    hide DigitsValue;
  }

  /** A text that starts with digits, or a sign and digits, is read from there. */
  lemma AtoiDigits(digits: string, rest: string)
    requires digits != "" && forall c | c in digits :: IsDigit(c)
    requires rest == "" || !IsDigit(rest[0])
    ensures Atoi(digits + rest) == DigitsValue(digits, 0) && Atoi("-" + digits + rest) == -DigitsValue(digits, 0)
  {
    hide DigitsValue, Atoi;
    DigitsValueStops(digits, rest, 0);
    assert digits[0] in digits;
    AtoiUnsigned(digits + rest);
    var s := "-" + digits + rest;
    assert s[1..] == digits + rest;
    AtoiNegative(s);
  }

  lemma AtoiNumber(n: int, rest: string)
    requires rest == "" || !IsDigit(rest[0])
    ensures Atoi(PrintInt(n) + rest) == n
  {
    hide Digits, DigitsValue, Atoi;
    var m := if n < 0 then -n else n;
    DigitsRoundTrip(m);
    AtoiDigits(Digits(m), rest);
  }

  /** atoi passes over white space in front and stops at what follows the number. */
  lemma {:induction false} AtoiReads(blank: string, n: int, rest: string)
    requires forall c | c in blank :: c == ' ' || c == '\t' || c == '\n' || c == '\r'
    requires rest == "" || !IsDigit(rest[0])
    ensures Atoi(blank + PrintInt(n) + rest) == n
    decreases |blank|
  {
    hide PrintInt;
    if blank == "" {
      assert blank + PrintInt(n) + rest == PrintInt(n) + rest;
      AtoiNumber(n, rest);
    } else {
      assert forall c :: c in blank[1..] ==> c in blank;
      assert blank[0] in blank;
      AtoiReads(blank[1..], n, rest);
      assert (blank + PrintInt(n) + rest)[1..] == blank[1..] + PrintInt(n) + rest;
    }
  }

  /** atoi undoes "%d" on every int. */
  lemma {:induction false} AtoiPrintInt(n: int)
    ensures Atoi(PrintInt(n)) == n
  {
    if n < 0 {
      DigitsRoundTrip(-n);
      assert PrintInt(n)[1..] == Digits(-n);
    } else {
      DigitsRoundTrip(n);
      assert PrintInt(n)[0] in Digits(n);
    }
  }
}
