/** Looking up a component's generation in SBAT text, by cutting up a copy of it in place. */
module Sbat {
  import opened CStrings

  // ---------- what the lookup means ----------

  /** A line without the carriage return that may end it. */
  function Chomp(line: string): string {
    if line != "" && line[|line| - 1] == '\r' then line[..|line| - 1] else line
  }

  /** The first two fields of a line that has a comma. */
  function Fields(line: string): Option<(string, string)> {
    var l := Chomp(line);
    var comma := IndexOf(l, ',');
    if comma == |l| then None
    else
      var rest := l[comma + 1..];
      Some((l[..comma], rest[..IndexOf(rest, ',')]))
  }

  /** The second field, as a number, of the first line whose first field is `component`; else 0. */
  function Generation(text: string, component: string): int
    decreases |text|
  {
    if text == "" then 0
    else
      var fields := Fields(FirstLine(text));
      if fields.Some? && fields.value.0 == component then Atoi(fields.value.1)
      else Generation(AfterLine(text), component)
  }

  // ---------- strings inside a buffer ----------

  /** The C string that starts at `i`. */
  function StringAt(b: seq<char>, i: nat): string
    requires i <= |b|
  {
    UptoNul(b[i..])
  }

  /** A later place in a string starts the rest of it. */
  lemma {:induction false} TailAt(b: seq<char>, i: nat, k: nat)
    requires i <= |b| && k <= |StringAt(b, i)|
    ensures StringAt(b, i + k) == StringAt(b, i)[k..]
    decreases k
  {
    if k > 0 {
      assert b[i..][1..] == b[i + 1..];
      assert StringAt(b, i)[k..] == StringAt(b, i + 1)[k - 1..];
      TailAt(b, i + 1, k - 1);
    }
  }

  /** A terminated buffer has every string end inside it. */
  ghost predicate Terminated(b: seq<char>) {
    b != [] && b[|b| - 1] == '\0'
  }

  lemma EndsInside(b: seq<char>, i: nat)
    requires Terminated(b) && i < |b|
    ensures i + |StringAt(b, i)| < |b| && b[i + |StringAt(b, i)|] == '\0'
  {
    UptoNulEnds(b[i..]);
    assert b[i..][|b| - 1 - i] == '\0';
  }

  lemma InsideAt(b: seq<char>, i: nat, k: nat)
    requires i <= |b| && k < |StringAt(b, i)|
    ensures i + k < |b| && b[i + k] == StringAt(b, i)[k]
  {
    assert StringAt(b, i) == b[i..][..|StringAt(b, i)|];
  }

  /** A NUL written inside the string at `i` cuts it there and leaves what follows alone. */
  lemma CutAt(b: seq<char>, i: nat, at: nat)
    requires i <= |b| && i <= at < i + |StringAt(b, i)|
    ensures at < |b| && StringAt(b[at := '\0'], i) == StringAt(b, i)[..at - i]
    ensures b[at := '\0'][at + 1..] == b[at + 1..]
  {
    var s, c := StringAt(b, i), b[at := '\0'];
    assert s == b[i..][..|s|];
    assert c[i..][..at - i] == s[..at - i];
    UptoNulIs(c[i..], at - i);
  }

  /** A NUL written behind the end of a string does not change it. */
  lemma CutBehind(b: seq<char>, i: nat, at: nat)
    requires Terminated(b) && i < |b| && i + |StringAt(b, i)| <= at < |b|
    ensures StringAt(b[at := '\0'], i) == StringAt(b, i)
  {
    EndsInside(b, i);
    var k, c := |StringAt(b, i)|, b[at := '\0'];
    assert c[i..][..k] == b[i..][..k];
    UptoNulIs(c[i..], k);
  }

  lemma StringFrom(b: seq<char>, c: seq<char>, i: nat)
    requires |b| == |c| && i <= |b| && b[i..] == c[i..]
    ensures StringAt(b, i) == StringAt(c, i)
  {
  }

  method PutNul(buf: array<char>, at: nat)
    requires at < buf.Length
    modifies buf
    ensures buf[..] == old(buf[..])[at := '\0']
  {
    buf[at] := '\0';
  }

  /** strchr from `i` on; -1 when the string there has no such character. */
  method FindChar(buf: array<char>, i: nat, c: char) returns (p: int)
    requires i <= buf.Length
    ensures var s := StringAt(buf[..], i); var k := IndexOf(s, c);
            p == if k < |s| then i + k else -1
  {
    var s := StringAt(buf[..], i);
    var k := IndexOf(s, c);
    p := if k < |s| then i + k else -1;
  }

  // ---------- the lookup ----------

  /** An empty line tells nothing. */
  lemma SkipNewline(b: seq<char>, j: nat, component: string)
    requires Terminated(b) && j < |b| && b[j] == '\n'
    ensures j + 1 < |b| && Generation(StringAt(b, j), component) == Generation(StringAt(b, j + 1), component)
  {
  }

  /** strtok_r first skips newlines. */
  method SkipNewlines(buf: array<char>, save: nat, ghost component: string) returns (j: nat)
    requires save < buf.Length && Terminated(buf[..])
    ensures save <= j < buf.Length && buf[j] != '\n'
    ensures Generation(StringAt(buf[..], j), component) == Generation(StringAt(buf[..], save), component)
  {
    hide StringAt, Generation;
    j := save;
    while buf[j] == '\n'
      invariant save <= j < buf.Length
      invariant Generation(StringAt(buf[..], j), component) == Generation(StringAt(buf[..], save), component)
      decreases buf.Length - j
    {
      SkipNewline(buf[..], j, component);
      j := j + 1;
    }
  }

  /** What a lookup comes to that has a line and the text behind it. */
  function Judge(line: string, rest: string, component: string): int {
    var fields := Fields(line);
    if fields.Some? && fields.value.0 == component then Atoi(fields.value.1) else Generation(rest, component)
  }

  lemma NothingLeft(b: seq<char>, j: nat, component: string)
    requires j < |b| && b[j] == '\0'
    ensures StringAt(b, j) == "" && Generation(StringAt(b, j), component) == 0
  {
  }

  lemma FirstOf(s: string)
    ensures var k := IndexOf(s, '\n');
            && FirstLine(s) == (if k == |s| then s else s[..k])
            && AfterLine(s) == (if k == |s| then "" else s[k + 1..])
  {
    assert s[..|s|] == s;
  }

  lemma JudgeText(s: string, component: string)
    requires s != ""
    ensures var k := IndexOf(s, '\n');
            && (k == |s| ==> Generation(s, component) == Judge(s, "", component))
            && (k < |s| ==> Generation(s, component) == Judge(s[..k], s[k + 1..], component))
  {
    FirstOf(s);
    hide Fields, FirstLine, AfterLine, IndexOf, Atoi;
  }

  /** In a buffer, a string without a line end is judged as a whole. */
  lemma JudgeLast(b: seq<char>, j: nat, component: string)
    requires Terminated(b) && j < |b| && b[j] != '\0' && IndexOf(StringAt(b, j), '\n') == |StringAt(b, j)|
    ensures j + |StringAt(b, j)| < |b| && StringAt(b, j) != "" && StringAt(b, j + |StringAt(b, j)|) == ""
    ensures Generation(StringAt(b, j), component) == Judge(StringAt(b, j), "", component)
  {
    hide Generation, Judge, UptoNul, IndexOf;
    EndsInside(b, j);
    StartsHere(b, j);
    hide StringAt;
    JudgeText(StringAt(b, j), component);
    NothingLeft(b, j + |StringAt(b, j)|, component);
  }

  lemma StartsHere(b: seq<char>, j: nat)
    requires j < |b| && b[j] != '\0'
    ensures StringAt(b, j) != "" && StringAt(b, j)[0] == b[j]
  {
  }

  lemma LineInside(b: seq<char>, j: nat, k: nat)
    requires Terminated(b) && j < |b| && b[j] != '\0' && b[j] != '\n'
    requires IndexOf(StringAt(b, j), '\n') == k < |StringAt(b, j)|
    ensures k > 0 && j + k + 1 < |b|
  {
    StartsHere(b, j);
    EndsInside(b, j);
    hide StringAt;
  }

  /** Any other is judged by its first line, of `k` characters, and the rest. */
  lemma JudgeFirst(b: seq<char>, j: nat, k: nat, component: string)
    requires j + k + 1 <= |b| && IndexOf(StringAt(b, j), '\n') == k < |StringAt(b, j)|
    ensures Generation(StringAt(b, j), component) == Judge(StringAt(b, j)[..k], StringAt(b, j + k + 1), component)
  {
    hide Generation, Judge, UptoNul, IndexOf, StringAt;
    JudgeText(StringAt(b, j), component);
    TailAt(b, j, k + 1);
  }

  /**
    strtok_r with newline as the only delimiter: the next line that is not empty, cut off in place,
    and where to go on. `start` is -1 when there is none.
   */
  method NextLine(buf: array<char>, save: nat, ghost component: string) returns (start: int, next: nat)
    requires save < buf.Length && Terminated(buf[..])
    modifies buf
    ensures Terminated(buf[..]) && save <= next < buf.Length
    ensures start == -1 ==> Generation(StringAt(old(buf[..]), save), component) == 0
    ensures start != -1 ==>
              && save <= start < next && StringAt(buf[..], start) != ""
              && start + |StringAt(buf[..], start)| <= next
              && Generation(StringAt(old(buf[..]), save), component)
                 == Judge(StringAt(buf[..], start), StringAt(buf[..], next), component)
  {
    hide StringAt, Generation, Judge, Fields, IndexOf;
    var j := SkipNewlines(buf, save, component);
    if buf[j] == '\0' {
      NothingLeft(buf[..], j, component);
      return -1, j;
    }
    start := j;
    var e := FindChar(buf, j, '\n');
    if e == -1 {
      JudgeLast(buf[..], j, component);
      next := j + |StringAt(buf[..], j)|;
    } else {
      ghost var b := buf[..];
      LineInside(b, j, e - j);
      JudgeFirst(b, j, e - j, component);
      CutAt(b, j, e);
      PutNul(buf, e);
      StringFrom(b, buf[..], e + 1);
      next := e + 1;
    }
  }

  /** The fields of one line, cut out in place; -1 when it has no comma. */
  method CutFields(buf: array<char>, line: nat) returns (comma: int)
    requires line < buf.Length && Terminated(buf[..]) && StringAt(buf[..], line) != ""
    modifies buf
    ensures Terminated(buf[..])
    ensures var s := StringAt(old(buf[..]), line);
            && line + |s| < buf.Length && buf[line + |s|..] == old(buf[..])[line + |s|..]
            && (comma == -1 <==> Fields(s).None?)
            && (comma != -1 ==> line <= comma < line + |s|)
            && (comma != -1 ==> Fields(s).value == (StringAt(buf[..], line), StringAt(buf[..], comma + 1)))
  {
    hide StringAt, IndexOf;
    ghost var b0, s := buf[..], StringAt(buf[..], line);
    ChompInPlace(buf, line);
    ghost var b1, l := buf[..], Chomp(s);
    comma := FindChar(buf, line, ',');
    if comma != -1 {
      comma := CutSecond(buf, line, comma);
      ghost var stop, mid := line + |s|, line + |l|;
      assert buf[stop..] == buf[mid..][stop - mid..] == b1[mid..][stop - mid..] == b1[stop..];
    }
  }

  lemma ChompedAt(b: seq<char>, line: nat)
    requires Terminated(b) && line < |b| && StringAt(b, line) != ""
    ensures var s := StringAt(b, line); var stop := line + |s|;
            && stop <= |b| && Chomp(s) == if b[stop - 1] == '\r' then s[..stop - 1 - line] else s
  {
    hide StringAt;
    EndsInside(b, line);
    InsideAt(b, line, |StringAt(b, line)| - 1);
  }

  /** Drops the carriage return at the end of a line. */
  method ChompInPlace(buf: array<char>, line: nat)
    requires line < buf.Length && Terminated(buf[..]) && StringAt(buf[..], line) != ""
    modifies buf
    ensures Terminated(buf[..])
    ensures var s := StringAt(old(buf[..]), line);
            && line + |s| < buf.Length && buf[line + |s|..] == old(buf[..])[line + |s|..]
            && StringAt(buf[..], line) == Chomp(s)
  {
    hide StringAt, Chomp;
    ghost var b := buf[..];
    EndsInside(b, line);
    var stop := line + |StringAt(buf[..], line)|;
    ChompedAt(b, line);
    if buf[stop - 1] == '\r' {
      CutAt(b, line, stop - 1);
      PutNul(buf, stop - 1);
    }
  }

  /** Cuts at the first comma, and at the second if there is one. */
  method CutSecond(buf: array<char>, line: nat, at: nat) returns (comma: int)
    requires line < buf.Length && Terminated(buf[..])
    requires at - line == IndexOf(StringAt(buf[..], line), ',') < |StringAt(buf[..], line)|
    modifies buf
    ensures Terminated(buf[..]) && comma == at
    ensures var l := StringAt(old(buf[..]), line); var k := at - line; var rest := l[k + 1..];
            && StringAt(buf[..], line) == l[..k] && StringAt(buf[..], at + 1) == rest[..IndexOf(rest, ',')]
            && line + |l| < buf.Length && buf[line + |l|..] == old(buf[..])[line + |l|..]
  {
    hide StringAt, IndexOf;
    ghost var b, l := buf[..], StringAt(buf[..], line);
    EndsInside(b, line);
    TailAt(b, line, at + 1 - line);
    CutAt(b, line, at);
    PutNul(buf, at);
    ghost var c, rest := buf[..], l[at - line + 1..];
    StringFrom(b, c, at + 1);
    var comma2 := FindChar(buf, at + 1, ',');
    if comma2 != -1 {
      CutAt(c, at + 1, comma2);
      CutBehind(c, line, comma2);
      PutNul(buf, comma2);
    } else {
      assert rest[..|rest|] == rest;
    }
    comma := at;
  }

  /** pki_sbat_get_generation: the fields are compared and read where they were cut. */
  method GetGeneration(content: string, component: string) returns (generation: int)
    ensures generation == Generation(UptoNul(content), component)
  {
    hide StringAt, Generation, Fields, UptoNul;
    var buf := new char[|content| + 1];
    forall i | 0 <= i < |content| {
      buf[i] := content[i];
    }
    buf[|content|] := '\0';
    assert buf[..] == content + ['\0'];
    Whole(content);
    var line, save := NextLine(buf, 0, component);
    while line != -1
      invariant Terminated(buf[..]) && save < buf.Length
      invariant line == -1 ==> Generation(UptoNul(content), component) == 0
      invariant line != -1 ==>
                  && 0 <= line < save && StringAt(buf[..], line) != ""
                  && line + |StringAt(buf[..], line)| <= save
                  && Generation(UptoNul(content), component)
                     == Judge(StringAt(buf[..], line), StringAt(buf[..], save), component)
      decreases buf.Length - save, line
    {
      ghost var b := buf[..];
      var comma := CutFields(buf, line);
      ghost var end := line + |StringAt(b, line)|;
      assert buf[..][save..] == buf[end..][save - end..] == b[end..][save - end..] == b[save..];
      StringFrom(b, buf[..], save);
      if comma != -1 && StringAt(buf[..], line) == component {
        return Atoi(StringAt(buf[..], comma + 1));
      }
      line, save := NextLine(buf, save, component);
    }
    generation := 0;
  }

  lemma Whole(content: string)
    ensures StringAt(content + ['\0'], 0) == UptoNul(content)
  {
    var b := content + ['\0'];
    assert b[0..] == b;
    UptoNulEnds(content);
    var k := |UptoNul(content)|;
    assert b[..k] == content[..k] == UptoNul(content);
    UptoNulIs(b, k);
  }

  // ---------- printed tables ----------

  datatype Row = Row(component: string, generation: int, rest: Option<string>)

  predicate RowOk(r: Row) {
    && (forall c | c in r.component :: c != ',' && c != '\n' && c != '\0')
    && (r.rest.Some? ==> forall c | c in r.rest.value :: c != '\n' && c != '\0')
  }

  function PrintRow(r: Row): string {
    r.component + "," + PrintInt(r.generation) + (if r.rest.Some? then "," + r.rest.value else "")
  }

  function Print(rows: seq<Row>): string {
    if rows == [] then "" else PrintRow(rows[0]) + "\n" + Print(rows[1..])
  }

  /** The generation of the first row of this component, or 0. */
  function FirstGeneration(rows: seq<Row>, component: string): int {
    if rows == [] then 0
    else if rows[0].component == component then rows[0].generation
    else FirstGeneration(rows[1..], component)
  }

  lemma PrintIntPlain(n: int)
    ensures PrintInt(n) != "" && forall c :: c in PrintInt(n) ==> IsDigit(c) || c == '-'
  {
  }

  /** Two comma-separated fields and anything behind another comma. */
  lemma FieldsOf(line: string, first: string, second: string, more: string)
    requires Chomp(line) == first + "," + second + more
    requires ',' !in first && ',' !in second && (more == "" || more[0] == ',')
    ensures Fields(line) == Some((first, second))
  {
    var l := Chomp(line);
    hide Chomp;
    assert l[..|first|] == first;
    IndexOfIs(l, ',', |first|);
    var rest := l[|first| + 1..];
    assert rest == second + more && rest[..|second|] == second;
    IndexOfIs(rest, ',', |second|);
  }

  /** A printed row has the fields it was printed from. */
  lemma RowReadsBack(r: Row)
    requires RowOk(r)
    ensures Fields(PrintRow(r)) == Some((r.component, PrintInt(r.generation)))
    ensures '\n' !in PrintRow(r) && '\0' !in PrintRow(r)
  {
    PrintIntPlain(r.generation);
    hide Fields, PrintInt;
    var number := PrintInt(r.generation);
    var extra := if r.rest.Some? then "," + r.rest.value else "";
    var more := if extra != "" && extra[|extra| - 1] == '\r' then extra[..|extra| - 1] else extra;
    assert number[|number| - 1] in number;
    ChompEnd(r.component + "," + number, extra);
    FieldsOf(PrintRow(r), r.component, number, more);
  }

  lemma ChompEnd(start: string, end: string)
    requires start != "" && start[|start| - 1] != '\r'
    ensures Chomp(start + end) == start + (if end != "" && end[|end| - 1] == '\r' then end[..|end| - 1] else end)
  {
  }

  /** On any printed table the lookup gives the generation of the first row of the component. */
  lemma {:induction false} TableReadsBack(rows: seq<Row>, component: string)
    requires forall r :: r in rows ==> RowOk(r)
    ensures Generation(Print(rows), component) == FirstGeneration(rows, component)
    ensures '\0' !in Print(rows)
  {
    if rows != [] {
      var line, rest := PrintRow(rows[0]), Print(rows[1..]);
      RowReadsBack(rows[0]);
      AtoiPrintInt(rows[0].generation);
      TableReadsBack(rows[1..], component);
      var text := line + "\n" + rest;
      assert text[..|line|] == line && text[|line| + 1..] == rest;
      IndexOfIs(text, '\n', |line|);
    }
  }
}
