/** The table of translated strings, read from the text of a locale file. */
module Locale {
  import opened CStrings
  import SettingsStore

  type Entry = SettingsStore.Entry

  const MAX_ENTRIES: nat := 2048
  const KEY_ROOM: nat := 127
  const VAL_ROOM: nat := 511

  // ---------- what a text means ----------

  function DropReturns(line: string): string {
    if line != "" && line[0] == '\r' then DropReturns(line[1..]) else line
  }

  /** What one line adds: nothing for a comment, for a line without `=`, and for an overlong key. */
  function ReadLine(line: string): seq<Entry> {
    var l := DropReturns(line);
    var eq := IndexOf(l, '=');
    if l == "" || l[0] == '#' || l[0] == ';' || eq == |l| || eq > KEY_ROOM then []
    else [SettingsStore.Entry(l[..eq], Truncate(l[eq + 1..], VAL_ROOM))]
  }

  /** What a text says, line by line. */
  function Read(text: string): seq<Entry>
    decreases |text|
  {
    if text == "" then [] else ReadLine(FirstLine(text)) + Read(AfterLine(text))
  }

  /** The table has this much room. */
  function Fit(entries: seq<Entry>): seq<Entry> {
    if |entries| <= MAX_ENTRIES then entries else entries[..MAX_ENTRIES]
  }

  // ---------- the reading loop ----------

  /** A carriage return before a line says nothing. */
  lemma SkipReturn(line: string)
    requires line != "" && line[0] == '\r'
    ensures ReadLine(line) == ReadLine(line[1..])
  {
  }

  /** How a text splits whose first line starts with another character than its end. */
  lemma FirstLineGrows(text: string)
    requires text != "" && text[0] != '\n'
    ensures FirstLine(text) != "" && FirstLine(text)[0] == text[0]
    ensures FirstLine(text)[1..] == FirstLine(text[1..]) && AfterLine(text) == AfterLine(text[1..])
  {
  }

  lemma ReadOf(text: string)
    requires text != ""
    ensures Read(text) == ReadLine(FirstLine(text)) + Read(AfterLine(text))
  {
  }

  /** A line end, or a carriage return before a line, says nothing. */
  lemma SkipEnd(text: string)
    requires text != "" && (text[0] == '\n' || text[0] == '\r')
    ensures Read(text) == Read(text[1..])
  {
    Nothing();
    ReadOf(text);
    hide Read, ReadLine, DropReturns;
    if text[0] == '\n' {
      assert FirstLine(text) == "" && AfterLine(text) == text[1..];
    } else {
      hide FirstLine, AfterLine;
      FirstLineGrows(text);
      SkipReturn(FirstLine(text));
      if text[1..] != "" {
        ReadOf(text[1..]);
      }
    }
  }

  lemma Nothing()
    ensures FirstLine("") == "" && AfterLine("") == "" && ReadLine("") == [] && Read("") == []
  {
  }

  /** A line that adds nothing can be left up to its end. */
  lemma SkipRest(text: string)
    requires text != "" && ReadLine(FirstLine(text)) == []
    ensures Read(text) == Read(text[IndexOf(text, '\n')..])
  {
    hide ReadLine;
    var n := IndexOf(text, '\n');
    if n < |text| {
      assert text[n..] != "" && text[n..][1..] == text[n + 1..];
      SkipEnd(text[n..]);
    }
  }

  /** The first `=` of a line, and what stands around it, in terms of the whole text. */
  lemma FirstInLine(text: string)
    ensures var eq, nl, line := IndexOf(text, '='), IndexOf(text, '\n'), FirstLine(text);
            && (eq < nl ==> IndexOf(line, '=') == eq && line[..eq] == text[..eq] && line[eq + 1..] == text[eq + 1..nl])
            && (eq >= nl ==> IndexOf(line, '=') == |line|)
  {
    var eq, nl, line := IndexOf(text, '='), IndexOf(text, '\n'), FirstLine(text);
    if eq < nl {
      assert line[..eq] == text[..eq];
      IndexOfIs(line, '=', eq);
    } else {
      assert '=' !in line by {
        assert line == text[..eq][..nl];
      }
      IndexOfIs(line, '=', |line|);
    }
  }

  /** What a line says, in terms of the first `=` of the whole text. */
  lemma LineSays(text: string)
    requires text != "" && text[0] != '\r' && text[0] != '\n'
    ensures var eq, nl := IndexOf(text, '='), IndexOf(text, '\n');
            ReadLine(FirstLine(text)) ==
            if text[0] == '#' || text[0] == ';' || eq == |text| || eq > nl || eq > KEY_ROOM then []
            else [SettingsStore.Entry(text[..eq], Truncate(text[eq + 1..nl], VAL_ROOM))]
  {
    FirstLineGrows(text);
    FirstInLine(text);
    hide IndexOf, FirstLine, Truncate;
    assert DropReturns(FirstLine(text)) == FirstLine(text);
  }

  /** Runs on to the end of the line. */
  method SkipLine(s: string, p: nat) returns (q: nat)
    requires p <= |s|
    ensures q <= |s| && q == p + IndexOf(s[p..], '\n')
  {
    q := p;
    while q < |s| && s[q] != '\n'
      invariant p <= q <= |s|
      invariant '\n' !in s[p..q]
    {
      q := q + 1;
    }
    assert s[p..][..q - p] == s[p..q];
    IndexOfIs(s[p..], '\n', q - p);
  }

  /** Runs over line ends, and carriage returns in front of a line. */
  method SkipEnds(s: string, p: nat) returns (q: nat)
    requires p <= |s|
    ensures p <= q <= |s| && Read(s[q..]) == Read(s[p..])
    ensures q < |s| ==> s[q] != '\r' && s[q] != '\n'
  {
    hide Read;
    q := p;
    while q < |s| && (s[q] == '\r' || s[q] == '\n')
      invariant p <= q <= |s| && Read(s[q..]) == Read(s[p..])
    {
      SkipEnd(s[q..]);
      assert s[q..][1..] == s[q + 1..];
      q := q + 1;
    }
  }

  /** The text from `p` on, after an entry or a line without one has been dealt with. */
  lemma GoOn(s: string, p: nat)
    requires p < |s|
    ensures var t := s[p..]; var nl := IndexOf(t, '\n');
            && s[p + nl..] == t[nl..]
            && s[if nl < |t| then p + nl + 1 else |s|..] == AfterLine(t)
  {
  }

  class Catalogue {
    var entries: array?<Entry>
    var count: nat

    ghost predicate Valid()
      reads this
    {
      if entries == null then count == 0 else entries.Length == MAX_ENTRIES && count <= MAX_ENTRIES
    }

    ghost function Contents(): seq<Entry>
      reads this, entries
      requires Valid()
    {
      if entries == null then [] else entries[..count]
    }

    constructor ()
      ensures Valid() && Contents() == []
    {
      entries := null;
      count := 0;
    }

    /** loc_unload */
    method Unload()
      modifies this
      ensures Valid() && entries == null && Contents() == []
    {
      entries := null;
      count := 0;
    }

    /** parse_lines; `granted` is whether the table could be had. Whatever was loaded is gone. */
    method ParseLines(content: string, granted: bool) returns (code: int)
      modifies this
      ensures Valid() && (code == 0 <==> granted) && (code == 0 || code == -1)
      ensures Contents() == if granted then Fit(Read(UptoNul(content))) else []
    {
      Unload();
      if !granted {
        return -1;
      }
      var table := new Entry[MAX_ENTRIES](_ => SettingsStore.Entry("", ""));
      entries := table;
      count := ParseInto(table, UptoNul(content));
      code := 0;
    }

    /** loc_get_string: the first entry with the key, else the key itself. */
    method GetString(key: string) returns (val: string)
      requires Valid()
      ensures val == match SettingsStore.Lookup(Contents(), key) case Some(v) => v case None => key
    {
      if entries == null {
        return key;
      }
      for i := 0 to count
        invariant SettingsStore.Lookup(Contents()[i..], key) == SettingsStore.Lookup(Contents(), key)
      {
        if entries[i].key == key {
          return entries[i].val;
        }
        assert Contents()[i..][1..] == Contents()[i + 1..];
      }
      val := key;
    }
  }

  method Put(table: array<Entry>, at: nat, e: Entry, ghost done: seq<Entry>)
    requires at < table.Length && table[..at] == done
    modifies table
    ensures table[..at + 1] == done + [e]
  {
    table[at] := e;
  }

  /** The first line is a comment, has no `=`, or has too long a key. */
  predicate Skipped(text: string, eq: nat, nl: nat)
    requires text != ""
  {
    text[0] == '#' || text[0] == ';' || eq == |text| || eq > nl || eq > KEY_ROOM
  }

  /** The entry it holds else, `eq` and `nl` being the first `=` and line end. */
  function EntryOf(text: string, eq: nat, nl: nat): Entry
    requires eq < nl <= |text|
  {
    SettingsStore.Entry(text[..eq], Truncate(text[eq + 1..nl], VAL_ROOM))
  }

  lemma LineTaken(text: string, eq: nat, nl: nat)
    requires text != "" && text[0] != '\r' && text[0] != '\n'
    requires eq == IndexOf(text, '=') && nl == IndexOf(text, '\n') && !Skipped(text, eq, nl)
    ensures eq < nl && Read(text) == [EntryOf(text, eq, nl)] + Read(AfterLine(text))
  {
    hide Read, ReadLine, FirstLine, AfterLine;
    LineSays(text);
    ReadOf(text);
    assert nl < |text| ==> text[eq] != text[nl];
  }

  lemma LineSkipped(text: string, eq: nat, nl: nat)
    requires text != "" && text[0] != '\r' && text[0] != '\n'
    requires eq == IndexOf(text, '=') && nl == IndexOf(text, '\n') && Skipped(text, eq, nl)
    ensures Read(text) == Read(text[nl..])
  {
    hide Read, ReadLine, FirstLine, AfterLine, IndexOf;
    LineSays(text);
    SkipRest(text);
  }

  /** Reads on from the start of a line: the entry it holds, if any, and where to go on. */
  method ReadOne(s: string, p: nat) returns (e: Option<Entry>, q: nat)
    requires p < |s| && s[p] != '\r' && s[p] != '\n'
    ensures p < q <= |s|
    ensures Read(s[p..]) == (if e.Some? then [e.value] else []) + Read(s[q..])
  {
    hide Read, IndexOf, EntryOf, Skipped, FirstLine, AfterLine;
    GoOn(s, p);
    var text := s[p..];
    var eq, nl := IndexOf(text, '='), IndexOf(text, '\n');
    if Skipped(text, eq, nl) {
      LineSkipped(text, eq, nl);
      q := SkipLine(s, p);
      e := None;
    } else {
      LineTaken(text, eq, nl);
      e := Some(EntryOf(text, eq, nl));
      q := if p + nl < |s| then p + nl + 1 else |s|;
    }
  }

  /** The loop over the text, with `p` moving through it. */
  method ParseInto(table: array<Entry>, s: string) returns (count: nat)
    requires table.Length == MAX_ENTRIES
    modifies table
    ensures count <= MAX_ENTRIES && table[..count] == Fit(Read(s))
  {
    hide Read;
    var p := 0;
    count := 0;
    ghost var done: seq<Entry>, all := [], Read(s);
    assert s[0..] == s;
    while p < |s| && count < MAX_ENTRIES
      invariant p <= |s| && count <= MAX_ENTRIES
      invariant |done| == count && table[..count] == done
      invariant done + Read(s[p..]) == all
      decreases |s| - p
    {
      p := SkipEnds(s, p);
      if p == |s| {
        break;
      }
      ghost var here := p;
      var e;
      e, p := ReadOne(s, p);
      if e.Some? {
        Put(table, count, e.value, done);
        count := count + 1;
      }
      OneMore(done, Read(s[here..]), e, Read(s[p..]));
      done := done + if e.Some? then [e.value] else [];
    }
    AllRead(done, s[p..]);
  }

  lemma OneMore(done: seq<Entry>, before: seq<Entry>, e: Option<Entry>, after: seq<Entry>)
    requires before == (if e.Some? then [e.value] else []) + after
    ensures done + before == (done + if e.Some? then [e.value] else []) + after
  {
  }

  /** The loop is over: the text is used up, or the table is full. */
  lemma AllRead(done: seq<Entry>, rest: string)
    requires |done| <= MAX_ENTRIES && (rest == "" || |done| == MAX_ENTRIES)
    ensures done == Fit(done + Read(rest))
  {
  }

  // ---------- printed tables ----------

  datatype Item = Pair(entry: Entry) | Comment(text: string) | Plain(text: string)

  function PrintItem(i: Item): string {
    match i
    case Pair(e) => e.key + "=" + e.val
    case Comment(t) => t
    case Plain(t) => t
  }

  predicate OneLine(s: string) {
    '\n' !in s && '\0' !in s
  }

  predicate ItemOk(i: Item) {
    match i
    case Pair(e) =>
      && |e.key| <= 127 && |e.val| <= 511 && OneLine(e.key) && OneLine(e.val) && '=' !in e.key
      && (e.key != "" ==> e.key[0] != '#' && e.key[0] != ';' && e.key[0] != '\r')
    case Comment(t) => t != "" && (t[0] == '#' || t[0] == ';') && OneLine(t)
    case Plain(t) => '=' !in t && OneLine(t)
  }

  function Print(items: seq<Item>): string {
    if items == [] then "" else PrintItem(items[0]) + "\n" + Print(items[1..])
  }

  /** The entries among the items, in order. */
  function Pairs(items: seq<Item>): seq<Entry> {
    if items == [] then []
    else (if items[0].Pair? then [items[0].entry] else []) + Pairs(items[1..])
  }

  lemma {:induction false} NoEquals(line: string)
    requires '=' !in line
    ensures ReadLine(line) == []
  {
    if line != "" && line[0] == '\r' {
      NoEquals(line[1..]);
    } else {
      IndexOfIs(line, '=', |line|);
    }
  }

  lemma ItemReadsBack(i: Item)
    requires ItemOk(i)
    ensures ReadLine(PrintItem(i)) == if i.Pair? then [i.entry] else []
    ensures OneLine(PrintItem(i))
  {
    match i
    case Pair(e) =>
      var line := PrintItem(i);
      assert line[..|e.key|] == e.key && line[|e.key| + 1..] == e.val;
      IndexOfIs(line, '=', |e.key|);
    case Comment(t) =>
    case Plain(t) => NoEquals(t);
  }

  lemma {:induction false} PrintReadsBack(items: seq<Item>)
    requires forall i :: i in items ==> ItemOk(i)
    ensures Read(Print(items)) == Pairs(items) && '\0' !in Print(items)
  {
    hide ReadLine, PrintItem, ItemOk;
    if items != [] {
      var line, rest := PrintItem(items[0]), Print(items[1..]);
      ItemReadsBack(items[0]);
      PrintReadsBack(items[1..]);
      var text := line + "\n" + rest;
      assert text[..|line|] == line && text[|line| + 1..] == rest;
      IndexOfIs(text, '\n', |line|);
    }
  }

  /** Whatever the text, no longer key is taken, and no longer value. */
  lemma {:induction false} ReadIsBounded(text: string)
    ensures forall e :: e in Read(text) ==> |e.key| <= 127 && |e.val| <= 511 && '=' !in e.key
    decreases |text|
  {
    if text != "" {
      ReadIsBounded(AfterLine(text));
      hide FirstLine, AfterLine, DropReturns;
      assert forall e :: e in ReadLine(FirstLine(text)) ==> |e.key| <= 127 && |e.val| <= 511 && '=' !in e.key;
    }
  }

  /**
    Loading inverts printing: entries in any mix with comments, blank lines and lines without `=`
    come back in order, as far as the table goes.
   */
  lemma LoadInvertsPrint(items: seq<Item>)
    requires forall i :: i in items ==> ItemOk(i)
    ensures Fit(Read(UptoNul(Print(items)))) == if |Pairs(items)| <= 2048 then Pairs(items) else Pairs(items)[..2048]
  {
    PrintReadsBack(items);
    UptoNulWhole(Print(items));
  }
}
