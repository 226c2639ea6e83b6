/** The settings table: a bounded list of keys and values, kept in a text file between runs. */
module SettingsStore {
  import opened CStrings

  const MAX_ENTRIES: nat := 256
  const KEY_ROOM: nat := 127
  const VAL_ROOM: nat := 511
  const LINE_ROOM: nat := 643

  datatype Entry = Entry(key: string, val: string)

  // ---------- the file format ----------

  /** How much one fgets takes: through the next newline, but no more than the buffer holds. */
  function ChunkLength(content: string): (n: nat)
    ensures n <= |content| && n <= LINE_ROOM && (content != "" ==> n > 0)
  {
    var i := IndexOf(content, '\n');
    var line := if i < |content| then i + 1 else i;
    if line < LINE_ROOM then line else LINE_ROOM
  }

  /** strcspn(s, "\r\n"): the part before the first line end. */
  function CutEol(s: string): (r: string)
    ensures r <= s && '\r' !in r && '\n' !in r
  {
    if s == "" || s[0] == '\r' || s[0] == '\n' then ""
    else
      assert s == [s[0]] + s[1..];
      [s[0]] + CutEol(s[1..])
  }

  function ParseChunk(chunk: string): Option<Entry> {
    var s := UptoNul(chunk);
    var eq := IndexOf(s, '=');
    if eq == |s| || s[0] == '#' || s[0] == '[' then None
    else Some(Entry(Truncate(s[..eq], KEY_ROOM), Truncate(CutEol(s[eq + 1..]), VAL_ROOM)))
  }

  /** The entries a file adds to a table that holds `count` already. */
  function Parse(content: string, count: nat): seq<Entry>
    decreases |content|
  {
    if content == "" || count >= MAX_ENTRIES then []
    else
      var n := ChunkLength(content);
      match ParseChunk(content[..n])
      case None => Parse(content[n..], count)
      case Some(e) => [e] + Parse(content[n..], count + 1)
  }

  /** One turn of the reading loop, on top of the entries read before. */
  lemma ParseTakes(before: seq<Entry>, content: string)
    requires content != "" && |before| < MAX_ENTRIES
    ensures var n := ChunkLength(content); var e := ParseChunk(content[..n]);
            before + Parse(content, |before|) ==
            if e.None? then before + Parse(content[n..], |before|)
            else before + [e.value] + Parse(content[n..], |before| + 1)
  {
    hide ParseChunk, ChunkLength;
    var n := ChunkLength(content);
    var e, rest := ParseChunk(content[..n]), Parse(content[n..], |before| + 1);
    if e.Some? {
      assert Parse(content, |before|) == [e.value] + rest;
      assert before + ([e.value] + rest) == before + [e.value] + rest;
    } else {
      assert Parse(content, |before|) == Parse(content[n..], |before|);
    }
  }

  lemma ParseDone(content: string, count: nat)
    requires content == "" || count >= MAX_ENTRIES
    ensures Parse(content, count) == []
  {
  }

  /** What opening finds; no file is the empty table. */
  function Loaded(file: Option<string>): seq<Entry> {
    if file.None? then [] else Parse(file.value, 0)
  }

  function PrintEntry(e: Entry): string {
    e.key + "=" + e.val + "\n"
  }

  function PrintEntries(entries: seq<Entry>): string {
    if entries == [] then ""
    else PrintEntries(entries[..|entries| - 1]) + PrintEntry(entries[|entries| - 1])
  }

  const HEADING: string := "[Winafi]\n"

  predicate KeyOk(key: string) {
    && |key| <= 127 && (key != "" ==> key[0] != '#' && key[0] != '[')
    && forall c | c in key :: c != '=' && c != '\n' && c != '\0'
  }

  predicate ValOk(val: string) {
    |val| <= 511 && forall c | c in val :: c != '\r' && c != '\n' && c != '\0'
  }

  ghost predicate TableOk(entries: seq<Entry>) {
    |entries| <= 256 && forall e :: e in entries ==> KeyOk(e.key) && ValOk(e.val)
  }

  // ---------- the table ----------

  /** The value of the first entry with this key. */
  function Lookup(entries: seq<Entry>, key: string): Option<string> {
    if entries == [] then None
    else if entries[0].key == key then Some(entries[0].val)
    else Lookup(entries[1..], key)
  }

  /** The index of the first entry with this key, or the number of entries. */
  function Find(entries: seq<Entry>, key: string): (i: nat)
    ensures i <= |entries| && (i < |entries| ==> entries[i].key == key)
    ensures forall k :: 0 <= k < i ==> entries[k].key != key
  {
    if entries == [] || entries[0].key == key then 0
    else
      var i := 1 + Find(entries[1..], key);
      assert forall k :: 0 < k < i ==> entries[k] == entries[1..][k - 1];
      i
  }

  /** Set replaces the first entry with the key, or adds one while there is room; else nothing. */
  function Set(entries: seq<Entry>, key: string, val: string): seq<Entry> {
    var i := Find(entries, key);
    if i < |entries| then entries[i := Entry(entries[i].key, Truncate(val, VAL_ROOM))]
    else if |entries| >= MAX_ENTRIES then entries
    else entries + [Entry(Truncate(key, KEY_ROOM), Truncate(val, VAL_ROOM))]
  }

  /** The key is there already, or there is a slot for it. */
  predicate Fits(entries: seq<Entry>, key: string) {
    Find(entries, key) < |entries| || |entries| < MAX_ENTRIES
  }

  lemma {:induction false} LookupIsFind(entries: seq<Entry>, key: string)
    ensures var i := Find(entries, key);
            Lookup(entries, key) == if i < |entries| then Some(entries[i].val) else None
  {
    if entries != [] && entries[0].key != key {
      LookupIsFind(entries[1..], key);
    }
  }

  lemma FindIs(entries: seq<Entry>, key: string, i: nat)
    requires i <= |entries| && (i < |entries| ==> entries[i].key == key)
    requires forall k :: 0 <= k < i ==> entries[k].key != key
    ensures Find(entries, key) == i
  {
  }

  /** A set takes exactly when it fits; it never disturbs another key. */
  lemma SetThenLookup(entries: seq<Entry>, key: string, val: string, other: string)
    requires |key| <= KEY_ROOM
    ensures Fits(entries, key) ==> Lookup(Set(entries, key, val), key) == Some(Truncate(val, VAL_ROOM))
    ensures !Fits(entries, key) ==> Set(entries, key, val) == entries && Lookup(entries, key) == None
    ensures other != key ==> Lookup(Set(entries, key, val), other) == Lookup(entries, other)
  {
    var after, i, j := Set(entries, key, val), Find(entries, key), Find(entries, other);
    LookupIsFind(entries, key);
    LookupIsFind(entries, other);
    LookupIsFind(after, key);
    LookupIsFind(after, other);
    if Fits(entries, key) {
      FindIs(after, key, i);
      if other != key {
        FindIs(after, other, if j < |entries| then j else |after|);
      }
    }
  }

  ghost predicate Distinct(entries: seq<Entry>) {
    forall i, j :: 0 <= i < j < |entries| ==> entries[i].key != entries[j].key
  }

  /** Keys stay distinct exactly when the set finds its key, has no room, or its cut key is new. */
  lemma SetKeepsDistinct(entries: seq<Entry>, key: string, val: string)
    requires Distinct(entries)
    ensures Distinct(Set(entries, key, val)) <==>
            || Find(entries, key) < |entries| || |entries| >= MAX_ENTRIES
            || Find(entries, Truncate(key, KEY_ROOM)) == |entries|
    ensures |key| <= KEY_ROOM ==> Distinct(Set(entries, key, val))
  {
    var cut := Truncate(key, KEY_ROOM);
    var i, after := Find(entries, cut), Set(entries, key, val);
    if Find(entries, key) == |entries| < MAX_ENTRIES && i < |entries| {
      assert after[i].key == after[|entries|].key;
    }
  }

  lemma SetKeepsOk(entries: seq<Entry>, key: string, val: string)
    requires TableOk(entries) && KeyOk(key) && ValOk(val)
    ensures TableOk(Set(entries, key, val))
  {
  }

  // ---------- printing and reading back ----------

  lemma {:induction false} CutEolWhole(s: string, tail: string)
    requires '\r' !in s && '\n' !in s && (tail == "" || tail[0] == '\r' || tail[0] == '\n')
    ensures CutEol(s + tail) == s
  {
    if s == "" {
      assert s + tail == tail;
    } else {
      assert (s + tail)[1..] == s[1..] + tail;
      CutEolWhole(s[1..], tail);
    }
  }

  /** A line of the file is one chunk. */
  lemma OneChunk(line: string, rest: string)
    requires '\n' !in line && |line| < LINE_ROOM
    ensures ChunkLength(line + "\n" + rest) == |line| + 1
    ensures (line + "\n" + rest)[..|line| + 1] == line + "\n" && (line + "\n" + rest)[|line| + 1..] == rest
  {
    var content := line + "\n" + rest;
    assert content[..|line|] == line;
    IndexOfIs(content, '\n', |line|);
  }

  /** A printed entry reads back as itself. */
  lemma EntryReadsBack(e: Entry)
    requires KeyOk(e.key) && ValOk(e.val)
    ensures ParseChunk(PrintEntry(e)) == Some(e)
  {
    var s := PrintEntry(e);
    UptoNulWhole(s);
    assert s[..|e.key|] == e.key && s[|e.key| + 1..] == e.val + "\n";
    IndexOfIs(s, '=', |e.key|);
    CutEolWhole(e.val, "\n");
  }

  lemma PrintEntriesLast(entries: seq<Entry>)
    requires entries != []
    ensures PrintEntries(entries) == PrintEntries(entries[..|entries| - 1]) + PrintEntry(entries[|entries| - 1])
  {
  }

  lemma TailsFront(entries: seq<Entry>)
    requires |entries| > 1
    ensures entries[1..][..|entries[1..]| - 1] == entries[..|entries| - 1][1..]
    ensures entries[1..][|entries[1..]| - 1] == entries[|entries| - 1] && entries[..|entries| - 1][0] == entries[0]
  {
  }

  lemma Regroup(a: string, b: string, c: string)
    ensures (a + b) + c == a + (b + c)
  {
  }

  lemma {:induction false} PrintEntriesFront(entries: seq<Entry>)
    requires entries != []
    ensures PrintEntries(entries) == PrintEntry(entries[0]) + PrintEntries(entries[1..])
  {
    hide PrintEntry;
    if |entries| == 1 {
      assert entries[..0] == [] && entries[1..] == [];
    } else {
      var front, last := entries[..|entries| - 1], entries[|entries| - 1];
      PrintEntriesFront(front);
      TailsFront(entries);
      hide PrintEntries;
      PrintEntriesLast(entries);
      PrintEntriesLast(entries[1..]);
      Regroup(PrintEntry(entries[0]), PrintEntries(front[1..]), PrintEntry(last));
    }
  }

  lemma {:induction false} EntriesReadBack(entries: seq<Entry>, count: nat)
    requires TableOk(entries) && count + |entries| <= MAX_ENTRIES
    ensures Parse(PrintEntries(entries), count) == entries
  {
    if entries != [] {
      var e, rest := entries[0], PrintEntries(entries[1..]);
      var line := e.key + "=" + e.val;
      PrintEntriesFront(entries);
      assert PrintEntries(entries) == line + "\n" + rest;
      OneChunk(line, rest);
      EntryReadsBack(e);
      EntriesReadBack(entries[1..], count + 1);
      assert [e] + entries[1..] == entries;
    }
  }

  /** Loading what a flush wrote gives the table that was flushed. */
  lemma TableReadsBack(entries: seq<Entry>)
    requires TableOk(entries)
    ensures Loaded(Some(HEADING + PrintEntries(entries))) == entries
  {
    BehindHeading(PrintEntries(entries));
    EntriesReadBack(entries, 0);
  }

  // ---------- a file that was edited by hand ----------

  /** A line: an entry, its end perhaps a carriage return and a newline, or one that says nothing. */
  datatype Item = Pair(entry: Entry, ended: bool) | Comment(text: string) | Plain(text: string)

  function LineText(i: Item): string {
    match i
    case Pair(e, ended) => e.key + "=" + e.val + (if ended then "\r" else "")
    case Comment(t) => t
    case Plain(t) => t
  }

  predicate ItemOk(i: Item) {
    match i
    case Pair(e, _) => KeyOk(e.key) && ValOk(e.val)
    case Comment(t) => t != "" && (t[0] == '#' || t[0] == '[') && '\n' !in t && '\0' !in t && |t| < 643
    case Plain(t) => '=' !in t && '\n' !in t && '\0' !in t && |t| < 643
  }

  function Lines(items: seq<Item>): string {
    if items == [] then "" else LineText(items[0]) + "\n" + Lines(items[1..])
  }

  /** The entries among the lines, in order, as many as there is room for. */
  function Pairs(items: seq<Item>, room: nat): seq<Entry> {
    if items == [] || room == 0 then []
    else if items[0].Pair? then [items[0].entry] + Pairs(items[1..], room - 1)
    else Pairs(items[1..], room)
  }

  lemma PairParses(e: Entry, ended: bool)
    requires KeyOk(e.key) && ValOk(e.val)
    ensures var line := LineText(Pair(e, ended));
            ParseChunk(line + "\n") == Some(e) && '\n' !in line && |line| < 643
  {
    var line := LineText(Pair(e, ended));
    var tail := if ended then "\r\n" else "\n";
    var s := line + "\n";
    assert s == e.key + "=" + (e.val + tail);
    UptoNulWhole(s);
    SplitsAtSign(e.key, e.val + tail);
    hide UptoNul, CutEol;
    CutEolWhole(e.val, tail);
  }

  lemma OtherParses(t: string)
    requires '\n' !in t && '\0' !in t && ((t != "" && (t[0] == '#' || t[0] == '[')) || '=' !in t)
    ensures ParseChunk(t + "\n") == None
  {
    var s := t + "\n";
    UptoNulWhole(s);
    hide UptoNul;
    if '=' !in t {
      IndexOfIs(s, '=', |s|);
    }
  }

  lemma ItemParses(i: Item)
    requires ItemOk(i)
    ensures ParseChunk(LineText(i) + "\n") == if i.Pair? then Some(i.entry) else None
    ensures '\n' !in LineText(i) && |LineText(i)| < 643
  {
    hide ParseChunk, KeyOk, ValOk;
    match i
    case Pair(e, ended) => PairParses(e, ended);
    case Comment(t) => OtherParses(t);
    case Plain(t) => OtherParses(t);
  }

  /** Whatever lines a file is made of, its entries are read in order, up to 256, and nothing else. */
  lemma {:induction false} LinesReadBack(items: seq<Item>, count: nat)
    requires count <= 256 && forall i :: i in items ==> ItemOk(i)
    ensures Parse(Lines(items), count) == Pairs(items, 256 - count)
  {
    hide ItemOk, LineText, ParseChunk, ChunkLength;
    if items != [] && count < 256 {
      var line, rest := LineText(items[0]), Lines(items[1..]);
      ItemParses(items[0]);
      OneChunk(line, rest);
      LinesReadBack(items[1..], if items[0].Pair? then count + 1 else count);
    }
  }

  // ---------- a file that was cut short ----------

  /** Text without `=` adds nothing. */
  lemma {:induction false} NothingIn(content: string, count: nat)
    requires '=' !in content
    ensures Parse(content, count) == []
    decreases |content|
  {
    if content != "" && count < MAX_ENTRIES {
      var n := ChunkLength(content);
      assert UptoNul(content[..n]) <= content[..n] <= content;
      assert ParseChunk(content[..n]) == None;
      NothingIn(content[n..], count);
    }
  }

  function LineOf(e: Entry): string {
    e.key + "=" + e.val
  }

  lemma LineIs(e: Entry)
    requires KeyOk(e.key) && ValOk(e.val)
    ensures |LineOf(e)| == |e.key| + 1 + |e.val| < LINE_ROOM && PrintEntry(e) == LineOf(e) + "\n"
    ensures '\n' !in LineOf(e) && '\0' !in LineOf(e)
  {
  }

  /** The first `k` characters of a printed line say as much of it as is there. */
  lemma CutLine(e: Entry, k: nat)
    requires KeyOk(e.key) && ValOk(e.val) && k <= |LineOf(e)|
    ensures ParseChunk(LineOf(e)[..k]) ==
            if k <= |e.key| then None else Some(Entry(e.key, e.val[..k - |e.key| - 1]))
  {
    if k <= |e.key| {
      assert LineOf(e)[..k] == e.key[..k];
      CutKey(e.key, k);
    } else {
      var val := e.val[..k - |e.key| - 1];
      assert LineOf(e)[..k] == e.key + "=" + val && forall c :: c in val ==> c in e.val;
      CutVal(e.key, val);
    }
  }

  lemma CutKey(key: string, k: nat)
    requires KeyOk(key) && k <= |key|
    ensures ParseChunk(key[..k]) == None
  {
    var s := key[..k];
    assert forall c :: c in s ==> c in key;
    UptoNulWhole(s);
    assert '=' !in s;
  }

  lemma CutVal(key: string, val: string)
    requires KeyOk(key) && ValOk(val)
    ensures ParseChunk(key + "=" + val) == Some(Entry(key, val))
  {
    var s := key + "=" + val;
    SplitsAtSign(key, val);
    assert '\0' !in s;
    assert s[0] == if key == "" then '=' else key[0];
    hide UptoNul, IndexOf, CutEol;
    UptoNulWhole(s);
    assert val + "" == val;
    CutEolWhole(val, "");
  }

  lemma SplitsAtSign(key: string, val: string)
    requires '=' !in key
    ensures var s := key + "=" + val; IndexOf(s, '=') == |key| && s[..|key|] == key && s[|key| + 1..] == val
  {
    var s := key + "=" + val;
    assert s[..|key|] == key;
    IndexOfIs(s, '=', |key|);
  }

  /** A last line without its end is one chunk. */
  lemma LastChunk(s: string, count: nat)
    requires s != "" && '\n' !in s && |s| < LINE_ROOM && count < MAX_ENTRIES
    ensures Parse(s, count) == match ParseChunk(s) case None => [] case Some(e) => [e]
  {
    IndexOfIs(s, '\n', |s|);
    assert s[..|s|] == s && s[|s|..] == "";
    hide ParseChunk;
  }

  /** A text cut within its first line does not read back, unless all of a single entry is there. */
  lemma CutFirst(entries: seq<Entry>, count: nat, k: nat)
    requires entries != [] && KeyOk(entries[0].key) && ValOk(entries[0].val) && count + |entries| <= MAX_ENTRIES
    requires k <= |LineOf(entries[0])|
    ensures Parse(LineOf(entries[0])[..k], count) == entries <==> |entries| == 1 && k == |LineOf(entries[0])|
  {
    var e, s := entries[0], LineOf(entries[0])[..k];
    LineIs(e);
    CutLine(e, k);
    hide ParseChunk, LineOf, KeyOk, ValOk;
    if k == 0 {
      ParseDone(s, count);
    } else {
      LastChunk(s, count);
      hide Parse;
      assert k == |LineOf(e)| ==> e.val[..|e.val|] == e.val;
    }
  }

  lemma SplitFirst(entries: seq<Entry>, k: nat)
    requires entries != [] && k <= |PrintEntries(entries)|
    ensures var line, rest := LineOf(entries[0]), PrintEntries(entries[1..]);
            && |PrintEntries(entries)| == |line| + 1 + |rest|
            && PrintEntries(entries)[..k] == if k <= |line| then line[..k] else line + "\n" + rest[..k - |line| - 1]
  {
    PrintEntriesFront(entries);
    hide PrintEntries, LineOf;
    CutBehind(LineOf(entries[0]), PrintEntries(entries[1..]), k);
  }

  lemma CutBehind(line: string, rest: string, k: nat)
    requires k <= |line| + 1 + |rest|
    ensures (line + "\n" + rest)[..k] == if k <= |line| then line[..k] else line + "\n" + rest[..k - |line| - 1]
  {
  }

  lemma ParseFirst(e: Entry, rest: string, count: nat)
    requires KeyOk(e.key) && ValOk(e.val) && count < MAX_ENTRIES
    ensures Parse(LineOf(e) + "\n" + rest, count) == [e] + Parse(rest, count + 1)
  {
    LineIs(e);
    hide LineOf, ParseChunk, ChunkLength;
    OneChunk(LineOf(e), rest);
    EntryReadsBack(e);
  }

  /** The first `k` characters of the printed entries still read back as all of them. */
  ghost predicate Enough(entries: seq<Entry>, count: nat, k: nat)
    requires k <= |PrintEntries(entries)|
  {
    Parse(PrintEntries(entries)[..k], count) == entries
  }

  /** A text cut behind its first line: the rest of the entries decides. */
  lemma CutLater(entries: seq<Entry>, count: nat, k: nat)
    requires TableOk(entries) && entries != [] && count < MAX_ENTRIES
    requires |LineOf(entries[0])| < k <= |PrintEntries(entries)|
    ensures var from := |LineOf(entries[0])| + 1;
            && from + |PrintEntries(entries[1..])| == |PrintEntries(entries)|
            && (Enough(entries, count, k) <==> Enough(entries[1..], count + 1, k - from))
  {
    TailOk(entries);
    hide LineOf, KeyOk, ValOk, PrintEntries, Parse, TableOk;
    SplitFirst(entries, k);
    var more := PrintEntries(entries[1..])[..k - |LineOf(entries[0])| - 1];
    ParseFirst(entries[0], more, count);
    SameTail(entries, Parse(more, count + 1));
  }

  /** A text cut within its first line: what is left is too little, but for a single entry. */
  lemma CutSooner(entries: seq<Entry>, count: nat, k: nat)
    requires TableOk(entries) && entries != [] && count + |entries| <= MAX_ENTRIES
    requires k <= |LineOf(entries[0])| && k <= |PrintEntries(entries)|
    ensures Enough(entries, count, k) <==> k >= |PrintEntries(entries)| - 1
  {
    TailOk(entries);
    hide LineOf, KeyOk, ValOk, PrintEntries, Parse, TableOk;
    SplitFirst(entries, k);
    CutFirst(entries, count, k);
  }

  lemma NoneIsEnough(entries: seq<Entry>, count: nat)
    requires entries == []
    ensures PrintEntries(entries) == "" && Enough(entries, count, 0)
  {
  }

  /** How much text the first line takes off. */
  lemma LineTakes(entries: seq<Entry>)
    requires entries != []
    ensures |PrintEntries(entries)| == |LineOf(entries[0])| + 1 + |PrintEntries(entries[1..])|
  {
    SplitFirst(entries, 0);
  }

  lemma CutBehindLine(entries: seq<Entry>, tail: seq<Entry>, count: nat, k: nat, from: nat)
    requires TableOk(entries) && entries != [] && count + |entries| <= MAX_ENTRIES && tail == entries[1..]
    requires from == |LineOf(entries[0])| + 1 <= k <= |PrintEntries(entries)|
    requires k - from <= |PrintEntries(tail)|
    requires tail != [] ==> (Enough(tail, count + 1, k - from) <==> k - from >= |PrintEntries(tail)| - 1)
    ensures Enough(entries, count, k) <==> k >= |PrintEntries(entries)| - 1
  {
    hide LineOf, PrintEntries, TableOk, Enough;
    CutLater(entries, count, k);
    LineTakes(entries);
    if tail == [] {
      NoneIsEnough(tail, count + 1);
    }
  }

  /** Of printed entries, only the very last character is not needed. */
  lemma {:induction false} CutShort(entries: seq<Entry>, count: nat, k: nat)
    requires TableOk(entries) && entries != [] && count + |entries| <= MAX_ENTRIES && k <= |PrintEntries(entries)|
    ensures Enough(entries, count, k) <==> k >= |PrintEntries(entries)| - 1
    decreases |entries|, 1
  {
    hide LineOf, KeyOk, ValOk, PrintEntries, Parse, Enough, TableOk;
    if k <= |LineOf(entries[0])| {
      CutSooner(entries, count, k);
    } else {
      CutOn(entries, count, k);
    }
  }

  lemma {:induction false} CutOn(entries: seq<Entry>, count: nat, k: nat)
    requires TableOk(entries) && entries != [] && count + |entries| <= MAX_ENTRIES
    requires |LineOf(entries[0])| < k <= |PrintEntries(entries)|
    ensures Enough(entries, count, k) <==> k >= |PrintEntries(entries)| - 1
    decreases |entries|, 0
  {
    hide LineOf, KeyOk, ValOk, PrintEntries, Parse, Enough;
    LineTakes(entries);
    var tail, from := entries[1..], |LineOf(entries[0])| + 1;
    if tail != [] {
      CutShort(tail, count + 1, k - from);
    }
    CutBehindLine(entries, tail, count, k, from);
  }

  lemma TailOk(entries: seq<Entry>)
    requires TableOk(entries) && entries != []
    ensures KeyOk(entries[0].key) && ValOk(entries[0].val) && TableOk(entries[1..])
    ensures if |entries| == 1 then PrintEntries(entries[1..]) == "" else |PrintEntries(entries[1..])| > 1
  {
    assert entries[0] in entries && forall d :: d in entries[1..] ==> d in entries;
    if |entries| > 1 {
      SplitFirst(entries[1..], 0);
    }
  }

  lemma SameTail(entries: seq<Entry>, rest: seq<Entry>)
    requires entries != []
    ensures [entries[0]] + rest == entries <==> rest == entries[1..]
  {
    assert [entries[0]] + entries[1..] == entries;
    assert ([entries[0]] + rest)[1..] == rest;
  }

  lemma BehindHeading(rest: string)
    ensures Parse(HEADING + rest, 0) == Parse(rest, 0)
  {
    OneChunk("[Winafi]", rest);
    assert HEADING + rest == "[Winafi]" + "\n" + rest;
    assert ParseChunk("[Winafi]\n") == None by {
      assert UptoNul("[Winafi]\n") <= "[Winafi]\n";
    }
  }

  /**
    Of a file that is cut short at `room` characters, the table reads back exactly when it was empty
    or all but the last newline is there.
   */
  lemma SavedExactly(entries: seq<Entry>, room: nat)
    requires TableOk(entries)
    ensures var text := HEADING + PrintEntries(entries);
            Loaded(Some(Truncate(text, room))) == entries <==> entries == [] || room >= |text| - 1
  {
    var printed := PrintEntries(entries);
    var text := HEADING + printed;
    hide Parse, PrintEntries;
    if room <= |HEADING| {
      assert Truncate(text, room) == HEADING[..room];
      NothingIn(HEADING[..room], 0);
      if entries != [] {
        SplitFirst(entries, 0);
      }
    } else {
      var k := if room <= |text| then room - |HEADING| else |printed|;
      assert Truncate(text, room) == HEADING + printed[..k];
      BehindHeading(printed[..k]);
      if entries == [] {
        NoneIsEnough(entries, 0);
      } else {
        CutShort(entries, 0, k);
      }
    }
  }

  lemma ChunkParsesOk(chunk: string)
    requires forall i :: 0 <= i < |chunk| - 1 ==> chunk[i] != '\n'
    ensures ParseChunk(chunk).Some? ==> KeyOk(ParseChunk(chunk).value.key) && ValOk(ParseChunk(chunk).value.val)
  {
  }

  /** Whatever the file holds, the loaded table is one that prints and reads back. */
  lemma {:induction false} LoadedIsOk(content: string, count: nat)
    requires count <= MAX_ENTRIES
    ensures TableOk(Parse(content, count)) && count + |Parse(content, count)| <= MAX_ENTRIES
    decreases |content|
  {
    if content != "" && count < MAX_ENTRIES {
      var n := ChunkLength(content);
      var chunk := content[..n];
      var i := IndexOf(content, '\n');
      forall k | 0 <= k < |chunk| - 1
        ensures chunk[k] != '\n'
      {
        assert chunk[k] in content[..i];
      }
      ChunkParsesOk(chunk);
      LoadedIsOk(content[n..], if ParseChunk(chunk).None? then count else count + 1);
    }
  }

  // ---------- a session of sets, closed and reopened ----------

  datatype Assignment = Assignment(key: string, val: string)

  function SetAll(entries: seq<Entry>, ops: seq<Assignment>): seq<Entry> {
    if ops == [] then entries
    else Set(SetAll(entries, ops[..|ops| - 1]), ops[|ops| - 1].key, ops[|ops| - 1].val)
  }

  /** Each assignment is to a key the file can hold, fits its value, and finds its key or a free slot. */
  ghost predicate Proper(entries: seq<Entry>, ops: seq<Assignment>) {
    forall k :: 0 <= k < |ops| ==>
      KeyOk(ops[k].key) && ValOk(ops[k].val) && Fits(SetAll(entries, ops[..k]), ops[k].key)
  }

  /** The last value assigned to the key, else what the table held before. */
  function Expected(entries: seq<Entry>, ops: seq<Assignment>, key: string): Option<string> {
    if ops == [] then Lookup(entries, key)
    else if ops[|ops| - 1].key == key then Some(ops[|ops| - 1].val)
    else Expected(entries, ops[..|ops| - 1], key)
  }

  lemma {:induction false} SetAllMeets(entries: seq<Entry>, ops: seq<Assignment>, key: string)
    requires TableOk(entries) && Proper(entries, ops)
    ensures Lookup(SetAll(entries, ops), key) == Expected(entries, ops, key)
    ensures TableOk(SetAll(entries, ops))
  {
    if ops != [] {
      var front, last := ops[..|ops| - 1], ops[|ops| - 1];
      assert forall k :: 0 <= k < |front| ==> front[k] == ops[k] && front[..k] == ops[..k];
      SetAllMeets(entries, front, key);
      SetThenLookup(SetAll(entries, front), last.key, last.val, key);
      SetKeepsOk(SetAll(entries, front), last.key, last.val);
    }
  }

  /** The file after a close that writes it all: rewritten if anything was set, else untouched. */
  function Closed(file: Option<string>, ops: seq<Assignment>): Option<string> {
    if ops == [] then file else Some(HEADING + PrintEntries(SetAll(Loaded(file), ops)))
  }

  /**
    Settings persist: after any run of proper assignments and a close that writes it all, the next open
    sees under every key the last value assigned, or else what the file held before.
   */
  lemma Persistence(file: Option<string>, ops: seq<Assignment>, key: string)
    requires Proper(Loaded(file), ops)
    ensures Lookup(Loaded(Closed(file, ops)), key) == Expected(Loaded(file), ops, key)
    ensures Loaded(Closed(file, ops)) == SetAll(Loaded(file), ops)
  {
    if file.Some? {
      LoadedIsOk(file.value, 0);
    }
    SetAllMeets(Loaded(file), ops, key);
    if ops != [] {
      TableReadsBack(SetAll(Loaded(file), ops));
    }
  }
}
