/** The settings object: opened from a file, changed in memory, written back when closed. */
module Settings {
  import opened CStrings
  import opened SettingsStore

  /** The settings file; None while it does not exist or cannot be opened. */
  class Disk {
    var file: Option<string>

    constructor (file: Option<string>)
      ensures this.file == file
    {
      this.file := file;
    }
  }

  class SettingsTable {
    var entries: seq<Entry>
    var dirty: bool
    const disk: Disk

    ghost predicate Valid()
      reads this
    {
      |entries| <= MAX_ENTRIES
    }

    /** settings_open */
    constructor (disk: Disk)
      ensures Valid() && this.disk == disk && !dirty && entries == Loaded(disk.file)
    {
      this.disk, dirty, entries := disk, false, [];
      new;
      if disk.file.Some? {
        LoadedIsOk(disk.file.value, 0);
        Load(disk.file.value);
      }
    }

    /** One line of the file, as the loop body of load takes it apart. */
    static method ReadChunk(chunk: string) returns (e: Option<Entry>)
      ensures e == ParseChunk(chunk)
    {
      var line := UptoNul(chunk);
      var eq := IndexOf(line, '=');
      if eq == |line| || line[0] == '#' || line[0] == '[' {
        return None;
      }
      var key, val := line[..eq], CutEol(line[eq + 1..]);
      e := Some(Entry(Truncate(key, KEY_ROOM), Truncate(val, VAL_ROOM)));
    }

    /** load: one fgets after another until the text or the table is used up. */
    method Load(content: string)
      requires entries == []
      modifies this`entries
      ensures entries == Parse(content, 0)
    {
      hide Parse, ParseChunk, CutEol;
      var rest := content;
      while rest != "" && |entries| < MAX_ENTRIES
        invariant |entries| <= MAX_ENTRIES
        invariant entries + Parse(rest, |entries|) == Parse(content, 0)
        decreases |rest|
      {
        ParseTakes(entries, rest);
        var n := ChunkLength(rest);
        var e := ReadChunk(rest[..n]);
        rest := rest[n..];
        if e.Some? {
          entries := entries + [e.value];
        }
      }
      ParseDone(rest, |entries|);
    }

    /** find_entry */
    method FindEntry(key: string) returns (i: nat)
      ensures i == Find(entries, key)
    {
      i := 0;
      while i < |entries| && entries[i].key != key
        invariant i <= |entries| && forall k :: 0 <= k < i ==> entries[k].key != key
      {
        i := i + 1;
      }
      FindIs(entries, key, i);
    }

    /** find_or_create; the index past the end stands for NULL. */
    method FindOrCreate(key: string) returns (i: nat)
      requires Valid()
      modifies this`entries
      ensures Valid() && (i < |entries| <==> Fits(old(entries), key))
      ensures if Find(old(entries), key) < |old(entries)| || |old(entries)| == MAX_ENTRIES
              then entries == old(entries) && i == Find(entries, key)
              else entries == old(entries) + [Entry(Truncate(key, KEY_ROOM), "")] && i == |old(entries)|
    {
      i := FindEntry(key);
      if i < |entries| || |entries| >= MAX_ENTRIES {
        return;
      }
      entries := entries + [Entry(Truncate(key, KEY_ROOM), "")];
    }

    /** settings_set_string */
    method SetString(key: string, val: string)
      requires Valid()
      modifies this`entries, this`dirty
      ensures Valid() && entries == Set(old(entries), key, val)
      ensures dirty == (old(dirty) || Fits(old(entries), key))
    {
      var i := FindOrCreate(key);
      if i >= |entries| {
        return;
      }
      entries := entries[i := entries[i].(val := Truncate(val, VAL_ROOM))];
      dirty := true;
    }

    /** settings_set_int */
    method SetInt(key: string, n: int)
      requires Valid()
      modifies this`entries, this`dirty
      ensures Valid() && entries == Set(old(entries), key, PrintInt(n))
      ensures dirty == (old(dirty) || Fits(old(entries), key))
    {
      SetString(key, PrintInt(n));
    }

    /** settings_get_string into a buffer that keeps `room` characters. */
    method GetString(key: string, room: nat, default: string) returns (val: string)
      ensures val == Truncate(match Lookup(entries, key) case Some(v) => v case None => default, room)
    {
      var i := FindEntry(key);
      LookupIsFind(entries, key);
      val := Truncate(if i < |entries| then entries[i].val else default, room);
    }

    /** settings_get_int */
    method GetInt(key: string, default: int) returns (n: int)
      ensures n == match Lookup(entries, key) case Some(v) => Atoi(v) case None => default
    {
      var i := FindEntry(key);
      LookupIsFind(entries, key);
      n := if i < |entries| then Atoi(entries[i].val) else default;
    }

    /**
      settings_close; `writable` is whether the file can be opened for writing, and `room` how much
      of the text gets written then. Nobody looks at the latter: a file cut short counts as saved.
     */
    method Close(writable: bool, room: nat) returns (rc: int)
      requires Valid()
      modifies this`dirty, disk
      ensures rc == if old(dirty) && !writable then -1 else 0
      ensures dirty == (old(dirty) && !writable)
      ensures disk.file == if old(dirty) && writable then Some(Truncate("[Winafi]\n" + PrintEntries(entries), room))
                           else old(disk.file)
    {
      if !dirty {
        return 0;
      }
      if !writable {
        return -1;
      }
      var text := HEADING;
      for i := 0 to |entries|
        invariant text == HEADING + PrintEntries(entries[..i])
      {
        assert entries[..i + 1][..i] == entries[..i];
        text := text + entries[i].key + "=" + entries[i].val + "\n";
      }
      assert entries[..|entries|] == entries;
      disk.file := Some(Truncate(text, room));
      dirty := false;
      rc := 0;
    }
  }

  /** A full disk: closing says that all is well, and every setting is gone. */
  lemma LostOnFullDisk(key: string, val: string)
    requires KeyOk(key) && ValOk(val)
    ensures Loaded(Some(HEADING + PrintEntries([Entry(key, val)]))) == [Entry(key, val)]
    ensures Loaded(Some(Truncate(HEADING + PrintEntries([Entry(key, val)]), 0))) == []
  {
    TableReadsBack([Entry(key, val)]);
  }

  // ---------- numbers ----------

  function PowerOfTen(k: nat): (p: nat)
    ensures p > 0
  {
    if k == 0 then 1 else 10 * PowerOfTen(k - 1)
  }

  lemma {:induction false} DigitsShort(n: nat, k: nat)
    requires k > 0 && n < PowerOfTen(k)
    ensures |Digits(n)| <= k
  {
    if n >= 10 {
      DigitsShort(n / 10, k - 1);
    }
  }

  /** A stored int reads back as itself, whatever else the table holds. */
  lemma IntReadsBack(entries: seq<Entry>, key: string, n: int)
    requires |key| <= KEY_ROOM && Fits(entries, key)
    requires -0x8000_0000 <= n < 0x8000_0000
    ensures var v := Lookup(Set(entries, key, PrintInt(n)), key); v.Some? && Atoi(v.value) == n
    ensures ValOk(PrintInt(n))
  {
    var m := if n < 0 then -n else n;
    assert PowerOfTen(10) == 10_000_000_000 by {
      assert PowerOfTen(2) == 100;
      assert PowerOfTen(4) == 10_000;
      assert PowerOfTen(6) == 1_000_000;
      assert PowerOfTen(8) == 100_000_000;
    }
    DigitsShort(m, 10);
    SetThenLookup(entries, key, PrintInt(n), key);
    AtoiPrintInt(n);
  }
}
