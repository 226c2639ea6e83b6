/** What Windows Setup is told, bit by bit: commands, settings and passes of the answer file. */
module UnattendSettings {
  import opened CStrings
  import opened Xml
  import opened Unattend
  import opened UnattendOrders
  import opened UnattendTexts
  import UnattendForm

  // ---------- the commands ----------

  lemma RowFlags()
    ensures BYPASSES[0].0 == 0x0001 && BYPASSES[1].0 == 0x0002 && BYPASSES[2].0 == 0x0100
    ensures BYPASSES[3].0 == 0x0200 && BYPASSES[4].0 == 0x0400 && |BYPASSES| == 5
  {
  }

  lemma RowKeys()
    ensures BYPASSES[0].1 == "BypassTPMCheck" && BYPASSES[1].1 == "BypassSecureBootCheck"
    ensures BYPASSES[2].1 == "BypassRAMCheck" && BYPASSES[3].1 == "BypassCPUCheck"
    ensures BYPASSES[4].1 == "BypassStorageCheck" && |BYPASSES| == 5
  {
  }

  /** A row is asked for exactly by its flag. */
  lemma RowWanted(flags: Flags, i: nat)
    requires IsRow(i)
    ensures RowCommand(i) in Commands(flags) <==> Has(flags, BYPASSES[i].0)
  {
    CommandsExactly(flags);
    hide Commands, Has, Rank;
    assert Wanted(flags, RowCommand(i)) <==> WantedFrom(flags, RowCommand(i), 0);
    if WantedFrom(flags, RowCommand(i), 0) {
      var k :| 0 <= k && IsRow(k) && RowCommand(i) == RowCommand(k) && Has(flags, BYPASSES[k].0);
      KeysDiffer(i);
      KeysDiffer(k);
    }
  }

  predicate IsKey(key: string) {
    || key == "BypassTPMCheck" || key == "BypassSecureBootCheck" || key == "BypassRAMCheck"
    || key == "BypassCPUCheck" || key == "BypassStorageCheck"
  }

  lemma CommandBits(flags: Flags)
    ensures Bypass("BypassTPMCheck") in Commands(flags) <==> flags & 0x0001 != 0
    ensures Bypass("BypassSecureBootCheck") in Commands(flags) <==> flags & 0x0002 != 0
    ensures Bypass("BypassRAMCheck") in Commands(flags) <==> flags & 0x0100 != 0
    ensures Bypass("BypassCPUCheck") in Commands(flags) <==> flags & 0x0200 != 0
    ensures Bypass("BypassStorageCheck") in Commands(flags) <==> flags & 0x0400 != 0
    ensures HideMedia in Commands(flags) <==> flags & 0x2000 != 0
    ensures forall c :: c in Commands(flags) ==> c == HideMedia || IsKey(c.key)
  {
    RowFlags();
    RowKeys();
    CommandsExactly(flags);
    hide Commands;
    RowWanted(flags, 0);
    RowWanted(flags, 1);
    RowWanted(flags, 2);
    RowWanted(flags, 3);
    RowWanted(flags, 4);
  }

  // ---------- what a command line does ----------

  /** The words between blanks. */
  function Words(line: string): (ws: seq<string>)
    ensures ws != [] && ws[0] <= line
  {
    if line == "" then [""]
    else
      var ws := Words(line[1..]);
      if line[0] == ' ' then [""] + ws
      else
        assert line == [line[0]] + line[1..];
        [[line[0]] + ws[0]] + ws[1..]
  }

  datatype Value = Value(path: string, name: string, data: int)

  /** The registry value that a line sets when it is run: `reg add path /v name /t REG_DWORD /d data /f`. */
  function RegAdd(line: string): Option<Value> {
    var ws := Words(line);
    if |ws| == 10 && ws[0] == "reg" && ws[1] == "add" && ws[3] == "/v" && ws[5] == "/t" && ws[6] == "REG_DWORD"
       && ws[7] == "/d" && ws[9] == "/f"
    then Some(Value(ws[2], ws[4], Atoi(ws[8]))) else None
  }

  lemma {:induction false} WordsFirst(word: string, rest: string)
    requires ' ' !in word
    ensures Words(word + " " + rest) == [word] + Words(rest)
  {
    var line := word + " " + rest;
    if word == "" {
      assert line[1..] == rest;
    } else {
      assert line[1..] == word[1..] + " " + rest;
      WordsFirst(word[1..], rest);
      assert word == [word[0]] + word[1..];
    }
  }

  lemma {:induction false} WordsOnly(word: string)
    requires ' ' !in word
    ensures Words(word) == [word]
  {
    if word != "" {
      WordsOnly(word[1..]);
      assert word == [word[0]] + word[1..];
    }
  }

  function LabConfig(): string {
    "HKLM\\SYSTEM" + "\\Setup\\LabConfig"
  }

  lemma BypassStart()
    ensures "reg add HKLM\\SYSTEM" == "reg" + " " + ("add" + " " + "HKLM\\SYSTEM")
  {
  }

  lemma BypassMiddle()
    ensures "\\Setup\\LabConfig /v " == "\\Setup\\LabConfig" + " " + ("/v" + " ")
  {
  }

  lemma BypassEnd()
    ensures " /t REG_DWORD /d 1 /f" == " " + Rest()
  {
  }

  lemma BypassFront(key: string)
    ensures BypassLine(key) == "reg" + " " + ("add" + " " + (LabConfig() + " " + ("/v" + " " + (key + " " + Rest()))))
  {
    hide Rest;
    BypassStart();
    BypassMiddle();
    BypassEnd();
    BypassParts("reg add HKLM\\SYSTEM", "\\Setup\\LabConfig /v ", " /t REG_DWORD /d 1 /f", key);
  }

  /** The line in its pieces, whatever these are. */
  lemma BypassParts(start: string, middle: string, end: string, key: string)
    ensures start + middle + key + end == start + (middle + (key + end))
  {
  }

  function Rest(): string {
    "/t" + " " + ("REG_DWORD" + " " + ("/d" + " " + ("1" + " " + "/f")))
  }

  lemma RestWords()
    ensures Words(Rest()) == ["/t", "REG_DWORD", "/d", "1", "/f"]
  {
    hide Words;
    WordsOnly("/f");
    WordsFirst("1", "/f");
    WordsFirst("/d", "1" + " " + "/f");
    WordsFirst("REG_DWORD", "/d" + " " + ("1" + " " + "/f"));
    WordsFirst("/t", "REG_DWORD" + " " + ("/d" + " " + ("1" + " " + "/f")));
  }

  /** The line written for a key sets the value of that name to 1, and nothing else. */
  lemma BypassSetsKey(key: string)
    requires ' ' !in key
    ensures RegAdd(BypassLine(key)) == Some(Value("HKLM\\SYSTEM" + "\\Setup\\LabConfig", key, 1))
  {
    BypassFront(key);
    RestWords();
    hide BypassLine, Rest, Words;
    WordsFirst(key, Rest());
    WordsFirst("/v", key + " " + Rest());
    WordsFirst(LabConfig(), "/v" + " " + (key + " " + Rest()));
    WordsFirst("add", LabConfig() + " " + ("/v" + " " + (key + " " + Rest())));
    WordsFirst("reg", "add" + " " + (LabConfig() + " " + ("/v" + " " + (key + " " + Rest()))));
    assert Words(BypassLine(key)) == ["reg", "add", LabConfig(), "/v", key, "/t", "REG_DWORD", "/d", "1", "/f"];
    OneIsOne();
  }

  lemma OneIsOne()
    ensures Atoi("1") == 1
  {
    assert "1"[1..] == "";
  }

  /** A line that does not start with an r is no `reg add`. */
  lemma NoRegAdd(line: string)
    requires line == "" || line[0] != 'r'
    ensures RegAdd(line) == None
  {
    NotReg(Words(line)[0], line);
    hide Words;
  }

  lemma NotReg(word: string, line: string)
    requires word <= line && (line == "" || line[0] != 'r')
    ensures word != "reg"
  {
    assert word != "" ==> word[0] == line[0];
  }

  // ---------- what the commands of the file set ----------

  /** The command lines that the windowsPE pass runs, in their order. */
  function Lines(flags: Flags, arch: string): seq<Token> {
    After(WinPe(flags, arch, Texts()), "Path")
  }

  lemma ScriptStarts()
    ensures HideScript() != [] && HideScript()[0] == Text(PREAMBLE)
  {
  }

  lemma PreambleStarts()
    ensures PREAMBLE[0] == 'p'
  {
  }

  lemma LinesAre(flags: Flags, arch: string)
    ensures Texts().script != [] && Lines(flags, arch) == ShowsAll(Commands(flags), 1, Texts(), "Path")
  {
    TextsOk();
    hide Texts, ShowsAll, Commands, After, WinPe;
    OrdersCountUp(flags, arch, Texts(), "Path");
  }

  /** What is run for a command; of the script only its first piece. */
  function LineText(c: Command): string {
    if c.HideMedia? then PREAMBLE else BypassLine(c.key)
  }

  lemma PathShown(c: Command, order: nat)
    requires Texts().script != []
    ensures Shows(c, order, Texts(), "Path") == Text(LineText(c))
  {
    ScriptStarts();
    hide BypassLine, HideScript;
  }

  /** The i-th line belongs to the i-th command. */
  lemma LineOfCommand(flags: Flags, arch: string, i: nat)
    requires i < |Commands(flags)|
    ensures |Lines(flags, arch)| == |Commands(flags)|
    ensures Lines(flags, arch)[i] == Text(LineText(Commands(flags)[i]))
  {
    hide Commands, Lines, LineText, Shows, Texts;
    LinesAre(flags, arch);
    PathShown(Commands(flags)[i], 1 + i);
  }

  lemma LineCount(flags: Flags, arch: string)
    ensures |Lines(flags, arch)| == |Commands(flags)|
  {
    hide Commands, Lines, Texts;
    LinesAre(flags, arch);
  }

  /** Some line of the pass sets this value when it is run. */
  ghost predicate FileSets(flags: Flags, arch: string, v: Value) {
    exists t :: t in Lines(flags, arch) && t.Text? && RegAdd(t.text) == Some(v)
  }

  lemma KeysAreWords(key: string)
    requires IsKey(key)
    ensures ' ' !in key
  {
  }

  lemma FileSetsExactly(flags: Flags, arch: string, v: Value)
    ensures FileSets(flags, arch, v)
            <==> exists c :: c in Commands(flags) && c.Bypass? && v == Value(LabConfig(), c.key, 1)
  {
    LineCount(flags, arch);
    CommandBits(flags);
    hide Commands, Lines, IsKey, RegAdd, LineText, LabConfig;
    forall i | 0 <= i < |Commands(flags)|
      ensures var t := Lines(flags, arch)[i]; var c := Commands(flags)[i];
              t.Text? && RegAdd(t.text) == if c.HideMedia? then None else Some(Value(LabConfig(), c.key, 1))
    {
      LineOfCommand(flags, arch, i);
      LineSets(Commands(flags)[i]);
    }
  }

  lemma LineSets(c: Command)
    requires c == HideMedia || IsKey(c.key)
    ensures RegAdd(LineText(c)) == if c.HideMedia? then None else Some(Value(LabConfig(), c.key, 1))
  {
    hide RegAdd, BypassLine;
    if c.HideMedia? {
      PreambleStarts();
      NoRegAdd(PREAMBLE);
    } else {
      KeysAreWords(c.key);
      BypassSetsKey(c.key);
    }
  }

  /** The commands of the file, run by Setup, set each of the five values to 1 exactly for its flag. */
  lemma BypassesExactly(flags: Flags, arch: string)
    ensures var lab := "HKLM\\SYSTEM" + "\\Setup\\LabConfig";
            && (FileSets(flags, arch, Value(lab, "BypassTPMCheck", 1)) <==> flags & 0x0001 != 0)
            && (FileSets(flags, arch, Value(lab, "BypassSecureBootCheck", 1)) <==> flags & 0x0002 != 0)
            && (FileSets(flags, arch, Value(lab, "BypassRAMCheck", 1)) <==> flags & 0x0100 != 0)
            && (FileSets(flags, arch, Value(lab, "BypassCPUCheck", 1)) <==> flags & 0x0200 != 0)
            && (FileSets(flags, arch, Value(lab, "BypassStorageCheck", 1)) <==> flags & 0x0400 != 0)
    ensures forall v :: FileSets(flags, arch, v) ==>
              v.path == "HKLM\\SYSTEM" + "\\Setup\\LabConfig" && IsKey(v.name) && v.data == 1
  {
    CommandBits(flags);
    KeyCommand(flags, arch, "BypassTPMCheck");
    KeyCommand(flags, arch, "BypassSecureBootCheck");
    KeyCommand(flags, arch, "BypassRAMCheck");
    KeyCommand(flags, arch, "BypassCPUCheck");
    KeyCommand(flags, arch, "BypassStorageCheck");
    hide Commands, FileSets, IsKey, Has;
    forall v | FileSets(flags, arch, v)
      ensures v.path == "HKLM\\SYSTEM" + "\\Setup\\LabConfig" && IsKey(v.name) && v.data == 1
    {
      FileSetsExactly(flags, arch, v);
    }
  }

  lemma KeyCommand(flags: Flags, arch: string, key: string)
    ensures FileSets(flags, arch, Value("HKLM\\SYSTEM" + "\\Setup\\LabConfig", key, 1))
            <==> Bypass(key) in Commands(flags)
  {
    hide FileSets, Commands;
    FileSetsExactly(flags, arch, Value(LabConfig(), key, 1));
  }

  // ---------- the settings ----------

  predicate IsSetting(name: string) {
    || name == "AcceptEula" || name == "SanPolicy" || name == "HideOnlineAccountScreens" || name == "SkipMachineOOBE"
    || name == "SkipUserOOBE" || name == "ProtectYourPC" || name == "Name" || name == "Group"
    || name == "Value" || name == "CommandLine"
  }

  lemma NotCommand(name: string)
    requires IsSetting(name)
    ensures name != "RunSynchronous" && name != "RunSynchronousCommand" && name != "Order" && name != "Path"
    ensures name != "Description"
  {
  }

  lemma NotAround(name: string)
    requires IsSetting(name)
    ensures name != "unattend" && name != "settings" && name != "component"
    ensures name != "UserData" && name != "ProductKey" && name != "OOBE"
  {
  }

  lemma NotAccount(name: string)
    requires IsSetting(name)
    ensures name != "UserAccounts" && name != "LocalAccounts" && name != "LocalAccount" && name != "DisplayName"
    ensures name != "FirstLogonCommands" && name != "SynchronousCommand" && name != "Password" && name != "PlainText"
  {
  }

  /** The text under a name if that is the one looked for. */
  function Under(leaf: string, text: string, name: string): seq<Token> {
    if leaf == name then [Text(text)] else []
  }

  lemma TextLeaf(indent: nat, leaf: string, text: string, name: string)
    ensures After(Line(indent, Leaf(leaf, [Text(text)])), name) == Under(leaf, text, name)
    ensures Settled(Line(indent, Leaf(leaf, [Text(text)])))
  {
    hide After, Settled, Line, Leaf;
    AfterLeaf(indent, leaf, [Text(text)], name);
  }

  lemma NothingUnder(name: string)
    ensures After([], name) == [] && Settled([])
  {
  }

  // ---------- windowsPE ----------

  lemma DescriptionHides(c: Command, w: Wording, name: string)
    requires IsSetting(name)
    ensures After(Description(c, w), name) == [] && Settled(Description(c, w))
  {
    NotCommand(name);
    NothingUnder(name);
    hide After, Settled, Line, Leaf, IsSetting;
    TextLeaf(10, "Description", w.description, name);
  }

  lemma PathHides(c: Command, w: Wording, name: string)
    requires w.Ok() && IsSetting(name)
    ensures After(Line(10, Leaf("Path", PathOf(c, w))), name) == [] && Settled(Line(10, Leaf("Path", PathOf(c, w))))
  {
    PathPlain(c, w);
    NotCommand(name);
    hide After, Settled, Line, Leaf, PathOf, Wording.Ok, IsSetting;
    AfterLeaf(10, "Path", PathOf(c, w), name);
  }

  lemma OrderHides(order: nat, name: string)
    requires IsSetting(name)
    ensures var a := Line(10, Leaf("Order", [Text(PrintInt(order))])); After(a, name) == [] && Settled(a)
  {
    NotCommand(name);
    hide After, Settled, Line, Leaf, PrintInt, IsSetting;
    TextLeaf(10, "Order", PrintInt(order), name);
  }

  lemma CommandHides(c: Command, order: nat, w: Wording, name: string)
    requires w.Ok() && IsSetting(name)
    ensures After(CommandTokens(c, order, w), name) == [] && Settled(CommandTokens(c, order, w))
  {
    NotCommand(name);
    hide After, Settled, Line, Leaf, PathOf, PrintInt, Wording.Ok, Description, Element, IsSetting;
    OrderHides(order, name);
    DescriptionHides(c, w, name);
    PathHides(c, w, name);
    AfterThree(Line(10, Leaf("Order", [Text(PrintInt(order))])), Description(c, w), Line(10, Leaf("Path", PathOf(c, w))),
               name);
    AfterElement(8, "RunSynchronousCommand", w.add, CommandBody(c, order, w), name);
  }

  lemma {:induction false} CommandListHides(cs: seq<Command>, order: nat, w: Wording, name: string)
    requires w.Ok() && IsSetting(name)
    ensures After(CommandList(cs, order, w), name) == [] && Settled(CommandList(cs, order, w))
  {
    hide CommandTokens, After, Settled, Wording.Ok, IsSetting;
    NothingUnder(name);
    if cs != [] {
      var most, c := cs[..|cs| - 1], cs[|cs| - 1];
      CommandListHides(most, order, w, name);
      CommandHides(c, order + |most|, w, name);
      AfterBoth(CommandList(most, order, w), CommandTokens(c, order + |most|, w), name);
    }
  }

  lemma UserDataTells(name: string)
    requires IsSetting(name)
    ensures After(UserData(), name) == Under("AcceptEula", "true", name) && Settled(UserData())
  {
    NotAround(name);
    hide After, Settled, Line, Leaf, Element, IsSetting;
    TextLeaf(8, "AcceptEula", "true", name);
    AfterLeaf(8, "ProductKey", [Void("Key")], name);
    var a, b := Line(8, Leaf("AcceptEula", [Text("true")])), Line(8, Leaf("ProductKey", [Void("Key")]));
    AfterBoth(a, b, name);
    AfterElement(6, "UserData", "", a + b, name);
  }

  lemma RunSynchronousHides(flags: Flags, w: Wording, name: string)
    requires w.Ok() && IsSetting(name)
    ensures After(RunSynchronous(flags, w), name) == [] && Settled(RunSynchronous(flags, w))
  {
    NotCommand(name);
    NothingUnder(name);
    hide After, Settled, Element, CommandList, Commands, RunsCommands, Wording.Ok, IsSetting;
    CommandListHides(Commands(flags), 1, w, name);
    AfterElement(6, "RunSynchronous", "", CommandList(Commands(flags), 1, w), name);
  }

  lemma PassTells(pass: string, component: string, inner: seq<Token>, name: string)
    requires IsSetting(name) && Settled(inner)
    ensures After(Pass(pass, component, inner), name) == After(inner, name) && Settled(Pass(pass, component, inner))
  {
    NotAround(name);
    hide After, Settled, Element, IsSetting;
    AfterElement(4, "component", component, inner, name);
    AfterElement(2, "settings", pass, Element(4, "component", component, inner), name);
  }

  lemma WinPeTells(flags: Flags, arch: string, w: Wording, name: string)
    requires w.Ok() && IsSetting(name)
    ensures After(WinPe(flags, arch, w), name) == if NeedsWinPe(flags) then Under("AcceptEula", "true", name) else []
    ensures Settled(WinPe(flags, arch, w))
  {
    NothingUnder(name);
    hide After, Settled, Pass, UserData, RunSynchronous, NeedsWinPe, Wording.Ok, IsSetting;
    UserDataTells(name);
    RunSynchronousHides(flags, w, name);
    AfterBoth(UserData(), RunSynchronous(flags, w), name);
    PassTells(WINPE, w.setup.For(arch), UserData() + RunSynchronous(flags, w), name);
  }

  // ---------- offlineServicing ----------

  lemma OfflineTells(flags: Flags, arch: string, w: Wording, name: string)
    requires IsSetting(name)
    ensures After(Offline(flags, arch, w), name) == if Has(flags, OFFLINE_DRIVES) then Under("SanPolicy", "4", name) else []
    ensures Settled(Offline(flags, arch, w))
  {
    NothingUnder(name);
    hide After, Settled, Pass, Line, Leaf, Has, IsSetting;
    TextLeaf(6, "SanPolicy", "4", name);
    PassTells(OFFLINE, w.manager.For(arch), Line(6, Leaf("SanPolicy", [Text("4")])), name);
  }

  // ---------- oobeSystem ----------

  function Skips(name: string): seq<Token> {
    Under("HideOnlineAccountScreens", "true", name) + Under("SkipMachineOOBE", "true", name)
    + Under("SkipUserOOBE", "true", name)
  }

  function SkipLines(): seq<Token> {
    Line(8, Leaf("HideOnlineAccountScreens", [Text("true")])) + Line(8, Leaf("SkipMachineOOBE", [Text("true")]))
    + Line(8, Leaf("SkipUserOOBE", [Text("true")]))
  }

  lemma SkipsTell(name: string)
    ensures After(SkipLines(), name) == Skips(name) && Settled(SkipLines())
  {
    hide After, Settled, Line, Leaf;
    TextLeaf(8, "HideOnlineAccountScreens", "true", name);
    TextLeaf(8, "SkipMachineOOBE", "true", name);
    TextLeaf(8, "SkipUserOOBE", "true", name);
    AfterThree(Line(8, Leaf("HideOnlineAccountScreens", [Text("true")])), Line(8, Leaf("SkipMachineOOBE", [Text("true")])),
               Line(8, Leaf("SkipUserOOBE", [Text("true")])), name);
  }

  function ScreensSay(flags: Flags, name: string): seq<Token> {
    (if Has(flags, NO_ONLINE_ACCOUNT) then Skips(name) else [])
    + (if Has(flags, NO_DATA_COLLECTION) then Under("ProtectYourPC", "3", name) else [])
  }

  lemma ScreensTell(flags: Flags, name: string)
    requires IsSetting(name)
    ensures After(Screens(flags), name) == ScreensSay(flags, name) && Settled(Screens(flags))
  {
    NotAround(name);
    NothingUnder(name);
    hide After, Settled, Line, Leaf, Element, Has, Skips, SkipLines, IsSetting;
    var a := if Has(flags, NO_ONLINE_ACCOUNT) then SkipLines() else [];
    var b := if Has(flags, NO_DATA_COLLECTION) then Line(8, Leaf("ProtectYourPC", [Text("3")])) else [];
    SkipsTell(name);
    TextLeaf(8, "ProtectYourPC", "3", name);
    AfterBoth(a, b, name);
    AfterElement(6, "OOBE", "", a + b, name);
    ScreensAre(flags);
  }

  lemma ScreensAre(flags: Flags)
    ensures Screens(flags) == Element(6, "OOBE", "", (if Has(flags, NO_ONLINE_ACCOUNT) then SkipLines() else [])
            + (if Has(flags, NO_DATA_COLLECTION) then Line(8, Leaf("ProtectYourPC", [Text("3")])) else []))
  {
    hide Line, Leaf, Element, Has;
  }

  /** A token that does not open the element changes nothing. */
  lemma PassOver(t: Token, ts: seq<Token>, name: string)
    requires t != Open(name, "") && ts != []
    ensures After([t] + ts, name) == After(ts, name)
  {
    assert ([t] + ts)[1..] == ts;
  }

  lemma PasswordTells(name: string)
    requires IsSetting(name)
    ensures After(Password(), name) == Under("Value", "", name) && Settled(Password())
  {
    NotAccount(name);
    var tail := [Close("Password"), Text("\n")];
    var plain, value := Leaf("PlainText", [Text("true")]), Leaf("Value", [Text("")]);
    var rest := value + plain + tail;
    assert Password() == [Text(Spaces(12))] + ([Open("Password", "")] + rest);
    LeafTells("Value", "", name);
    LeafTells("PlainText", "true", name);
    AfterPlain(tail, name);
    assert Settled(tail);
    hide After, Spaces, IsSetting;
    PassOver(Text(Spaces(12)), [Open("Password", "")] + rest, name);
    PassOver(Open("Password", ""), rest, name);
    AfterThree(value, plain, tail, name);
  }

  lemma LeafTells(leaf: string, text: string, name: string)
    ensures After(Leaf(leaf, [Text(text)]), name) == Under(leaf, text, name) && Settled(Leaf(leaf, [Text(text)]))
  {
    var rest := [Text(text), Close(leaf)];
    assert Leaf(leaf, [Text(text)]) == [Open(leaf, "")] + rest;
    assert ([Open(leaf, "")] + rest)[1..] == rest;
    AfterPlain(rest, name);
  }

  lemma AloneUnder(user: string, name: string)
    requires name != "DisplayName"
    ensures Under("DisplayName", user, name) == []
  {
  }

  lemma AccountRestTells(user: string, name: string)
    requires IsSetting(name)
    ensures After(AccountRest(user), name) == Under("Group", "Administrators", name) + Under("Value", "", name)
    ensures Settled(AccountRest(user))
  {
    NotAccount(name);
    AloneUnder(user, name);
    hide After, Settled, Line, Leaf, Password, Under, IsSetting;
    TextLeaf(12, "DisplayName", user, name);
    TextLeaf(12, "Group", "Administrators", name);
    PasswordTells(name);
    ThreeTell(Line(12, Leaf("DisplayName", [Text(user)])), Line(12, Leaf("Group", [Text("Administrators")])), Password(),
              name);
  }

  lemma ThreeTell(a: seq<Token>, b: seq<Token>, c: seq<Token>, name: string)
    requires Settled(a) && Settled(b) && Settled(c) && After(a, name) == []
    ensures After(a + b + c, name) == After(b, name) + After(c, name) && Settled(a + b + c)
  {
    hide After, Settled;
    AfterThree(a, b, c, name);
  }

  function AccountSays(user: string, name: string): seq<Token> {
    Under("Name", user, name) + (Under("Group", "Administrators", name) + Under("Value", "", name))
  }

  lemma AccountsTell(user: string, w: Wording, name: string)
    requires IsSetting(name)
    ensures After(Accounts(user, w), name) == AccountSays(user, name) && Settled(Accounts(user, w))
  {
    NotAccount(name);
    hide After, Settled, Line, Leaf, Element, AccountRest, IsSetting;
    TextLeaf(12, "Name", user, name);
    AccountRestTells(user, name);
    var inner := Line(12, Leaf("Name", [Text(user)])) + AccountRest(user);
    AfterBoth(Line(12, Leaf("Name", [Text(user)])), AccountRest(user), name);
    AfterElement(10, "LocalAccount", w.addHere, inner, name);
    AfterElement(8, "LocalAccounts", "", Element(10, "LocalAccount", w.addHere, inner), name);
    AfterElement(6, "UserAccounts", "", Element(8, "LocalAccounts", "", Element(10, "LocalAccount", w.addHere, inner)), name);
  }

  lemma FirstLogonTells(w: Wording, name: string)
    requires IsSetting(name)
    ensures After(FirstLogon(w), name) == Under("CommandLine", w.logon, name) && Settled(FirstLogon(w))
  {
    NotAccount(name);
    NotCommand(name);
    hide After, Settled, Line, Leaf, Element, IsSetting;
    TextLeaf(10, "Order", "1", name);
    TextLeaf(10, "CommandLine", w.logon, name);
    var inner := Line(10, Leaf("Order", [Text("1")])) + Line(10, Leaf("CommandLine", [Text(w.logon)]));
    AfterBoth(Line(10, Leaf("Order", [Text("1")])), Line(10, Leaf("CommandLine", [Text(w.logon)])), name);
    AfterElement(8, "SynchronousCommand", w.addHere, inner, name);
    AfterElement(6, "FirstLogonCommands", "", Element(8, "SynchronousCommand", w.addHere, inner), name);
  }

  function UserSays(flags: Flags, user: Option<string>, name: string): seq<Token> {
    if SetsUser(flags, user) then AccountSays(SafeName(user.value), name) else []
  }

  function OobeSays(flags: Flags, user: Option<string>, w: Wording, name: string): seq<Token> {
    ScreensSay(flags, name) + UserSays(flags, user, name)
    + (if Has(flags, QOL_ENHANCEMENTS) then Under("CommandLine", w.logon, name) else [])
  }

  lemma UserAccountsTell(flags: Flags, user: Option<string>, w: Wording, name: string)
    requires IsSetting(name)
    ensures After(UserAccounts(flags, user, w), name) == UserSays(flags, user, name)
    ensures Settled(UserAccounts(flags, user, w))
  {
    NothingUnder(name);
    hide After, Settled, Accounts, SafeName, AccountSays, IsSetting;
    if SetsUser(flags, user) {
      AccountsTell(SafeName(user.value), w, name);
    }
  }

  lemma OobeTells(flags: Flags, user: Option<string>, arch: string, w: Wording, name: string)
    requires IsSetting(name)
    ensures After(Oobe(flags, user, arch, w), name) == if NeedsOobe(flags) then OobeSays(flags, user, w, name) else []
    ensures Settled(Oobe(flags, user, arch, w))
  {
    NothingUnder(name);
    hide After, Settled, Pass, Screens, Accounts, FirstLogon, Has, NeedsOobe, UserAccounts, UserSays, IsSetting;
    hide ScreensSay, Under;
    ScreensTell(flags, name);
    UserAccountsTell(flags, user, w, name);
    FirstLogonTells(w, name);
    AfterThree(Screens(flags), UserAccounts(flags, user, w), Logon(flags, w), name);
    PassTells(OOBE, w.shell.For(arch), Screens(flags) + UserAccounts(flags, user, w) + Logon(flags, w), name);
  }

  // ---------- the whole file ----------

  function PassesSay(flags: Flags, user: Option<string>, w: Wording, name: string): seq<Token> {
    (if NeedsWinPe(flags) then Under("AcceptEula", "true", name) else [])
    + (if Has(flags, OFFLINE_DRIVES) then Under("SanPolicy", "4", name) else [])
    + (if NeedsOobe(flags) then OobeSays(flags, user, w, name) else [])
  }

  lemma PassesTell(flags: Flags, user: Option<string>, arch: int, w: Wording, name: string)
    requires w.Ok() && IsSetting(name)
    ensures After(UnattendForm.Body(flags, user, arch, w), name) == PassesSay(flags, user, w, name)
    ensures Settled(UnattendForm.Body(flags, user, arch, w))
  {
    hide ArchName, After, Settled, WinPe, Offline, Oobe, NeedsWinPe, NeedsOobe, Has, OobeSays, Under, Wording.Ok, IsSetting;
    var a := ArchName(arch);
    WinPeTells(flags, a, w, name);
    OfflineTells(flags, a, w, name);
    OobeTells(flags, user, a, w, name);
    AfterThree(WinPe(flags, a, w), Offline(flags, a, w), Oobe(flags, user, a, w), name);
  }

  lemma FrontHides(w: Wording, name: string)
    requires IsSetting(name)
    ensures After(UnattendForm.Head(w), name) == [] && Settled(UnattendForm.Head(w))
  {
    NotAround(name);
    var head := [Declaration, Text("\n")];
    AfterPlain(head, name);
    assert Settled(head);
    hide After, Settled, Line, IsSetting;
    AfterTagLine(0, Open("unattend", w.schema), name);
    AfterBoth(head, Line(0, [Open("unattend", w.schema)]), name);
  }

  lemma DocumentIs(flags: Flags, user: Option<string>, arch: int, w: Wording)
    ensures Document(flags, user, arch, w) ==
            UnattendForm.Head(w) + UnattendForm.Body(flags, user, arch, w) + Line(0, [Close("unattend")])
  {
    hide WinPe, Offline, Oobe, ArchName, Line;
  }

  /** What stands under a name in the whole file. */
  lemma DocumentTells(flags: Flags, user: Option<string>, arch: int, w: Wording, name: string)
    requires w.Ok() && IsSetting(name)
    ensures After(Document(flags, user, arch, w), name) == PassesSay(flags, user, w, name)
  {
    hide After, Settled, Line, UnattendForm.Body, UnattendForm.Head, PassesSay, Document, Wording.Ok, IsSetting;
    FrontHides(w, name);
    AfterTagLine(0, Close("unattend"), name);
    PassesTell(flags, user, arch, w, name);
    AfterThree(UnattendForm.Head(w), UnattendForm.Body(flags, user, arch, w), Line(0, [Close("unattend")]), name);
    DocumentIs(flags, user, arch, w);
  }

  lemma FlagBits(flags: Flags)
    ensures NeedsWinPe(flags) <==> flags & 0x2F03 != 0
    ensures Has(flags, OFFLINE_DRIVES) <==> flags & 0x0010 != 0
    ensures NeedsOobe(flags) <==> flags & 0x10CC != 0
    ensures Has(flags, NO_ONLINE_ACCOUNT) <==> flags & 0x0004 != 0
    ensures Has(flags, NO_DATA_COLLECTION) <==> flags & 0x0008 != 0
    ensures Has(flags, SET_USER) <==> flags & 0x0040 != 0
    ensures Has(flags, QOL_ENHANCEMENTS) <==> flags & 0x1000 != 0
    ensures flags & 0x0004 != 0 || flags & 0x0008 != 0 || flags & 0x0040 != 0 || flags & 0x1000 != 0
            ==> flags & 0x10CC != 0
  {
  }

  /** The texts under a name in the whole file. */
  function Told(flags: Flags, user: Option<string>, arch: int, name: string): seq<Token> {
    After(Document(flags, user, arch, Texts()), name)
  }

  lemma ToldIs(flags: Flags, user: Option<string>, arch: int, name: string)
    requires IsSetting(name)
    ensures Told(flags, user, arch, name) == PassesSay(flags, user, Texts(), name)
  {
    TextsOk();
    hide Texts, Document, PassesSay, IsSetting;
    DocumentTells(flags, user, arch, Texts(), name);
  }

  lemma EulaTold(flags: Flags, user: Option<string>, arch: int)
    ensures Told(flags, user, arch, "AcceptEula") == if flags & 0x2F03 != 0 then [Text("true")] else []
  {
    FlagBits(flags);
    hide Told, Texts, Has, NeedsWinPe, NeedsOobe, SetsUser;
    ToldIs(flags, user, arch, "AcceptEula");
  }

  lemma DrivesTold(flags: Flags, user: Option<string>, arch: int)
    ensures Told(flags, user, arch, "SanPolicy") == if flags & 0x0010 != 0 then [Text("4")] else []
  {
    FlagBits(flags);
    hide Told, Texts, Has, NeedsWinPe, NeedsOobe, SetsUser;
    ToldIs(flags, user, arch, "SanPolicy");
  }

  lemma AccountScreensTold(flags: Flags, user: Option<string>, arch: int)
    ensures Told(flags, user, arch, "HideOnlineAccountScreens") == if flags & 0x0004 != 0 then [Text("true")] else []
  {
    FlagBits(flags);
    hide Told, Texts, Has, NeedsWinPe, NeedsOobe, SetsUser;
    ToldIs(flags, user, arch, "HideOnlineAccountScreens");
  }

  lemma MachineTold(flags: Flags, user: Option<string>, arch: int)
    ensures Told(flags, user, arch, "SkipMachineOOBE") == if flags & 0x0004 != 0 then [Text("true")] else []
  {
    FlagBits(flags);
    hide Told, Texts, Has, NeedsWinPe, NeedsOobe, SetsUser;
    ToldIs(flags, user, arch, "SkipMachineOOBE");
  }

  lemma UserTold(flags: Flags, user: Option<string>, arch: int)
    ensures Told(flags, user, arch, "SkipUserOOBE") == if flags & 0x0004 != 0 then [Text("true")] else []
  {
    FlagBits(flags);
    hide Told, Texts, Has, NeedsWinPe, NeedsOobe, SetsUser;
    ToldIs(flags, user, arch, "SkipUserOOBE");
  }

  lemma DataTold(flags: Flags, user: Option<string>, arch: int)
    ensures Told(flags, user, arch, "ProtectYourPC") == if flags & 0x0008 != 0 then [Text("3")] else []
  {
    FlagBits(flags);
    hide Told, Texts, Has, NeedsWinPe, NeedsOobe, SetsUser;
    ToldIs(flags, user, arch, "ProtectYourPC");
  }

  /** The account is asked for and there is a name. */
  predicate NamesUser(flags: Flags, user: Option<string>) {
    flags & 0x0040 != 0 && user.Some? && user.value != "" && user.value[0] != '\0'
  }

  lemma NamesUserIs(flags: Flags, user: Option<string>)
    ensures SetsUser(flags, user) <==> NamesUser(flags, user)
  {
  }

  /** The characters that are replaced. */
  predicate Replaced(c: char) {
    || c == '/' || c == '\\' || c == '[' || c == ']' || c == ':' || c == '|' || c == '<' || c == '>' || c == '+'
    || c == '=' || c == ';' || c == ',' || c == '?' || c == '*' || c == '%' || c == '@' || c == '.'
  }

  lemma ForbiddenIs(c: char)
    ensures IsForbidden(c) <==> Replaced(c)
  {
  }

  /** The account has the first 255 characters of the name, an underscore for each that is not allowed. */
  lemma SafeNameKeeps(user: string)
    ensures var name := SafeName(user); var given := UptoNul(user);
            && |name| == (if |given| <= 255 then |given| else 255)
            && forall i :: 0 <= i < |name| ==> name[i] == if Replaced(given[i]) then '_' else given[i]
  {
    var kept := Truncate(UptoNul(user), 255);
    hide IsForbidden, Replaced;
    forall i | 0 <= i < |kept|
      ensures SafeName(user)[i] == if Replaced(kept[i]) then '_' else kept[i]
    {
      ForbiddenIs(kept[i]);
    }
  }

  lemma NotTheAccount(flags: Flags, w: Wording, name: string)
    requires name == "Name" || name == "Group" || name == "Value"
    ensures Under("AcceptEula", "true", name) == [] && Under("SanPolicy", "4", name) == []
    ensures ScreensSay(flags, name) == [] && Under("CommandLine", w.logon, name) == []
  {
    hide Has;
  }

  lemma OnlyAccount(flags: Flags, user: Option<string>, w: Wording, name: string)
    requires name == "Name" || name == "Group" || name == "Value"
    ensures PassesSay(flags, user, w, name) == if NamesUser(flags, user) then AccountSays(SafeName(user.value), name) else []
  {
    FlagBits(flags);
    NamesUserIs(flags, user);
    NotTheAccount(flags, w, name);
    assert NamesUser(flags, user) ==> flags & 0x0040 != 0;
    hide Has, NeedsWinPe, NeedsOobe, SetsUser, SafeName, NamesUser, AccountSays, ScreensSay, Under;
  }

  lemma AccountSaysThese(user: string)
    ensures AccountSays(user, "Name") == [Text(user)] && AccountSays(user, "Group") == [Text("Administrators")]
    ensures AccountSays(user, "Value") == [Text("")]
  {
  }

  lemma NameTold(flags: Flags, user: Option<string>, arch: int)
    ensures Told(flags, user, arch, "Name") == if NamesUser(flags, user) then [Text(SafeName(user.value))] else []
  {
    hide Told, Texts, SetsUser, SafeName, PassesSay, AccountSays;
    ToldIs(flags, user, arch, "Name");
    OnlyAccount(flags, user, Texts(), "Name");
    if user.Some? {
      AccountSaysThese(SafeName(user.value));
    }
  }

  lemma GroupTold(flags: Flags, user: Option<string>, arch: int)
    ensures Told(flags, user, arch, "Group") == if NamesUser(flags, user) then [Text("Administrators")] else []
  {
    hide Told, Texts, SetsUser, SafeName, PassesSay, AccountSays;
    ToldIs(flags, user, arch, "Group");
    OnlyAccount(flags, user, Texts(), "Group");
    if user.Some? {
      AccountSaysThese(SafeName(user.value));
    }
  }

  lemma PasswordTold(flags: Flags, user: Option<string>, arch: int)
    ensures Told(flags, user, arch, "Value") == if NamesUser(flags, user) then [Text("")] else []
  {
    hide Told, Texts, SetsUser, SafeName, PassesSay, AccountSays;
    ToldIs(flags, user, arch, "Value");
    OnlyAccount(flags, user, Texts(), "Value");
    if user.Some? {
      AccountSaysThese(SafeName(user.value));
    }
  }

  lemma LogonTold(flags: Flags, user: Option<string>, arch: int)
    ensures Told(flags, user, arch, "CommandLine") ==
            if flags & 0x1000 != 0 then [Text(Texts().logon)] else []
  {
    FlagBits(flags);
    hide Told, Texts, Has, NeedsWinPe, NeedsOobe, SetsUser, SafeName;
    ToldIs(flags, user, arch, "CommandLine");
  }

  function Explorer(): string {
    "HKCU" + "\\Software" + "\\Microsoft" + "\\Windows" + "\\Current" + "Version" + "\\Explorer" + "\\Advanced"
  }

  function Notices(): string {
    "Start_Account" + "Notifications"
  }

  function Off(): string {
    "/t" + " " + ("REG_DWORD" + " " + ("/d" + " " + ("0" + " " + "/f")))
  }

  lemma LogonFront()
    ensures REG_ADD == "reg" + " " + ("add" + " " + Explorer())
  {
    assert "reg add" == "reg" + " " + "add" && " HKCU" == " " + "HKCU";
  }

  lemma LogonBack()
    ensures NO_NOTICES == " " + ("/v" + " " + (Notices() + " " + Off()))
  {
    assert " /v Start_Account" == " " + ("/v" + " " + "Start_Account");
    assert " /t REG_DWORD" == " " + ("/t" + " " + "REG_DWORD");
    assert " /d 0" == " " + ("/d" + " " + "0") && " /f" == " " + "/f";
  }

  lemma OffWords()
    ensures Words(Off()) == ["/t", "REG_DWORD", "/d", "0", "/f"]
  {
    hide Words;
    WordsOnly("/f");
    WordsFirst("0", "/f");
    WordsFirst("/d", "0" + " " + "/f");
    WordsFirst("REG_DWORD", "/d" + " " + ("0" + " " + "/f"));
    WordsFirst("/t", "REG_DWORD" + " " + ("/d" + " " + ("0" + " " + "/f")));
  }

  lemma LogonWordsWhole()
    ensures ' ' !in Explorer() && ' ' !in Notices() && Atoi("0") == 0
  {
    assert "0"[1..] == "";
  }

  /** The command at the first logon sets one value to 0. */
  lemma LogonSets()
    ensures RegAdd(Texts().logon) == Some(Value(Explorer(), Notices(), 0))
  {
    LogonFront();
    LogonBack();
    OffWords();
    LogonWordsWhole();
    LogonText();
    hide Explorer, Notices, Off, Words, Texts, Atoi;
    var last := Notices() + " " + Off();
    var middle := Explorer() + " " + ("/v" + " " + last);
    assert REG_ADD + NO_NOTICES == "reg" + " " + ("add" + " " + middle);
    WordsFirst(Notices(), Off());
    WordsFirst("/v", last);
    WordsFirst(Explorer(), "/v" + " " + last);
    WordsFirst("add", middle);
    WordsFirst("reg", "add" + " " + middle);
  }

  lemma LogonText()
    ensures Texts().logon == REG_ADD + NO_NOTICES
  {
  }

  /** Every setting is in the file exactly for its flag, once, and with its value. */
  lemma SettingsExactly(flags: Flags, user: Option<string>, arch: int)
    ensures Told(flags, user, arch, "AcceptEula") == if flags & 0x2F03 != 0 then [Text("true")] else []
    ensures Told(flags, user, arch, "SanPolicy") == if flags & 0x0010 != 0 then [Text("4")] else []
    ensures forall name :: name == "HideOnlineAccountScreens" || name == "SkipMachineOOBE" || name == "SkipUserOOBE" ==>
              Told(flags, user, arch, name) == if flags & 0x0004 != 0 then [Text("true")] else []
    ensures Told(flags, user, arch, "ProtectYourPC") == if flags & 0x0008 != 0 then [Text("3")] else []
    ensures Told(flags, user, arch, "Name") == if NamesUser(flags, user) then [Text(SafeName(user.value))] else []
    ensures Told(flags, user, arch, "Group") == if NamesUser(flags, user) then [Text("Administrators")] else []
    ensures Told(flags, user, arch, "Value") == if NamesUser(flags, user) then [Text("")] else []
    ensures Told(flags, user, arch, "CommandLine") == if flags & 0x1000 != 0 then [Text(Texts().logon)] else []
  {
    hide Told, Texts, SafeName, NamesUser;
    EulaTold(flags, user, arch);
    DrivesTold(flags, user, arch);
    AccountScreensTold(flags, user, arch);
    MachineTold(flags, user, arch);
    UserTold(flags, user, arch);
    DataTold(flags, user, arch);
    NameTold(flags, user, arch);
    GroupTold(flags, user, arch);
    PasswordTold(flags, user, arch);
    LogonTold(flags, user, arch);
  }

  // ---------- the passes ----------

  /** The attributes of the elements of this name, in order. */
  function Opened(ts: seq<Token>, name: string): seq<string> {
    if ts == [] then []
    else (if ts[0].Open? && ts[0].name == name then [ts[0].attrs] else []) + Opened(ts[1..], name)
  }

  lemma {:induction false} OpenedBoth(a: seq<Token>, b: seq<Token>, name: string)
    ensures Opened(a + b, name) == Opened(a, name) + Opened(b, name)
  {
    if a == [] {
      assert a + b == b;
    } else {
      assert (a + b)[1..] == a[1..] + b;
      OpenedBoth(a[1..], b, name);
    }
  }

  lemma {:induction false} OpenedPlain(ts: seq<Token>, name: string)
    requires forall t :: t in ts ==> !t.Open? || t.name != name
    ensures Opened(ts, name) == []
  {
    if ts != [] {
      OpenedPlain(ts[1..], name);
    }
  }

  /** No pass and no component starts in here. */
  ghost predicate Inside(ts: seq<Token>) {
    forall t :: t in ts && t.Open? ==> t.name != "settings" && t.name != "component"
  }

  lemma InsideBoth(a: seq<Token>, b: seq<Token>)
    requires Inside(a) && Inside(b)
    ensures Inside(a + b)
  {
  }

  lemma InsideLine(indent: nat, ts: seq<Token>)
    requires Inside(ts)
    ensures Inside(Line(indent, ts))
  {
  }

  predicate NoPass(name: string) {
    name != "settings" && name != "component"
  }

  lemma InsideText(indent: nat, name: string, text: string)
    requires NoPass(name)
    ensures Inside(Line(indent, Leaf(name, [Text(text)])))
  {
    InsideLine(indent, Leaf(name, [Text(text)]));
  }

  lemma InsideElement(indent: nat, name: string, attrs: string, inner: seq<Token>)
    requires Inside(inner) && NoPass(name)
    ensures Inside(Element(indent, name, attrs, inner))
  {
    InsideLine(indent, [Open(name, attrs)]);
    InsideLine(indent, [Close(name)]);
    hide Inside, Line;
    InsideBoth(Line(indent, [Open(name, attrs)]), inner);
    InsideBoth(Line(indent, [Open(name, attrs)]) + inner, Line(indent, [Close(name)]));
  }

  lemma NothingInside()
    ensures Inside([])
  {
  }

  lemma InsidePath(c: Command, w: Wording)
    requires w.Ok()
    ensures Inside(Line(10, Leaf("Path", PathOf(c, w))))
  {
    PathPlain(c, w);
    hide PathOf;
    InsideLine(10, Leaf("Path", PathOf(c, w)));
  }

  lemma CommandNames()
    ensures NoPass("Order") && NoPass("Description") && NoPass("RunSynchronousCommand") && NoPass("RunSynchronous")
    ensures NoPass("AcceptEula") && NoPass("ProductKey") && NoPass("UserData") && NoPass("SanPolicy")
  {
  }

  lemma InsideCommand(c: Command, order: nat, w: Wording)
    requires w.Ok()
    ensures Inside(CommandTokens(c, order, w))
  {
    CommandNames();
    NothingInside();
    hide Inside, Line, Leaf, Element, PathOf, PrintInt, NoPass, Wording.Ok;
    InsideText(10, "Order", PrintInt(order));
    InsideText(10, "Description", w.description);
    InsidePath(c, w);
    var order, path := Line(10, Leaf("Order", [Text(PrintInt(order))])), Line(10, Leaf("Path", PathOf(c, w)));
    InsideBoth(order, Description(c, w));
    InsideBoth(order + Description(c, w), path);
    InsideElement(8, "RunSynchronousCommand", w.add, order + Description(c, w) + path);
  }

  lemma {:induction false} InsideCommands(cs: seq<Command>, order: nat, w: Wording)
    requires w.Ok()
    ensures Inside(CommandList(cs, order, w))
  {
    NothingInside();
    hide Inside, CommandTokens, Wording.Ok;
    if cs != [] {
      InsideCommands(cs[..|cs| - 1], order, w);
      InsideCommand(cs[|cs| - 1], order + |cs| - 1, w);
      InsideBoth(CommandList(cs[..|cs| - 1], order, w), CommandTokens(cs[|cs| - 1], order + |cs| - 1, w));
    }
  }

  lemma InsideUserData()
    ensures Inside(UserData())
  {
    CommandNames();
    InsideLine(8, Leaf("ProductKey", [Void("Key")]));
    hide Inside, Line, Leaf, Element, NoPass;
    InsideText(8, "AcceptEula", "true");
    InsideBoth(Line(8, Leaf("AcceptEula", [Text("true")])), Line(8, Leaf("ProductKey", [Void("Key")])));
    InsideElement(6, "UserData", "",
                  Line(8, Leaf("AcceptEula", [Text("true")])) + Line(8, Leaf("ProductKey", [Void("Key")])));
  }

  lemma InsideRunSynchronous(flags: Flags, w: Wording)
    requires w.Ok()
    ensures Inside(RunSynchronous(flags, w))
  {
    CommandNames();
    NothingInside();
    hide Inside, Element, CommandList, Commands, RunsCommands, NoPass, Wording.Ok;
    InsideCommands(Commands(flags), 1, w);
    InsideElement(6, "RunSynchronous", "", CommandList(Commands(flags), 1, w));
  }

  lemma ScreenNames()
    ensures NoPass("HideOnlineAccountScreens") && NoPass("SkipMachineOOBE") && NoPass("SkipUserOOBE")
    ensures NoPass("ProtectYourPC") && NoPass("OOBE")
  {
  }

  lemma InsideScreens(flags: Flags)
    ensures Inside(Screens(flags))
  {
    ScreenNames();
    NothingInside();
    ScreensAre(flags);
    hide Inside, Line, Leaf, Element, Has, NoPass, Screens;
    InsideText(8, "HideOnlineAccountScreens", "true");
    InsideText(8, "SkipMachineOOBE", "true");
    InsideText(8, "SkipUserOOBE", "true");
    InsideText(8, "ProtectYourPC", "3");
    var a, b := Line(8, Leaf("HideOnlineAccountScreens", [Text("true")])), Line(8, Leaf("SkipMachineOOBE", [Text("true")]));
    InsideBoth(a, b);
    InsideBoth(a + b, Line(8, Leaf("SkipUserOOBE", [Text("true")])));
    var skips := if Has(flags, NO_ONLINE_ACCOUNT) then SkipLines() else [];
    var data := if Has(flags, NO_DATA_COLLECTION) then Line(8, Leaf("ProtectYourPC", [Text("3")])) else [];
    InsideBoth(skips, data);
    InsideElement(6, "OOBE", "", skips + data);
  }

  lemma AccountNames()
    ensures NoPass("Name") && NoPass("DisplayName") && NoPass("Group") && NoPass("Password") && NoPass("Value")
    ensures NoPass("PlainText") && NoPass("LocalAccount") && NoPass("LocalAccounts") && NoPass("UserAccounts")
  {
  }

  lemma InsidePassword()
    ensures Inside(Password())
  {
    AccountNames();
    var ts := Leaf("Password", Leaf("Value", [Text("")]) + Leaf("PlainText", [Text("true")]));
    assert Inside(ts);
    hide Inside, Leaf;
    InsideLine(12, ts);
  }

  lemma InsideAccounts(name: string, w: Wording)
    ensures Inside(Accounts(name, w))
  {
    AccountNames();
    InsidePassword();
    hide Inside, Line, Leaf, Element, NoPass, Password;
    InsideText(12, "Name", name);
    InsideText(12, "DisplayName", name);
    InsideText(12, "Group", "Administrators");
    var first, shown := Line(12, Leaf("Name", [Text(name)])), Line(12, Leaf("DisplayName", [Text(name)]));
    var group := Line(12, Leaf("Group", [Text("Administrators")]));
    InsideBoth(shown, group);
    InsideBoth(shown + group, Password());
    InsideBoth(first, AccountRest(name));
    InsideElement(10, "LocalAccount", w.addHere, first + AccountRest(name));
    InsideElement(8, "LocalAccounts", "", Element(10, "LocalAccount", w.addHere, first + AccountRest(name)));
    InsideElement(6, "UserAccounts", "",
                  Element(8, "LocalAccounts", "", Element(10, "LocalAccount", w.addHere, first + AccountRest(name))));
  }

  lemma InsideLogon(w: Wording)
    ensures Inside(FirstLogon(w))
  {
    assert NoPass("Order") && NoPass("CommandLine") && NoPass("SynchronousCommand") && NoPass("FirstLogonCommands");
    hide Inside, Line, Leaf, Element, NoPass;
    InsideText(10, "Order", "1");
    InsideText(10, "CommandLine", w.logon);
    var a, b := Line(10, Leaf("Order", [Text("1")])), Line(10, Leaf("CommandLine", [Text(w.logon)]));
    InsideBoth(a, b);
    InsideElement(8, "SynchronousCommand", w.addHere, a + b);
    InsideElement(6, "FirstLogonCommands", "", Element(8, "SynchronousCommand", w.addHere, a + b));
  }

  lemma InsideUserAccounts(flags: Flags, user: Option<string>, w: Wording)
    ensures Inside(UserAccounts(flags, user, w))
  {
    NothingInside();
    hide Inside, Accounts, SafeName;
    if SetsUser(flags, user) {
      InsideAccounts(SafeName(user.value), w);
    }
  }

  lemma InsideOobe(flags: Flags, user: Option<string>, w: Wording)
    ensures Inside(Screens(flags) + UserAccounts(flags, user, w) + Logon(flags, w))
  {
    NothingInside();
    hide Inside, Screens, UserAccounts, FirstLogon, Has;
    InsideScreens(flags);
    InsideUserAccounts(flags, user, w);
    InsideLogon(w);
    InsideBoth(Screens(flags), UserAccounts(flags, user, w));
    InsideBoth(Screens(flags) + UserAccounts(flags, user, w), Logon(flags, w));
  }

  predicate IsFrame(name: string) {
    name == "settings" || name == "component"
  }

  lemma OpenedTag(indent: nat, t: Token, name: string)
    ensures Opened(Line(indent, [t]), name) == if t.Open? && t.name == name then [t.attrs] else []
  {
    var ts := Line(indent, [t]);
    assert ts == [Text(Spaces(indent)), t, Text("\n")];
    assert ts[1..] == [t, Text("\n")] && ts[1..][1..] == [Text("\n")];
    OpenedPlain([Text("\n")], name);
  }

  lemma OpenedElement(indent: nat, tag: string, attrs: string, inner: seq<Token>, name: string)
    ensures Opened(Element(indent, tag, attrs, inner), name) ==
            (if tag == name then [attrs] else []) + Opened(inner, name)
  {
    hide Opened, Line;
    OpenedTag(indent, Open(tag, attrs), name);
    OpenedTag(indent, Close(tag), name);
    OpenedBoth(Line(indent, [Open(tag, attrs)]), inner, name);
    OpenedBoth(Line(indent, [Open(tag, attrs)]) + inner, Line(indent, [Close(tag)]), name);
  }

  /** A pass opens once, and in it one component. */
  lemma OpenedPass(pass: string, component: string, inner: seq<Token>, name: string)
    requires Inside(inner) && IsFrame(name)
    ensures Opened(Pass(pass, component, inner), name) == [if name == "settings" then pass else component]
  {
    OpenedPlain(inner, name);
    assert "settings" != "component";
    hide Opened, Element, Inside;
    OpenedElement(4, "component", component, inner, name);
    OpenedElement(2, "settings", pass, Element(4, "component", component, inner), name);
  }

  /** The attributes of one pass, or of its component, if the pass is there. */
  function Framed(there: bool, pass: string, component: string, name: string): seq<string> {
    if !there then [] else [if name == "settings" then pass else component]
  }

  function Frames(flags: Flags, arch: string, w: Wording, name: string): seq<string> {
    Framed(NeedsWinPe(flags), WINPE, w.setup.For(arch), name)
    + Framed(Has(flags, OFFLINE_DRIVES), OFFLINE, w.manager.For(arch), name)
    + Framed(NeedsOobe(flags), OOBE, w.shell.For(arch), name)
  }

  lemma OpenedWinPe(flags: Flags, arch: string, w: Wording, name: string)
    requires w.Ok() && IsFrame(name)
    ensures Opened(WinPe(flags, arch, w), name) == Framed(NeedsWinPe(flags), WINPE, w.setup.For(arch), name)
  {
    hide Opened, Pass, UserData, RunSynchronous, NeedsWinPe, Inside, IsFrame, Wording.Ok;
    OpenedNone(name);
    InsideUserData();
    InsideRunSynchronous(flags, w);
    InsideBoth(UserData(), RunSynchronous(flags, w));
    OpenedPass(WINPE, w.setup.For(arch), UserData() + RunSynchronous(flags, w), name);
  }

  lemma OpenedNone(name: string)
    ensures Opened([], name) == []
  {
  }

  lemma OpenedOffline(flags: Flags, arch: string, w: Wording, name: string)
    requires IsFrame(name)
    ensures Opened(Offline(flags, arch, w), name) == Framed(Has(flags, OFFLINE_DRIVES), OFFLINE, w.manager.For(arch), name)
  {
    CommandNames();
    hide Opened, Pass, Line, Leaf, Has, Inside, IsFrame, NoPass;
    OpenedNone(name);
    InsideText(6, "SanPolicy", "4");
    OpenedPass(OFFLINE, w.manager.For(arch), Line(6, Leaf("SanPolicy", [Text("4")])), name);
  }

  lemma OpenedOobe(flags: Flags, user: Option<string>, arch: string, w: Wording, name: string)
    requires IsFrame(name)
    ensures Opened(Oobe(flags, user, arch, w), name) == Framed(NeedsOobe(flags), OOBE, w.shell.For(arch), name)
  {
    hide Opened, Pass, Screens, UserAccounts, Logon, NeedsOobe, Inside, IsFrame;
    OpenedNone(name);
    InsideOobe(flags, user, w);
    OpenedPass(OOBE, w.shell.For(arch), Screens(flags) + UserAccounts(flags, user, w) + Logon(flags, w), name);
  }

  lemma OpenedBody(flags: Flags, user: Option<string>, arch: int, w: Wording, name: string)
    requires w.Ok() && IsFrame(name)
    ensures Opened(UnattendForm.Body(flags, user, arch, w), name) == Frames(flags, ArchName(arch), w, name)
  {
    hide Opened, WinPe, Offline, Oobe, NeedsWinPe, NeedsOobe, Has, ArchName, IsFrame, Framed, Wording.Ok;
    var a := ArchName(arch);
    OpenedWinPe(flags, a, w, name);
    OpenedOffline(flags, a, w, name);
    OpenedOobe(flags, user, a, w, name);
    OpenedBoth(WinPe(flags, a, w), Offline(flags, a, w), name);
    OpenedBoth(WinPe(flags, a, w) + Offline(flags, a, w), Oobe(flags, user, a, w), name);
  }

  lemma OpenedHead(w: Wording, name: string)
    requires IsFrame(name)
    ensures Opened(UnattendForm.Head(w), name) == []
  {
    OpenedPlain([Declaration, Text("\n")], name);
    assert name != "unattend";
    hide Opened, Line;
    OpenedTag(0, Open("unattend", w.schema), name);
    OpenedBoth([Declaration, Text("\n")], Line(0, [Open("unattend", w.schema)]), name);
  }

  lemma OpenedDocument(flags: Flags, user: Option<string>, arch: int, w: Wording, name: string)
    requires w.Ok() && IsFrame(name)
    ensures Opened(Document(flags, user, arch, w), name) == Frames(flags, ArchName(arch), w, name)
  {
    hide Opened, Line, UnattendForm.Body, UnattendForm.Head, Document, ArchName, Frames, IsFrame, Wording.Ok;
    DocumentIs(flags, user, arch, w);
    OpenedHead(w, name);
    OpenedBody(flags, user, arch, w, name);
    OpenedTag(0, Close("unattend"), name);
    OpenedBoth(UnattendForm.Head(w), UnattendForm.Body(flags, user, arch, w), name);
    OpenedBoth(UnattendForm.Head(w) + UnattendForm.Body(flags, user, arch, w), Line(0, [Close("unattend")]), name);
  }

  /** The passes of the file, each exactly for its flags, and the component in each for the right architecture. */
  lemma PassesExactly(flags: Flags, user: Option<string>, arch: int, w: Wording)
    requires w.Ok()
    ensures Opened(Document(flags, user, arch, w), "settings") ==
            (if flags & 0x2F03 != 0 then [" pass=\"windowsPE\""] else [])
            + (if flags & 0x0010 != 0 then [" pass=\"offlineServicing\""] else [])
            + (if flags & 0x10CC != 0 then [" pass=\"oobeSystem\""] else [])
    ensures var a := if arch == 0 then "x86" else if arch == 2 then "arm64" else "amd64";
            Opened(Document(flags, user, arch, w), "component") ==
            (if flags & 0x2F03 != 0 then [w.setup.before + a + w.setup.after] else [])
            + (if flags & 0x0010 != 0 then [w.manager.before + a + w.manager.after] else [])
            + (if flags & 0x10CC != 0 then [w.shell.before + a + w.shell.after] else [])
  {
    FlagBits(flags);
    assert IsFrame("settings") && IsFrame("component") && "component" != "settings";
    hide Opened, Document, NeedsWinPe, NeedsOobe, Has, IsFrame, Wording.Ok;
    OpenedDocument(flags, user, arch, w, "settings");
    OpenedDocument(flags, user, arch, w, "component");
  }
}
