/** The answer file is well formed exactly when the part of the user's name that is kept is proper text. */
module UnattendForm {
  import opened CStrings
  import opened Xml
  import opened Unattend

  const START: Nesting := Nesting([], 0)

  // ---------- neutral lines and elements ----------

  lemma SpacesOk(n: nat)
    ensures TokenOk(Text(Spaces(n))) && TokenOk(Text("\n"))
    ensures AllSpace(Spaces(n)) && AllSpace("\n")
  {
    PlainIsLegal(Spaces(n));
    PlainIsLegal("\n");
  }

  /** A text of ASCII characters that are none of markup. */
  lemma PlainText(s: string)
    requires forall c :: c in s ==> IsPlain(c) && c != '<' && c != '&'
    ensures TextOk(s)
  {
    PlainIsLegal(s);
  }

  lemma LineNeutral(indent: nat, ts: seq<Token>)
    requires Neutral(ts)
    ensures Neutral(Line(indent, ts))
  {
    hide Neutral;
    SpacesOk(indent);
    NeutralContent(Text(Spaces(indent)));
    NeutralContent(Text("\n"));
    NeutralBoth([Text(Spaces(indent))], ts);
    NeutralBoth([Text(Spaces(indent))] + ts, [Text("\n")]);
  }

  lemma LeafLine(indent: nat, name: string, body: seq<Token>)
    requires Neutral(body) && NameOk(name)
    ensures Neutral(Line(indent, Leaf(name, body)))
  {
    hide Neutral;
    NeutralEnclosed(name, "", body);
    LineNeutral(indent, Leaf(name, body));
  }

  lemma TextLine(indent: nat, name: string, text: string)
    requires TextOk(text) && NameOk(name)
    ensures Neutral(Line(indent, Leaf(name, [Text(text)])))
  {
    NeutralContent(Text(text));
    LeafLine(indent, name, [Text(text)]);
  }

  /** An element is an enclosure between two indentations. */
  lemma ElementShape(indent: nat, name: string, attrs: string, inner: seq<Token>)
    ensures Element(indent, name, attrs, inner) ==
            Line(indent, [Open(name, attrs)] + ([Text("\n")] + inner + [Text(Spaces(indent))]) + [Close(name)])
  {
  }

  lemma ElementNeutral(indent: nat, name: string, attrs: string, inner: seq<Token>)
    requires Neutral(inner) && NameOk(name) && AttrsOk(attrs)
    ensures Neutral(Element(indent, name, attrs, inner))
  {
    hide Neutral, Line, Element;
    SpacesOk(indent);
    NeutralContent(Text(Spaces(indent)));
    NeutralContent(Text("\n"));
    NeutralBoth([Text("\n")], inner);
    NeutralBoth([Text("\n")] + inner, [Text(Spaces(indent))]);
    NeutralEnclosed(name, attrs, [Text("\n")] + inner + [Text(Spaces(indent))]);
    LineNeutral(indent, [Open(name, attrs)] + ([Text("\n")] + inner + [Text(Spaces(indent))]) + [Close(name)]);
    ElementShape(indent, name, attrs, inner);
  }

  lemma NeutralNothing()
    ensures Neutral([])
  {
  }

  lemma {:induction false} NeutralAll(ts: seq<Token>)
    requires forall t :: t in ts ==> TokenOk(t) && (t.Text? || t.Ref?)
    ensures Neutral(ts)
  {
    hide Neutral, TokenOk;
    if ts == [] {
      NeutralNothing();
    } else {
      NeutralContent(ts[0]);
      NeutralAll(ts[1..]);
      NeutralBoth([ts[0]], ts[1..]);
      assert ts == [ts[0]] + ts[1..];
    }
  }

  // ---------- the sections ----------

  lemma PlainNumber(n: int)
    ensures TextOk(PrintInt(n))
  {
    hide TextOk, IsPlain;
    DigitsPlain(if n < 0 then -n else n);
    PlainText(PrintInt(n));
  }

  lemma DigitsPlain(n: nat)
    ensures forall c :: c in Digits(n) || c == '-' ==> IsPlain(c) && c != '<' && c != '&'
  {
  }

  lemma TextAppend(s: string, t: string)
    requires TextOk(s) && TextOk(t)
    ensures TextOk(s + t)
  {
    LegalAppend(s, t);
  }

  lemma BypassWords()
    ensures TextOk("reg add HKLM\\SYSTEM") && TextOk("\\Setup\\LabConfig /v ") && TextOk(" /t REG_DWORD /d 1 /f")
  {
    hide TextOk;
    PlainText("reg add HKLM\\SYSTEM");
    PlainText("\\Setup\\LabConfig /v ");
    PlainText(" /t REG_DWORD /d 1 /f");
  }

  lemma PlainBypass(key: string)
    requires TextOk(key)
    ensures TextOk(BypassLine(key))
  {
    hide TextOk;
    BypassWords();
    TextAppend("reg add HKLM\\SYSTEM", "\\Setup\\LabConfig /v ");
    TextAppend("reg add HKLM\\SYSTEM" + "\\Setup\\LabConfig /v ", key);
    TextAppend("reg add HKLM\\SYSTEM" + "\\Setup\\LabConfig /v " + key, " /t REG_DWORD /d 1 /f");
  }

  lemma KeysPlain(i: nat)
    requires i < |BYPASSES|
    ensures TextOk(BYPASSES[i].1)
  {
    hide TextOk;
    PlainText("BypassTPMCheck");
    PlainText("BypassSecureBootCheck");
    PlainText("BypassRAMCheck");
    PlainText("BypassCPUCheck");
    PlainText("BypassStorageCheck");
  }

  predicate CommandOk(c: Command) {
    c.Bypass? ==> TextOk(c.key)
  }

  lemma {:induction false} RequestedOk(flags: Flags, i: nat)
    requires i <= |BYPASSES|
    ensures forall c :: c in Requested(flags, i) ==> CommandOk(c)
    decreases |BYPASSES| - i
  {
    hide Has, TextOk;
    if i < |BYPASSES| {
      KeysPlain(i);
      RequestedOk(flags, i + 1);
    }
  }

  lemma PathNeutral(c: Command, w: Wording)
    requires w.Ok() && CommandOk(c)
    ensures Neutral(PathOf(c, w))
  {
    match c
    case HideMedia => NeutralAll(w.script);
    case Bypass(key) =>
      PlainBypass(key);
      NeutralContent(Text(BypassLine(key)));
  }

  lemma CommandNames()
    ensures NameOk("RunSynchronousCommand") && NameOk("Order") && NameOk("Description") && NameOk("Path")
  {
  }

  lemma CommandNeutral(c: Command, order: nat, w: Wording)
    requires w.Ok() && CommandOk(c)
    ensures Neutral(CommandTokens(c, order, w))
  {
    PathNeutral(c, w);
    PlainNumber(order);
    CommandNames();
    hide Neutral, Line, Leaf, Element, NameOk, PathOf, PrintInt;
    TextLine(10, "Order", PrintInt(order));
    TextLine(10, "Description", w.description);
    LeafLine(10, "Path", PathOf(c, w));
    NeutralNothing();
    var a, b := Line(10, Leaf("Order", [Text(PrintInt(order))])), Line(10, Leaf("Path", PathOf(c, w)));
    var d := if c.HideMedia? then Line(10, Leaf("Description", [Text(w.description)])) else [];
    NeutralBoth(a, d);
    NeutralBoth(a + d, b);
    ElementNeutral(8, "RunSynchronousCommand", w.add, a + d + b);
  }

  lemma {:induction false} CommandListNeutral(cs: seq<Command>, order: nat, w: Wording)
    requires w.Ok() && forall c :: c in cs ==> CommandOk(c)
    ensures Neutral(CommandList(cs, order, w))
  {
    hide Neutral, CommandTokens, CommandOk, Wording.Ok;
    if cs == [] {
      NeutralNothing();
    } else {
      CommandListNeutral(cs[..|cs| - 1], order, w);
      CommandNeutral(cs[|cs| - 1], order + |cs| - 1, w);
      NeutralBoth(CommandList(cs[..|cs| - 1], order, w), CommandTokens(cs[|cs| - 1], order + |cs| - 1, w));
    }
  }

  lemma PassNeutral(pass: string, component: string, inner: seq<Token>)
    requires Neutral(inner) && AttrsOk(pass) && AttrsOk(component)
    ensures Neutral(Pass(pass, component, inner))
  {
    assert NameOk("settings") && NameOk("component");
    hide Neutral, Element, NameOk;
    ElementNeutral(4, "component", component, inner);
    ElementNeutral(2, "settings", pass, Element(4, "component", component, inner));
  }

  lemma PassNames()
    ensures AttrsOk(WINPE) && AttrsOk(OFFLINE) && AttrsOk(OOBE)
  {
    hide AllLegal;
    PlainIsLegal(WINPE);
    PlainIsLegal(OFFLINE);
    PlainIsLegal(OOBE);
  }

  lemma ComponentOk(a: Attrs, arch: int)
    requires a.Ok()
    ensures AttrsOk(a.For(ArchName(arch)))
  {
    hide AllLegal;
    PlainIsLegal(ArchName(arch));
    LegalAppend(a.before, ArchName(arch));
    LegalAppend(a.before + ArchName(arch), a.after);
  }

  lemma UserDataNames()
    ensures NameOk("UserData") && NameOk("AcceptEula") && NameOk("ProductKey") && NameOk("Key") && TextOk("true")
  {
    PlainText("true");
  }

  lemma UserDataNeutral()
    ensures Neutral(UserData())
  {
    hide Neutral, Line, Leaf, Element, NameOk, TextOk;
    UserDataNames();
    TextLine(8, "AcceptEula", "true");
    NeutralContent(Void("Key"));
    LeafLine(8, "ProductKey", [Void("Key")]);
    NeutralBoth(Line(8, Leaf("AcceptEula", [Text("true")])), Line(8, Leaf("ProductKey", [Void("Key")])));
    ElementNeutral(6, "UserData", "",
                   Line(8, Leaf("AcceptEula", [Text("true")])) + Line(8, Leaf("ProductKey", [Void("Key")])));
  }

  lemma RunSynchronousName()
    ensures NameOk("RunSynchronous") && CommandOk(HideMedia)
  {
  }

  lemma RunSynchronousNeutral(flags: Flags, w: Wording)
    requires w.Ok()
    ensures Neutral(RunSynchronous(flags, w))
  {
    var cs := Commands(flags);
    hide Neutral, Element, NameOk, CommandList, Has, CommandOk;
    RunSynchronousName();
    RequestedOk(flags, 0);
    CommandListNeutral(cs, 1, w);
    ElementNeutral(6, "RunSynchronous", "", CommandList(cs, 1, w));
    NeutralNothing();
  }

  lemma WinPeNeutral(flags: Flags, arch: int, w: Wording)
    requires w.Ok()
    ensures Neutral(WinPe(flags, ArchName(arch), w))
  {
    PassNames();
    ComponentOk(w.setup, arch);
    hide Neutral, Element, AttrsOk, UserData, CommandList, Commands, Pass, Has, ArchName, RunSynchronous;
    UserDataNeutral();
    NeutralNothing();
    RunSynchronousNeutral(flags, w);
    NeutralBoth(UserData(), RunSynchronous(flags, w));
    PassNeutral(WINPE, w.setup.For(ArchName(arch)), UserData() + RunSynchronous(flags, w));
  }

  lemma SanPolicyName()
    ensures NameOk("SanPolicy") && TextOk("4")
  {
  }

  lemma OfflineNeutral(flags: Flags, arch: int, w: Wording)
    requires w.Ok()
    ensures Neutral(Offline(flags, ArchName(arch), w))
  {
    PassNames();
    ComponentOk(w.manager, arch);
    SanPolicyName();
    hide Neutral, Line, Leaf, Pass, Has, NameOk, TextOk, AttrsOk, ArchName, Wording.Ok;
    NeutralNothing();
    TextLine(6, "SanPolicy", "4");
    PassNeutral(OFFLINE, w.manager.For(ArchName(arch)), Line(6, Leaf("SanPolicy", [Text("4")])));
  }

  lemma ScreenNames()
    ensures NameOk("OOBE") && NameOk("HideOnlineAccountScreens") && NameOk("SkipMachineOOBE")
    ensures NameOk("SkipUserOOBE") && NameOk("ProtectYourPC") && TextOk("true") && TextOk("3")
  {
  }

  lemma ScreensNeutral(flags: Flags)
    ensures Neutral(Screens(flags))
  {
    hide Neutral, Line, Leaf, Element, NameOk, TextOk, Has;
    ScreenNames();
    TextLine(8, "HideOnlineAccountScreens", "true");
    TextLine(8, "SkipMachineOOBE", "true");
    TextLine(8, "SkipUserOOBE", "true");
    TextLine(8, "ProtectYourPC", "3");
    NeutralNothing();
    var a, b := Line(8, Leaf("HideOnlineAccountScreens", [Text("true")])), Line(8, Leaf("SkipMachineOOBE", [Text("true")]));
    var c, d := Line(8, Leaf("SkipUserOOBE", [Text("true")])), Line(8, Leaf("ProtectYourPC", [Text("3")]));
    NeutralBoth(a, b);
    NeutralBoth(a + b, c);
    var x := if Has(flags, NO_ONLINE_ACCOUNT) then a + b + c else [];
    var y := if Has(flags, NO_DATA_COLLECTION) then d else [];
    NeutralBoth(x, y);
    ElementNeutral(6, "OOBE", "", x + y);
  }

  lemma PasswordNames()
    ensures NameOk("Password") && NameOk("Value") && NameOk("PlainText") && TextOk("true") && TextOk("")
  {
    PlainText("true");
  }

  lemma PasswordNeutral()
    ensures Neutral(Password())
  {
    hide Neutral, Line, NameOk, TextOk;
    PasswordNames();
    NeutralContent(Text(""));
    NeutralContent(Text("true"));
    NeutralEnclosed("Value", "", [Text("")]);
    NeutralEnclosed("PlainText", "", [Text("true")]);
    NeutralBoth(Leaf("Value", [Text("")]), Leaf("PlainText", [Text("true")]));
    LeafLine(12, "Password", Leaf("Value", [Text("")]) + Leaf("PlainText", [Text("true")]));
  }

  lemma AccountTexts()
    ensures NameOk("DisplayName") && NameOk("Group") && TextOk("Administrators")
  {
    hide TextOk;
    PlainText("Administrators");
  }

  lemma AccountRestNeutral(name: string)
    requires TextOk(name)
    ensures Neutral(AccountRest(name))
  {
    hide Neutral, Line, Leaf, Password, NameOk, TextOk;
    AccountTexts();
    PasswordNeutral();
    TextLine(12, "DisplayName", name);
    TextLine(12, "Group", "Administrators");
    var b, c := Line(12, Leaf("DisplayName", [Text(name)])), Line(12, Leaf("Group", [Text("Administrators")]));
    NeutralBoth(b, c);
    NeutralBoth(b + c, Password());
  }

  lemma AccountNames()
    ensures NameOk("UserAccounts") && NameOk("LocalAccounts") && NameOk("LocalAccount") && NameOk("Name")
  {
  }

  lemma EmptyAttrs()
    ensures AttrsOk("")
  {
  }

  lemma AccountsNeutral(name: string, w: Wording)
    requires w.Ok() && TextOk(name)
    ensures Neutral(Accounts(name, w))
  {
    hide Neutral, Line, Leaf, Element, AccountRest, NameOk, TextOk, AttrsOk;
    var a := Line(12, Leaf("Name", [Text(name)]));
    var inner := a + AccountRest(name);
    AccountNames();
    EmptyAttrs();
    TextLine(12, "Name", name);
    AccountRestNeutral(name);
    NeutralBoth(a, AccountRest(name));
    ElementNeutral(10, "LocalAccount", w.addHere, inner);
    ElementNeutral(8, "LocalAccounts", "", Element(10, "LocalAccount", w.addHere, inner));
    ElementNeutral(6, "UserAccounts", "",
                   Element(8, "LocalAccounts", "", Element(10, "LocalAccount", w.addHere, inner)));
  }

  lemma LogonNames()
    ensures NameOk("FirstLogonCommands") && NameOk("SynchronousCommand") && NameOk("CommandLine")
    ensures NameOk("Order") && TextOk("1")
  {
  }

  lemma FirstLogonNeutral(w: Wording)
    requires w.Ok()
    ensures Neutral(FirstLogon(w))
  {
    hide Neutral, Line, Leaf, Element, NameOk;
    LogonNames();
    TextLine(10, "Order", "1");
    TextLine(10, "CommandLine", w.logon);
    var inner := Line(10, Leaf("Order", [Text("1")])) + Line(10, Leaf("CommandLine", [Text(w.logon)]));
    NeutralBoth(Line(10, Leaf("Order", [Text("1")])), Line(10, Leaf("CommandLine", [Text(w.logon)])));
    ElementNeutral(8, "SynchronousCommand", w.addHere, inner);
    ElementNeutral(6, "FirstLogonCommands", "", Element(8, "SynchronousCommand", w.addHere, inner));
  }

  /**
    What can spoil the answer file is a name that is written and whose first 255 bytes hold an
    ampersand, or a character that XML does not allow or that is cut through.
   */
  predicate Spoiled(flags: Flags, user: Option<string>) {
    SetsUser(flags, user)
    && var kept := Truncate(UptoNul(user.value), NAME_ROOM); '&' in kept || !AllLegal(kept)
  }

  /** No tag, no end of a reference, and an ampersand only where there was one. */
  lemma SanitizedPlain(name: string)
    ensures '<' !in Sanitized(name) && ';' !in Sanitized(name)
    ensures '&' in Sanitized(name) <==> '&' in name
  {
  }

  /** Replacing makes no character legal, nor any illegal. */
  lemma {:induction false} SanitizedLegal(name: string)
    ensures AllLegal(Sanitized(name)) <==> AllLegal(name)
  {
    if name != "" {
      var k, safe := LegalLength(name), Sanitized(name);
      SanitizedLength(name);
      hide LegalLength, IsForbidden;
      if k > 0 {
        assert safe[k..] == Sanitized(name[k..]);
        SanitizedLegal(name[k..]);
      }
    }
  }

  lemma SanitizedLength(name: string)
    requires name != ""
    ensures LegalLength(Sanitized(name)) == LegalLength(name)
  {
    hide Sanitized;
    forall i | 0 <= i < |name|
      ensures Sanitized(name)[i] == name[i] || (' ' <= name[i] <= '~' && Sanitized(name)[i] == '_')
    {
      if IsForbidden(name[i]) {
        ForbiddenIsPlain(name[i]);
      }
    }
  }

  lemma ForbiddenIsPlain(c: char)
    requires IsForbidden(c)
    ensures ' ' <= c <= '~'
  {
  }

  lemma SafeNamePlain(user: string)
    ensures '<' !in SafeName(user) && ';' !in SafeName(user)
    ensures var kept := Truncate(UptoNul(user), NAME_ROOM);
            TextOk(SafeName(user)) <==> '&' !in kept && AllLegal(kept)
  {
    hide Sanitized, AllLegal;
    SanitizedPlain(Truncate(UptoNul(user), NAME_ROOM));
    SanitizedLegal(Truncate(UptoNul(user), NAME_ROOM));
  }

  lemma UserAccountsNeutral(flags: Flags, user: Option<string>, w: Wording)
    requires w.Ok() && !Spoiled(flags, user)
    ensures Neutral(UserAccounts(flags, user, w))
  {
    hide Neutral, Accounts, Has, SafeName, TextOk, Wording.Ok;
    NeutralNothing();
    if SetsUser(flags, user) {
      SafeNamePlain(user.value);
      AccountsNeutral(SafeName(user.value), w);
    }
  }

  lemma LogonNeutral(flags: Flags, w: Wording)
    requires w.Ok()
    ensures Neutral(Logon(flags, w))
  {
    hide Neutral, FirstLogon, Has;
    NeutralNothing();
    FirstLogonNeutral(w);
  }

  lemma OobeNeutral(flags: Flags, user: Option<string>, arch: int, w: Wording)
    requires w.Ok() && !Spoiled(flags, user)
    ensures Neutral(Oobe(flags, user, ArchName(arch), w))
  {
    PassNames();
    ComponentOk(w.shell, arch);
    hide Neutral, Pass, Screens, UserAccounts, Logon, NeedsOobe, ArchName, AttrsOk;
    NeutralNothing();
    ScreensNeutral(flags);
    UserAccountsNeutral(flags, user, w);
    LogonNeutral(flags, w);
    var x, y := UserAccounts(flags, user, w), Logon(flags, w);
    NeutralBoth(Screens(flags), x);
    NeutralBoth(Screens(flags) + x, y);
    PassNeutral(OOBE, w.shell.For(ArchName(arch)), Screens(flags) + x + y);
  }

  // ---------- the whole document ----------

  function Body(flags: Flags, user: Option<string>, arch: int, w: Wording): seq<Token> {
    WinPe(flags, ArchName(arch), w) + Offline(flags, ArchName(arch), w) + Oobe(flags, user, ArchName(arch), w)
  }

  function Head(w: Wording): seq<Token> {
    [Declaration, Text("\n")] + Line(0, [Open("unattend", w.schema)])
  }

  const INSIDE: Nesting := Nesting(["unattend"], 1)

  lemma HeadNests(w: Wording)
    requires AttrsOk(w.schema)
    ensures TokensOk(Head(w)) && Nest(Head(w), START) == Some(INSIDE)
  {
    SpacesOk(0);
    assert NameOk("unattend");
    hide TextOk, AllSpace, NameOk, AttrsOk;
    var ts := Head(w);
    assert ts == [Declaration, Text("\n"), Text(Spaces(0)), Open("unattend", w.schema), Text("\n")];
    assert Enter("unattend", START) == INSIDE;
    assert Nest(ts[3..], START) == Some(INSIDE) by {
      assert ts[3..][1..] == [Text("\n")];
      assert Nest([Text("\n")], INSIDE) == Some(INSIDE);
    }
    assert Nest(ts, START) == Nest(ts[1..], START) == Nest(ts[1..][1..], START) == Nest(ts[1..][1..][1..], START);
    assert ts[1..][1..][1..] == ts[3..];
  }

  lemma FootNests()
    ensures var ts := Line(0, [Close("unattend")]);
            TokensOk(ts) && Nest(ts, INSIDE) == Some(Nesting([], 1))
  {
    SpacesOk(0);
    assert NameOk("unattend");
    hide TextOk, AllSpace, NameOk;
    var ts, out := Line(0, [Close("unattend")]), Nesting([], 1);
    assert ts == [Text(Spaces(0)), Close("unattend"), Text("\n")];
    assert Leave("unattend", INSIDE) == Some(out);
    assert ts[1..][1..] == [Text("\n")] && Nest([Text("\n")], out) == Some(out);
    assert Nest(ts[1..], INSIDE) == Some(out);
  }

  lemma DocumentNests(flags: Flags, user: Option<string>, arch: int, w: Wording)
    requires w.Ok() && !Spoiled(flags, user)
    ensures TokensOk(Document(flags, user, arch, w))
    ensures Nest(Document(flags, user, arch, w), START) == Some(Nesting([], 1))
  {
    HeadNests(w);
    FootNests();
    WinPeNeutral(flags, arch, w);
    OfflineNeutral(flags, arch, w);
    OobeNeutral(flags, user, arch, w);
    hide WinPe, Offline, Oobe, Line, ArchName, TokenOk, Nest;
    var x := WinPe(flags, ArchName(arch), w);
    var y := Offline(flags, ArchName(arch), w);
    NeutralBoth(x, y);
    NeutralBoth(x + y, Oobe(flags, user, ArchName(arch), w));
    var body, foot := Body(flags, user, arch, w), Line(0, [Close("unattend")]);
    assert Document(flags, user, arch, w) == Head(w) + body + foot;
    NestAppend(Head(w), body, START);
    NestAppend(Head(w) + body, foot, START);
  }

  lemma ReadsWell(ts: seq<Token>)
    requires TokensOk(ts) && Nest(ts, START) == Some(Nesting([], 1))
    ensures WellFormed(RenderAll(ts))
  {
    ScanRender(ts, "", START);
    assert RenderAll(ts) + "" == RenderAll(ts);
  }

  // ---------- a name that spoils it ----------

  /** Inside any element, what stands here can be read and stays inside. */
  ghost predicate Passing(ts: seq<Token>) {
    && TokensOk(ts)
    && forall n: Nesting {:trigger Nest(ts, n)} ::
         n.stack != [] ==> Nest(ts, n).Some? && Nest(ts, n).value.stack != []
  }

  lemma PassingBoth(a: seq<Token>, b: seq<Token>)
    requires Passing(a) && Passing(b)
    ensures Passing(a + b)
  {
    hide Nest, TokenOk;
    forall n: Nesting | n.stack != []
      ensures Nest(a + b, n).Some? && Nest(a + b, n).value.stack != []
    {
      NestAppend(a, b, n);
    }
  }

  lemma NeutralPasses(ts: seq<Token>)
    requires Neutral(ts)
    ensures Passing(ts)
  {
  }

  lemma OpenPasses(name: string, attrs: string)
    requires NameOk(name) && AttrsOk(attrs)
    ensures Passing([Open(name, attrs)])
  {
  }

  lemma OpenLinePasses(indent: nat, name: string, attrs: string)
    requires NameOk(name) && AttrsOk(attrs)
    ensures Passing(Line(indent, [Open(name, attrs)]))
  {
    hide Passing, Neutral, NameOk, AttrsOk;
    SpacesOk(indent);
    NeutralContent(Text(Spaces(indent)));
    NeutralContent(Text("\n"));
    NeutralPasses([Text(Spaces(indent))]);
    NeutralPasses([Text("\n")]);
    OpenPasses(name, attrs);
    PassingBoth([Text(Spaces(indent))], [Open(name, attrs)]);
    PassingBoth([Text(Spaces(indent))] + [Open(name, attrs)], [Text("\n")]);
  }

  /** `before` can be read, then comes the name, and then a closing tag. */
  ghost predicate Hole(ts: seq<Token>, before: seq<Token>, name: string, after: seq<Token>) {
    ts == before + [Text(name)] + after && Passing(before) && after != [] && after[0].Close?
  }

  lemma HoleBetween(l: seq<Token>, ts: seq<Token>, r: seq<Token>, before: seq<Token>, name: string, after: seq<Token>)
    requires Hole(ts, before, name, after) && Passing(l)
    ensures Hole(l + ts + r, l + before, name, after + r)
  {
    hide Passing;
    PassingBoth(l, before);
  }

  lemma HoleInElement(indent: nat, tag: string, attrs: string, ts: seq<Token>,
                      before: seq<Token>, name: string, after: seq<Token>)
    returns (before': seq<Token>, after': seq<Token>)
    requires Hole(ts, before, name, after) && NameOk(tag) && AttrsOk(attrs)
    ensures Hole(Element(indent, tag, attrs, ts), before', name, after')
  {
    hide Hole, NameOk, AttrsOk, Line;
    OpenLinePasses(indent, tag, attrs);
    HoleBetween(Line(indent, [Open(tag, attrs)]), ts, Line(indent, [Close(tag)]), before, name, after);
    before', after' := Line(indent, [Open(tag, attrs)]) + before, after + Line(indent, [Close(tag)]);
  }

  lemma HoleInLine(name: string) returns (before: seq<Token>, after: seq<Token>)
    ensures Hole(Line(12, Leaf("Name", [Text(name)])), before, name, after)
  {
    before, after := [Text(Spaces(12))] + [Open("Name", "")], [Close("Name"), Text("\n")];
    assert Line(12, Leaf("Name", [Text(name)])) == before + [Text(name)] + after;
    assert NameOk("Name");
    hide Passing, Neutral, NameOk;
    SpacesOk(12);
    NeutralContent(Text(Spaces(12)));
    NeutralPasses([Text(Spaces(12))]);
    OpenPasses("Name", "");
    PassingBoth([Text(Spaces(12))], [Open("Name", "")]);
  }

  lemma NothingPasses()
    ensures Passing([])
  {
  }

  lemma HoleInAccount(name: string) returns (before: seq<Token>, after: seq<Token>)
    ensures Hole(Line(12, Leaf("Name", [Text(name)])) + AccountRest(name), before, name, after)
  {
    hide Hole, Line, Leaf, AccountRest, Passing;
    before, after := HoleInLine(name);
    var line, rest := Line(12, Leaf("Name", [Text(name)])), AccountRest(name);
    NothingPasses();
    HoleBetween([], line, rest, before, name, after);
    before, after := [] + before, after + rest;
    assert [] + line + rest == line + rest;
  }

  lemma HoleInAccounts(name: string, w: Wording) returns (before: seq<Token>, after: seq<Token>)
    requires w.Ok()
    ensures Hole(Accounts(name, w), before, name, after)
  {
    hide Hole, Line, Leaf, AccountRest, NameOk, Element;
    AccountNames();
    before, after := HoleInAccount(name);
    var inner := Line(12, Leaf("Name", [Text(name)])) + AccountRest(name);
    before, after := HoleInElement(10, "LocalAccount", w.addHere, inner, before, name, after);
    inner := Element(10, "LocalAccount", w.addHere, inner);
    before, after := HoleInElement(8, "LocalAccounts", "", inner, before, name, after);
    inner := Element(8, "LocalAccounts", "", inner);
    before, after := HoleInElement(6, "UserAccounts", "", inner, before, name, after);
  }

  lemma HoleInPass(pass: string, component: string, ts: seq<Token>,
                   before: seq<Token>, name: string, after: seq<Token>)
    returns (before': seq<Token>, after': seq<Token>)
    requires Hole(ts, before, name, after) && AttrsOk(pass) && AttrsOk(component)
    ensures Hole(Pass(pass, component, ts), before', name, after')
  {
    assert NameOk("settings") && NameOk("component");
    hide Hole, NameOk, AttrsOk, Element;
    before', after' := HoleInElement(4, "component", component, ts, before, name, after);
    before', after' := HoleInElement(2, "settings", pass, Element(4, "component", component, ts), before', name, after');
  }

  lemma SettingNeedsOobe(flags: Flags)
    requires Has(flags, SET_USER)
    ensures NeedsOobe(flags)
  {
  }

  lemma HoleInOobe(flags: Flags, user: Option<string>, arch: int, w: Wording)
    returns (before: seq<Token>, after: seq<Token>)
    requires w.Ok() && SetsUser(flags, user)
    ensures Hole(Oobe(flags, user, ArchName(arch), w), before, SafeName(user.value), after)
  {
    PassNames();
    ComponentOk(w.shell, arch);
    SettingNeedsOobe(flags);
    hide Hole, Passing, Neutral, Pass, Screens, Accounts, Logon, NeedsOobe, ArchName, SafeName, AttrsOk, Has;
    var name := SafeName(user.value);
    before, after := HoleInAccounts(name, w);
    ScreensNeutral(flags);
    NeutralPasses(Screens(flags));
    HoleBetween(Screens(flags), Accounts(name, w), Logon(flags, w), before, name, after);
    before, after := Screens(flags) + before, after + Logon(flags, w);
    before, after := HoleInPass(OOBE, w.shell.For(ArchName(arch)),
                                Screens(flags) + Accounts(name, w) + Logon(flags, w), before, name, after);
  }

  /** Reading stops at a name that is no proper text, wherever in a document it stands. */
  lemma HoleSpoils(head: seq<Token>, ts: seq<Token>, foot: seq<Token>,
                   before: seq<Token>, name: string, after: seq<Token>, n: Nesting)
    requires TokensOk(head) && Nest(head, n).Some? && Nest(head, n).value.stack != []
    requires Hole(ts, before, name, after)
    requires !TextOk(name) && '<' !in name && ';' !in name
    ensures Scan(RenderAll(head + ts + foot), n) == None
  {
    hide Scan, Nest;
    var m := Nest(head, n).value;
    var rest := after + foot;
    var tail := [Text(name)] + rest;
    assert head + ts + foot == head + before + tail;
    RenderAppend(head + before, tail);
    NestAppend(head, before, n);
    ScanRender(head + before, RenderAll(tail), n);
    assert tail[0] == Text(name) && tail[1..] == rest;
    assert RenderAll(tail) == name + RenderAll(rest);
    assert rest[0] == after[0];
    assert RenderAll(rest) == Render(rest[0]) + RenderAll(rest[1..]);
    Unreadable(name, RenderAll(rest), Nest(head + before, n).value);
  }

  /** What stands in front of the third pass can be read, and leads inside the root. */
  lemma FrontNests(flags: Flags, arch: int, w: Wording) returns (front: seq<Token>)
    requires w.Ok()
    ensures front == Head(w) + (WinPe(flags, ArchName(arch), w) + Offline(flags, ArchName(arch), w))
    ensures TokensOk(front) && Nest(front, START) == Some(INSIDE)
  {
    HeadNests(w);
    WinPeNeutral(flags, arch, w);
    OfflineNeutral(flags, arch, w);
    hide Head, WinPe, Offline, ArchName, Nest, TokenOk;
    var x, y := WinPe(flags, ArchName(arch), w), Offline(flags, ArchName(arch), w);
    NeutralBoth(x, y);
    NestAppend(Head(w), x + y, START);
    front := Head(w) + (x + y);
  }

  lemma Regroup(flags: Flags, user: Option<string>, arch: int, w: Wording)
    ensures Document(flags, user, arch, w) ==
            Head(w) + (WinPe(flags, ArchName(arch), w) + Offline(flags, ArchName(arch), w))
            + Oobe(flags, user, ArchName(arch), w) + Line(0, [Close("unattend")])
  {
    hide WinPe, Offline, Oobe, Line, ArchName;
  }

  lemma DocumentSpoiled(flags: Flags, user: Option<string>, arch: int, w: Wording)
    requires w.Ok() && Spoiled(flags, user)
    ensures !WellFormed(RenderAll(Document(flags, user, arch, w)))
  {
    hide Hole, WinPe, Offline, Oobe, Document, Head, Line, RenderAll, ArchName, Nest;
    hide SafeName, Scan, TokensOk, Wording.Ok, Has;
    SafeNamePlain(user.value);
    var front := FrontNests(flags, arch, w);
    var before, after := HoleInOobe(flags, user, arch, w);
    var z, foot := Oobe(flags, user, ArchName(arch), w), Line(0, [Close("unattend")]);
    HoleSpoils(front, z, foot, before, SafeName(user.value), after, START);
    Regroup(flags, user, arch, w);
  }

  /**
    For all flags, users and architectures: every tag is closed in turn, there is one root, and every
    reference and character is a proper one — exactly unless a name is written whose kept part has
    an ampersand or is no legal text. Writing the ampersand as a reference does not help: its
    semicolon is replaced. A name of more than 255 bytes may be cut within a character.
   */
  lemma WellFormedExactly(flags: Flags, user: Option<string>, arch: int, w: Wording)
    requires w.Ok()
    ensures WellFormed(RenderAll(Document(flags, user, arch, w))) <==> !Spoiled(flags, user)
  {
    hide Document, WellFormed, Spoiled;
    if Spoiled(flags, user) {
      DocumentSpoiled(flags, user, arch, w);
    } else {
      DocumentNests(flags, user, arch, w);
      ReadsWell(Document(flags, user, arch, w));
    }
  }

  // ---------- names that spoil the file ----------

  /** In front of another text, ASCII characters decide nothing. */
  lemma {:induction false} PlainInFront(s: string, t: string)
    requires forall c :: c in s ==> IsPlain(c)
    ensures AllLegal(s + t) <==> AllLegal(t)
  {
    if s == "" {
      assert s + t == t;
    } else {
      assert s[0] in s && (s + t)[1..] == s[1..] + t && LegalLength(s + t) == 1;
      PlainInFront(s[1..], t);
    }
  }

  /** What is kept of a name that stops at its room, or before. */
  lemma KeptOf(name: string)
    requires (0 as char) !in name
    ensures Truncate(UptoNul(name), NAME_ROOM) == if |name| <= NAME_ROOM then name else name[..NAME_ROOM]
  {
    UptoNulWhole(name);
  }

  lemma ReferenceSpoils(flags: Flags)
    requires Has(flags, SET_USER)
    ensures Spoiled(flags, Some("R&amp;D"))
  {
    hide Has, AllLegal, Truncate, UptoNul;
    KeptOf("R&amp;D");
    assert "R&amp;D"[1] == '&';
  }

  lemma ControlSpoils(flags: Flags)
    requires Has(flags, SET_USER)
    ensures Spoiled(flags, Some([1 as char]))
  {
    hide Has, Truncate, UptoNul;
    KeptOf([1 as char]);
  }

  /** A letter of two bytes, and what is left of it after the first. */
  lemma AccentLegal()
    ensures AllLegal([0xC3 as char, 0xA9 as char]) && !AllLegal([0xC3 as char])
  {
    var accent := [0xC3 as char, 0xA9 as char];
    assert LegalLength(accent) == 2 && accent[2..] == "";
  }

  lemma CutSpoils(flags: Flags, long: string)
    requires Has(flags, SET_USER)
    requires |long| == NAME_ROOM - 1 && forall c :: c in long ==> 'a' <= c <= 'z'
    ensures AllLegal(long + [0xC3 as char, 0xA9 as char])
    ensures Spoiled(flags, Some(long + [0xC3 as char, 0xA9 as char]))
  {
    hide Has, AllLegal, Truncate, UptoNul;
    var accent := [0xC3 as char, 0xA9 as char];
    AccentLegal();
    PlainInFront(long, accent);
    PlainInFront(long, [0xC3 as char]);
    KeptOf(long + accent);
    assert (long + accent)[..NAME_ROOM] == long + [0xC3 as char];
  }

  /** An ampersand, even as a reference; a control character; and a legal name cut through at byte 255. */
  lemma NamesThatSpoil(flags: Flags, long: string)
    requires Has(flags, SET_USER)
    requires |long| == NAME_ROOM - 1 && forall c :: c in long ==> 'a' <= c <= 'z'
    ensures Spoiled(flags, Some("R&amp;D")) && Spoiled(flags, Some([1 as char]))
    ensures var accented := long + [0xC3 as char, 0xA9 as char];
            AllLegal(accented) && '&' !in accented && Spoiled(flags, Some(accented))
  {
    hide Has, Spoiled, AllLegal;
    ReferenceSpoils(flags);
    ControlSpoils(flags);
    CutSpoils(flags, long);
  }
}
