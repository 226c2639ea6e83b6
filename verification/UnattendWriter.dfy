/** Writing the answer file: chunk after chunk into one buffer. */
module UnattendWriter {
  import opened CStrings
  import opened StringBuffers
  import opened Xml
  import opened Unattend

  /** The buffer holds the text of these tokens. */
  ghost predicate Holds(sb: StrBuf, ts: seq<Token>)
    reads sb, sb.buf
  {
    sb.Valid() && sb.Contents() == RenderAll(ts)
  }

  // ---------- how long a line gets ----------

  lemma WidthLine(indent: nat, ts: seq<Token>)
    ensures |RenderAll(Line(indent, ts))| == indent + |RenderAll(ts)| + 1
  {
    hide Render;
    RenderAppend([Text(Spaces(indent))] + ts, [Text("\n")]);
    RenderAppend([Text(Spaces(indent))], ts);
    RenderOne(Text(Spaces(indent)));
    RenderOne(Text("\n"));
    assert Render(Text(Spaces(indent))) == Spaces(indent) && Render(Text("\n")) == "\n" by {
      TextRenders(Spaces(indent));
      TextRenders("\n");
    }
  }

  lemma TextRenders(s: string)
    ensures Render(Text(s)) == s
  {
  }

  lemma RenderOne(t: Token)
    ensures RenderAll([t]) == Render(t)
  {
  }

  lemma WidthTag(t: Token)
    ensures t.Open? ==> |RenderAll([t])| == |t.name| + |t.attrs| + 2
    ensures t.Close? || t.Void? ==> |RenderAll([t])| <= |t.name| + 4
    ensures t.Text? ==> |RenderAll([t])| == |t.text|
  {
  }

  lemma WidthLeaf(name: string, body: seq<Token>)
    ensures |RenderAll(Leaf(name, body))| <= 2 * |name| + |RenderAll(body)| + 6
  {
    RenderAppend([Open(name, "")] + body, [Close(name)]);
    RenderAppend([Open(name, "")], body);
    WidthTag(Open(name, ""));
    WidthTag(Close(name));
  }

  // ---------- single chunks ----------

  /** One chunk; `done` is what has been written before. */
  method Emit(sb: StrBuf, ghost done: seq<Token>, ts: seq<Token>)
    requires Holds(sb, done) && |RenderAll(ts)| < CHUNK
    modifies sb, sb.buf
    ensures Holds(sb, done + ts)
    ensures sb.buf == old(sb.buf) || fresh(sb.buf)
  {
    RenderAppend(done, ts);
    sb.Append(RenderAll(ts));
  }

  method EmitOpen(sb: StrBuf, ghost done: seq<Token>, indent: nat, name: string, attrs: string)
    requires Holds(sb, done) && indent + |name| + |attrs| < 4000
    modifies sb, sb.buf
    ensures Holds(sb, done + Line(indent, [Open(name, attrs)]))
    ensures sb.buf == old(sb.buf) || fresh(sb.buf)
  {
    WidthLine(indent, [Open(name, attrs)]);
    WidthTag(Open(name, attrs));
    hide Holds, Line;
    Emit(sb, done, Line(indent, [Open(name, attrs)]));
  }

  method EmitClose(sb: StrBuf, ghost done: seq<Token>, indent: nat, name: string)
    requires Holds(sb, done) && indent + |name| < 4000
    modifies sb, sb.buf
    ensures Holds(sb, done + Line(indent, [Close(name)]))
    ensures sb.buf == old(sb.buf) || fresh(sb.buf)
  {
    WidthLine(indent, [Close(name)]);
    WidthTag(Close(name));
    hide Holds, Line;
    Emit(sb, done, Line(indent, [Close(name)]));
  }

  method EmitLeaf(sb: StrBuf, ghost done: seq<Token>, indent: nat, name: string, body: seq<Token>)
    requires Holds(sb, done) && indent + 2 * |name| + |RenderAll(body)| < 4000
    modifies sb, sb.buf
    ensures Holds(sb, done + Line(indent, Leaf(name, body)))
    ensures sb.buf == old(sb.buf) || fresh(sb.buf)
  {
    WidthLine(indent, Leaf(name, body));
    WidthLeaf(name, body);
    hide Holds, Line, Leaf;
    Emit(sb, done, Line(indent, Leaf(name, body)));
  }

  method EmitText(sb: StrBuf, ghost done: seq<Token>, indent: nat, name: string, text: string)
    requires Holds(sb, done) && indent + 2 * |name| + |text| < 4000
    modifies sb, sb.buf
    ensures Holds(sb, done + Line(indent, Leaf(name, [Text(text)])))
    ensures sb.buf == old(sb.buf) || fresh(sb.buf)
  {
    WidthTag(Text(text));
    hide Holds, Line, Leaf;
    EmitLeaf(sb, done, indent, name, [Text(text)]);
  }

  /** Opening, contents and closing one after the other make an element. */
  lemma ElementDone(done: seq<Token>, indent: nat, name: string, attrs: string, inner: seq<Token>)
    ensures done + Line(indent, [Open(name, attrs)]) + inner + Line(indent, [Close(name)])
            == done + Element(indent, name, attrs, inner)
  {
  }

  lemma Regroup(done: seq<Token>, a: seq<Token>, b: seq<Token>)
    ensures done + a + b == done + (a + b)
  {
  }

  lemma Regroup3(done: seq<Token>, a: seq<Token>, b: seq<Token>, c: seq<Token>)
    ensures done + a + b + c == done + (a + b + c)
  {
  }

  lemma NothingMore(done: seq<Token>)
    ensures done + [] == done
  {
  }

  // ---------- the windowsPE pass ----------

  lemma {:induction false} DigitsWidth(n: nat)
    requires n < 100
    ensures |PrintInt(n)| <= 2
  {
    if n >= 10 {
      assert Digits(n) == Digits(n / 10) + [Digit(n % 10)] && |Digits(n / 10)| == 1;
    }
  }

  predicate Fits(c: Command) {
    c.Bypass? ==> |c.key| < 100
  }

  lemma PathWidth(c: Command, w: Wording)
    requires w.Ok() && Fits(c)
    ensures |RenderAll(PathOf(c, w))| < 3000
  {
  }

  /** One command with the given order. */
  method EmitCommand(sb: StrBuf, ghost done: seq<Token>, c: Command, order: nat, w: Wording)
    requires Holds(sb, done) && w.Ok() && Fits(c) && order < 100
    modifies sb, sb.buf
    ensures Holds(sb, done + CommandTokens(c, order, w))
    ensures sb.buf == old(sb.buf) || fresh(sb.buf)
  {
    DigitsWidth(order);
    PathWidth(c, w);
    hide Holds, Line, Leaf, Element, PathOf, PrintInt;
    EmitOpen(sb, done, 8, "RunSynchronousCommand", w.add);
    ghost var start := done + Line(8, [Open("RunSynchronousCommand", w.add)]);
    EmitText(sb, start, 10, "Order", PrintInt(order));
    ghost var a := Line(10, Leaf("Order", [Text(PrintInt(order))]));
    if c.HideMedia? {
      EmitText(sb, start + a, 10, "Description", w.description);
    } else {
      NothingMore(start + a);
    }
    EmitLeaf(sb, start + a + Description(c, w), 10, "Path", PathOf(c, w));
    Regroup3(start, a, Description(c, w), Line(10, Leaf("Path", PathOf(c, w))));
    EmitClose(sb, start + CommandBody(c, order, w), 8, "RunSynchronousCommand");
    ElementDone(done, 8, "RunSynchronousCommand", w.add, CommandBody(c, order, w));
  }

  /** One more command at the end of the list. */
  lemma ListGrows(done: seq<Token>, cs: seq<Command>, c: Command, w: Wording)
    ensures done + CommandList(cs, 1, w) + CommandTokens(c, 1 + |cs|, w) == done + CommandList(cs + [c], 1, w)
  {
    hide CommandTokens;
    assert (cs + [c])[..|cs|] == cs;
    Regroup(done, CommandList(cs, 1, w), CommandTokens(c, 1 + |cs|, w));
  }

  lemma ListStarts(done: seq<Token>, w: Wording)
    ensures done + CommandList([], 1, w) == done
  {
  }

  lemma KeyFits(i: nat)
    requires i < |BYPASSES|
    ensures Fits(Bypass(BYPASSES[i].1))
  {
  }

  lemma NextRow(flags: Flags, cs: seq<Command>, i: nat)
    requires i < |BYPASSES|
    ensures cs + Requested(flags, i) ==
            (if Has(flags, BYPASSES[i].0) then cs + [Bypass(BYPASSES[i].1)] else cs) + Requested(flags, i + 1)
  {
  }

  lemma MaskOrNothing(flags: Flags)
    ensures !Has(flags, BYPASS_MASK) ==> Requested(flags, 0) == []
  {
  }

  /** The requested bypasses in table order, the order counted up for each that is written. */
  method EmitBypasses(sb: StrBuf, ghost done: seq<Token>, ghost before: seq<Command>, first: nat, flags: Flags, w: Wording)
    requires Holds(sb, done + CommandList(before, 1, w)) && w.Ok() && first == |before| + 1 <= 2
    modifies sb, sb.buf
    ensures Holds(sb, done + CommandList(before + Requested(flags, 0), 1, w))
    ensures sb.buf == old(sb.buf) || fresh(sb.buf)
  {
    hide Holds, CommandList, CommandTokens, Requested, Has, Wording.Ok, Fits;
    var order := first;
    ghost var cs := before;
    for i := 0 to |BYPASSES|
      invariant Holds(sb, done + CommandList(cs, 1, w)) && order == |cs| + 1 <= 2 + i
      invariant cs + Requested(flags, i) == before + Requested(flags, 0)
      invariant sb.buf == old(sb.buf) || fresh(sb.buf)
    {
      NextRow(flags, cs, i);
      if Has(flags, BYPASSES[i].0) {
        var c := Bypass(BYPASSES[i].1);
        KeyFits(i);
        EmitCommand(sb, done + CommandList(cs, 1, w), c, order, w);
        ListGrows(done, cs, c, w);
        cs := cs + [c];
        order := order + 1;
      }
    }
    NoMoreRows(flags, cs);
  }

  lemma NoMoreRows(flags: Flags, cs: seq<Command>)
    ensures cs + Requested(flags, |BYPASSES|) == cs
  {
  }

  lemma HideFits()
    ensures Fits(HideMedia)
  {
  }

  method EmitCommands(sb: StrBuf, ghost done: seq<Token>, flags: Flags, w: Wording)
    requires Holds(sb, done) && w.Ok()
    modifies sb, sb.buf
    ensures Holds(sb, done + CommandList(Commands(flags), 1, w))
    ensures sb.buf == old(sb.buf) || fresh(sb.buf)
  {
    hide Holds, CommandList, CommandTokens, Requested, Has, Wording.Ok, Fits;
    ListStarts(done, w);
    ghost var cs: seq<Command> := [];
    var order := 1;
    if Has(flags, HIDE_INSTALL_MEDIA) {
      HideFits();
      EmitCommand(sb, done, HideMedia, order, w);
      ListGrows(done, cs, HideMedia, w);
      cs := cs + [HideMedia];
      order := order + 1;
    }
    assert Commands(flags) == cs + Requested(flags, 0);
    if Has(flags, BYPASS_MASK) {
      EmitBypasses(sb, done, cs, order, flags, w);
    } else {
      MaskOrNothing(flags);
      assert cs + [] == cs;
    }
  }

  method EmitRunSynchronous(sb: StrBuf, ghost done: seq<Token>, flags: Flags, w: Wording)
    requires Holds(sb, done) && w.Ok()
    modifies sb, sb.buf
    ensures Holds(sb, done + RunSynchronous(flags, w))
    ensures sb.buf == old(sb.buf) || fresh(sb.buf)
  {
    hide Holds, CommandList, Commands, Line, Element, Has, Wording.Ok;
    if RunsCommands(flags) {
      EmitOpen(sb, done, 6, "RunSynchronous", "");
      ghost var d := done + Line(6, [Open("RunSynchronous", "")]);
      EmitCommands(sb, d, flags, w);
      EmitClose(sb, d + CommandList(Commands(flags), 1, w), 6, "RunSynchronous");
      ElementDone(done, 6, "RunSynchronous", "", CommandList(Commands(flags), 1, w));
    } else {
      NothingMore(done);
    }
  }

  method EmitUserData(sb: StrBuf, ghost done: seq<Token>)
    requires Holds(sb, done)
    modifies sb, sb.buf
    ensures Holds(sb, done + UserData())
    ensures sb.buf == old(sb.buf) || fresh(sb.buf)
  {
    WidthTag(Void("Key"));
    hide Holds, Line, Leaf, Element;
    EmitOpen(sb, done, 6, "UserData", "");
    ghost var d := done + Line(6, [Open("UserData", "")]);
    ghost var a, b := Line(8, Leaf("AcceptEula", [Text("true")])), Line(8, Leaf("ProductKey", [Void("Key")]));
    EmitText(sb, d, 8, "AcceptEula", "true");
    EmitLeaf(sb, d + a, 8, "ProductKey", [Void("Key")]);
    Regroup(d, a, b);
    EmitClose(sb, d + (a + b), 6, "UserData");
    ElementDone(done, 6, "UserData", "", a + b);
  }

  /** The opening lines of a pass and its component. */
  method EmitPassOpen(sb: StrBuf, ghost done: seq<Token>, pass: string, component: string)
    requires Holds(sb, done) && |pass| + |component| < 2000
    modifies sb, sb.buf
    ensures Holds(sb, done + Line(2, [Open("settings", pass)]) + Line(4, [Open("component", component)]))
    ensures sb.buf == old(sb.buf) || fresh(sb.buf)
  {
    hide Holds, Line;
    EmitOpen(sb, done, 2, "settings", pass);
    EmitOpen(sb, done + Line(2, [Open("settings", pass)]), 4, "component", component);
  }

  /** Its closing lines, after which the whole pass has been written. */
  method EmitPassClose(sb: StrBuf, ghost done: seq<Token>, ghost pass: string, ghost component: string,
                       ghost inner: seq<Token>)
    requires Holds(sb, done + Line(2, [Open("settings", pass)]) + Line(4, [Open("component", component)]) + inner)
    modifies sb, sb.buf
    ensures Holds(sb, done + Pass(pass, component, inner))
    ensures sb.buf == old(sb.buf) || fresh(sb.buf)
  {
    hide Holds, Line, Element;
    ghost var d := done + Line(2, [Open("settings", pass)]);
    EmitClose(sb, d + Line(4, [Open("component", component)]) + inner, 4, "component");
    ElementDone(d, 4, "component", component, inner);
    EmitClose(sb, d + Element(4, "component", component, inner), 2, "settings");
    ElementDone(done, 2, "settings", pass, Element(4, "component", component, inner));
  }

  lemma ComponentWidth(a: Attrs, arch: int)
    requires a.Ok()
    ensures |a.For(ArchName(arch))| < 1100
  {
  }

  lemma PassWidths()
    ensures |WINPE| < 100 && |OFFLINE| < 100 && |OOBE| < 100
  {
  }

  method EmitWinPe(sb: StrBuf, ghost done: seq<Token>, flags: Flags, arch: int, w: Wording)
    requires Holds(sb, done) && w.Ok()
    modifies sb, sb.buf
    ensures Holds(sb, done + WinPe(flags, ArchName(arch), w))
    ensures sb.buf == old(sb.buf) || fresh(sb.buf)
  {
    ComponentWidth(w.setup, arch);
    PassWidths();
    hide Holds, Line, UserData, RunSynchronous, Pass, Has, Wording.Ok, ArchName, Attrs.For;
    if NeedsWinPe(flags) {
      var component := w.setup.For(ArchName(arch));
      EmitPassOpen(sb, done, WINPE, component);
      ghost var d := done + Line(2, [Open("settings", WINPE)]) + Line(4, [Open("component", component)]);
      EmitUserData(sb, d);
      EmitRunSynchronous(sb, d + UserData(), flags, w);
      Regroup(d, UserData(), RunSynchronous(flags, w));
      EmitPassClose(sb, done, WINPE, component, UserData() + RunSynchronous(flags, w));
    } else {
      NothingMore(done);
    }
  }

  // ---------- the other passes ----------

  method EmitOffline(sb: StrBuf, ghost done: seq<Token>, flags: Flags, arch: int, w: Wording)
    requires Holds(sb, done) && w.Ok()
    modifies sb, sb.buf
    ensures Holds(sb, done + Offline(flags, ArchName(arch), w))
    ensures sb.buf == old(sb.buf) || fresh(sb.buf)
  {
    ComponentWidth(w.manager, arch);
    PassWidths();
    hide Holds, Line, Leaf, Pass, Has, Wording.Ok, ArchName, Attrs.For;
    if Has(flags, OFFLINE_DRIVES) {
      var component := w.manager.For(ArchName(arch));
      EmitPassOpen(sb, done, OFFLINE, component);
      ghost var d := done + Line(2, [Open("settings", OFFLINE)]) + Line(4, [Open("component", component)]);
      EmitText(sb, d, 6, "SanPolicy", "4");
      EmitPassClose(sb, done, OFFLINE, component, Line(6, Leaf("SanPolicy", [Text("4")])));
    } else {
      NothingMore(done);
    }
  }

  method EmitScreens(sb: StrBuf, ghost done: seq<Token>, flags: Flags)
    requires Holds(sb, done)
    modifies sb, sb.buf
    ensures Holds(sb, done + Screens(flags))
    ensures sb.buf == old(sb.buf) || fresh(sb.buf)
  {
    hide Holds, Line, Leaf, Element, Has;
    EmitOpen(sb, done, 6, "OOBE", "");
    ghost var d := done + Line(6, [Open("OOBE", "")]);
    ghost var x: seq<Token>, y: seq<Token> := [], [];
    if Has(flags, NO_ONLINE_ACCOUNT) {
      ghost var a := Line(8, Leaf("HideOnlineAccountScreens", [Text("true")]));
      ghost var b := Line(8, Leaf("SkipMachineOOBE", [Text("true")]));
      ghost var c := Line(8, Leaf("SkipUserOOBE", [Text("true")]));
      EmitText(sb, d, 8, "HideOnlineAccountScreens", "true");
      EmitText(sb, d + a, 8, "SkipMachineOOBE", "true");
      EmitText(sb, d + a + b, 8, "SkipUserOOBE", "true");
      Regroup3(d, a, b, c);
      x := a + b + c;
    } else {
      NothingMore(d);
    }
    if Has(flags, NO_DATA_COLLECTION) {
      EmitText(sb, d + x, 8, "ProtectYourPC", "3");
      y := Line(8, Leaf("ProtectYourPC", [Text("3")]));
    } else {
      NothingMore(d + x);
    }
    Regroup(d, x, y);
    EmitClose(sb, d + (x + y), 6, "OOBE");
    ElementDone(done, 6, "OOBE", "", x + y);
  }

  /** The characters before the end of a string, and the NUL that ends it. */
  lemma NulEnds(s: string)
    requires '\0' in s
    ensures var k := |UptoNul(s)|;
            k < |s| && s[k] == '\0' && s[..k] == UptoNul(s) && forall i :: 0 <= i < k ==> s[i] != '\0'
  {
  }

  /** Replacing never ends a string early. */
  lemma SanitizedNoNul(s: string)
    requires '\0' !in s
    ensures '\0' !in Sanitized(s)
  {
  }

  /** Replaces the forbidden characters of a NUL-terminated name in place. */
  method SanitizeInPlace(name: array<char>)
    requires name.Length > 0 && name[name.Length - 1] == '\0'
    modifies name
    ensures UptoNul(name[..]) == Sanitized(UptoNul(old(name[..])))
  {
    hide IsForbidden, UptoNul;
    ghost var was := name[..];
    assert was[name.Length - 1] == '\0';
    NulEnds(was);
    ghost var k, s := |UptoNul(was)|, UptoNul(was);
    var p := 0;
    while name[p] != '\0'
      invariant 0 <= p <= k < name.Length && name[k] == '\0'
      invariant forall i :: 0 <= i < p ==> name[i] == Sanitized(s)[i]
      invariant forall i :: p <= i < k ==> name[i] == s[i] && name[i] != '\0'
      decreases k - p
    {
      if IsForbidden(name[p]) {
        name[p] := '_';
      }
      p := p + 1;
    }
    assert name[..][..k] == Sanitized(s);
    SanitizedNoNul(s);
    UptoNulIs(name[..], k);
  }

  /** The name that is written, from a copy of the given one in a buffer of 256 characters. */
  method SafeCopy(user: string) returns (name: string)
    ensures name == SafeName(user)
  {
    var cut := Truncate(UptoNul(user), NAME_ROOM);
    hide UptoNul, Sanitized;
    var buf := new char[NAME_ROOM + 1](i => if 0 <= i < |cut| then cut[i] else '\0');
    assert buf[..][..|cut|] == cut;
    UptoNulIs(buf[..], |cut|);
    SanitizeInPlace(buf);
    name := UptoNul(buf[..]);
  }

  method EmitAccount(sb: StrBuf, ghost done: seq<Token>, name: string)
    requires Holds(sb, done) && |name| <= NAME_ROOM
    modifies sb, sb.buf
    ensures Holds(sb, done + (Line(12, Leaf("Name", [Text(name)])) + AccountRest(name)))
    ensures sb.buf == old(sb.buf) || fresh(sb.buf)
  {
    PasswordWidth();
    hide Holds, Line, Leaf, Password;
    ghost var a, b := Line(12, Leaf("Name", [Text(name)])), Line(12, Leaf("DisplayName", [Text(name)]));
    ghost var c := Line(12, Leaf("Group", [Text("Administrators")]));
    EmitText(sb, done, 12, "Name", name);
    EmitText(sb, done + a, 12, "DisplayName", name);
    EmitText(sb, done + a + b, 12, "Group", "Administrators");
    EmitPassword(sb, done + a + b + c);
    Regroup3(done + a, b, c, Password());
    Regroup(done, a, b + c + Password());
  }

  lemma PasswordWidth()
    ensures |RenderAll(Leaf("Value", [Text("")]) + Leaf("PlainText", [Text("true")]))| < 100
  {
    WidthTag(Text(""));
    WidthTag(Text("true"));
    WidthLeaf("Value", [Text("")]);
    WidthLeaf("PlainText", [Text("true")]);
    RenderAppend(Leaf("Value", [Text("")]), Leaf("PlainText", [Text("true")]));
  }

  method EmitPassword(sb: StrBuf, ghost done: seq<Token>)
    requires Holds(sb, done)
    modifies sb, sb.buf
    ensures Holds(sb, done + Password())
    ensures sb.buf == old(sb.buf) || fresh(sb.buf)
  {
    PasswordWidth();
    hide Holds, Line, Leaf;
    EmitLeaf(sb, done, 12, "Password", Leaf("Value", [Text("")]) + Leaf("PlainText", [Text("true")]));
  }

  method EmitUserAccounts(sb: StrBuf, ghost done: seq<Token>, flags: Flags, user: Option<string>, w: Wording)
    requires Holds(sb, done) && w.Ok()
    modifies sb, sb.buf
    ensures Holds(sb, done + UserAccounts(flags, user, w))
    ensures sb.buf == old(sb.buf) || fresh(sb.buf)
  {
    if SetsUser(flags, user) {
      var name := SafeCopy(user.value);
      assert |name| <= NAME_ROOM;
      EmitAccounts(sb, done, name, w);
    } else {
      NothingMore(done);
    }
  }

  method EmitAccounts(sb: StrBuf, ghost done: seq<Token>, name: string, w: Wording)
    requires Holds(sb, done) && w.Ok() && |name| <= NAME_ROOM
    modifies sb, sb.buf
    ensures Holds(sb, done + Accounts(name, w))
    ensures sb.buf == old(sb.buf) || fresh(sb.buf)
  {
    hide Holds, Line, Leaf, Element, AccountRest;
    ghost var inner := Line(12, Leaf("Name", [Text(name)])) + AccountRest(name);
    ghost var d := done + Line(6, [Open("UserAccounts", "")]);
    ghost var e := d + Line(8, [Open("LocalAccounts", "")]);
    EmitOpen(sb, done, 6, "UserAccounts", "");
    EmitOpen(sb, d, 8, "LocalAccounts", "");
    EmitOpen(sb, e, 10, "LocalAccount", w.addHere);
    EmitAccount(sb, e + Line(10, [Open("LocalAccount", w.addHere)]), name);
    EmitClose(sb, e + Line(10, [Open("LocalAccount", w.addHere)]) + inner, 10, "LocalAccount");
    ElementDone(e, 10, "LocalAccount", w.addHere, inner);
    inner := Element(10, "LocalAccount", w.addHere, inner);
    EmitClose(sb, e + inner, 8, "LocalAccounts");
    ElementDone(d, 8, "LocalAccounts", "", inner);
    inner := Element(8, "LocalAccounts", "", inner);
    EmitClose(sb, d + inner, 6, "UserAccounts");
    ElementDone(done, 6, "UserAccounts", "", inner);
  }

  method EmitLogon(sb: StrBuf, ghost done: seq<Token>, flags: Flags, w: Wording)
    requires Holds(sb, done) && w.Ok()
    modifies sb, sb.buf
    ensures Holds(sb, done + Logon(flags, w))
    ensures sb.buf == old(sb.buf) || fresh(sb.buf)
  {
    hide Holds, Line, Leaf, Element, Has;
    if Has(flags, QOL_ENHANCEMENTS) {
      ghost var d := done + Line(6, [Open("FirstLogonCommands", "")]);
      ghost var e := d + Line(8, [Open("SynchronousCommand", w.addHere)]);
      ghost var a, b := Line(10, Leaf("Order", [Text("1")])), Line(10, Leaf("CommandLine", [Text(w.logon)]));
      EmitOpen(sb, done, 6, "FirstLogonCommands", "");
      EmitOpen(sb, d, 8, "SynchronousCommand", w.addHere);
      EmitText(sb, e, 10, "Order", "1");
      EmitText(sb, e + a, 10, "CommandLine", w.logon);
      Regroup(e, a, b);
      EmitClose(sb, e + (a + b), 8, "SynchronousCommand");
      ElementDone(d, 8, "SynchronousCommand", w.addHere, a + b);
      EmitClose(sb, d + Element(8, "SynchronousCommand", w.addHere, a + b), 6, "FirstLogonCommands");
      ElementDone(done, 6, "FirstLogonCommands", "", Element(8, "SynchronousCommand", w.addHere, a + b));
    } else {
      NothingMore(done);
    }
  }

  method EmitOobe(sb: StrBuf, ghost done: seq<Token>, flags: Flags, user: Option<string>, arch: int, w: Wording)
    requires Holds(sb, done) && w.Ok()
    modifies sb, sb.buf
    ensures Holds(sb, done + Oobe(flags, user, ArchName(arch), w))
    ensures sb.buf == old(sb.buf) || fresh(sb.buf)
  {
    ComponentWidth(w.shell, arch);
    PassWidths();
    hide Holds, Line, Pass, Screens, UserAccounts, Logon, Wording.Ok, ArchName, Attrs.For, NeedsOobe;
    if NeedsOobe(flags) {
      var component := w.shell.For(ArchName(arch));
      ghost var d := done + Line(2, [Open("settings", OOBE)]) + Line(4, [Open("component", component)]);
      EmitPassOpen(sb, done, OOBE, component);
      EmitScreens(sb, d, flags);
      EmitUserAccounts(sb, d + Screens(flags), flags, user, w);
      EmitLogon(sb, d + Screens(flags) + UserAccounts(flags, user, w), flags, w);
      Regroup3(d, Screens(flags), UserAccounts(flags, user, w), Logon(flags, w));
      EmitPassClose(sb, done, OOBE, component, Screens(flags) + UserAccounts(flags, user, w) + Logon(flags, w));
    } else {
      NothingMore(done);
    }
  }

  // ---------- the whole file ----------

  lemma PrologWidth()
    ensures |RenderAll([Declaration, Text("\n")])| < 100
  {
  }

  lemma Started(sb: StrBuf)
    requires sb.Valid() && sb.Contents() == ""
    ensures Holds(sb, [])
  {
  }

  lemma Result(sb: StrBuf, ts: seq<Token>)
    requires Holds(sb, ts)
    ensures sb.Valid() && sb.Contents() == RenderAll(ts)
  {
  }

  /** wue_generate_xml: nothing without flags, else the text of the whole document. */
  method GenerateXml(flags: Flags, user: Option<string>, arch: int, w: Wording) returns (xml: Option<string>)
    requires w.Ok()
    ensures xml == if flags == 0 then None else Some(RenderAll(Document(flags, user, arch, w)))
  {
    hide Holds, Line, WinPe, Offline, Oobe, RenderAll;
    if flags == 0 {
      return None;
    }
    PrologWidth();
    var sb := new StrBuf();
    Started(sb);
    ghost var prolog, open := [Declaration, Text("\n")], Line(0, [Open("unattend", w.schema)]);
    Emit(sb, [], [Declaration, Text("\n")]);
    assert [] + prolog == prolog;
    EmitOpen(sb, prolog, 0, "unattend", w.schema);
    ghost var d := prolog + open;
    ghost var x, y := WinPe(flags, ArchName(arch), w), Offline(flags, ArchName(arch), w);
    ghost var z := Oobe(flags, user, ArchName(arch), w);
    EmitWinPe(sb, d, flags, arch, w);
    EmitOffline(sb, d + x, flags, arch, w);
    EmitOobe(sb, d + x + y, flags, user, arch, w);
    Regroup3(d, x, y, z);
    EmitClose(sb, d + (x + y + z), 0, "unattend");
    Result(sb, Document(flags, user, arch, w));
    xml := Some(sb.buf[..sb.len]);
  }
}
