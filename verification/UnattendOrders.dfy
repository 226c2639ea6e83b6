/** Which commands Windows Setup is told to run, and in which order. */
module UnattendOrders {
  import opened CStrings
  import opened Xml
  import opened Unattend

  /** What follows directly on each `<name>`: the first token inside every such element. */
  function After(ts: seq<Token>, name: string): seq<Token> {
    if |ts| < 2 then []
    else (if ts[0] == Open(name, "") then [ts[1]] else []) + After(ts[1..], name)
  }

  /** A list whose end does not open an element. */
  predicate Settled(ts: seq<Token>) {
    ts == [] || !ts[|ts| - 1].Open?
  }

  lemma {:induction false} AfterAppend(a: seq<Token>, b: seq<Token>, name: string)
    requires Settled(a)
    ensures After(a + b, name) == After(a, name) + After(b, name)
  {
    if a == [] {
      assert a + b == b;
    } else if |a| == 1 {
      assert a + b == [a[0]] + b && (a + b)[1..] == b;
    } else {
      assert (a + b)[1..] == a[1..] + b;
      AfterAppend(a[1..], b, name);
    }
  }

  lemma AfterBoth(a: seq<Token>, b: seq<Token>, name: string)
    requires Settled(a) && Settled(b)
    ensures After(a + b, name) == After(a, name) + After(b, name) && Settled(a + b)
  {
    AfterAppend(a, b, name);
    if b == [] {
      assert a + b == a;
    }
  }

  lemma AfterThree(a: seq<Token>, b: seq<Token>, c: seq<Token>, name: string)
    requires Settled(a) && Settled(b) && Settled(c)
    ensures After(a + b + c, name) == After(a, name) + After(b, name) + After(c, name) && Settled(a + b + c)
  {
    hide After, Settled;
    AfterBoth(a, b, name);
    AfterBoth(a + b, c, name);
  }

  lemma {:induction false} AfterPlain(ts: seq<Token>, name: string)
    requires forall t :: t in ts ==> !t.Open?
    ensures After(ts, name) == []
  {
    if |ts| >= 2 {
      AfterPlain(ts[1..], name);
    }
  }

  /** A line with one leaf element that holds nothing but text. */
  lemma AfterLeaf(indent: nat, leaf: string, body: seq<Token>, name: string)
    requires body != [] && forall t :: t in body ==> !t.Open?
    ensures After(Line(indent, Leaf(leaf, body)), name) == if leaf == name then [body[0]] else []
    ensures Settled(Line(indent, Leaf(leaf, body)))
  {
    var rest := body + [Close(leaf)] + [Text("\n")];
    assert Line(indent, Leaf(leaf, body)) == [Text(Spaces(indent))] + ([Open(leaf, "")] + rest);
    AfterAppend([Text(Spaces(indent))], [Open(leaf, "")] + rest, name);
    assert ([Open(leaf, "")] + rest)[1..] == rest && rest[0] == body[0];
    AfterPlain(rest, name);
  }

  lemma AfterTagLine(indent: nat, t: Token, name: string)
    requires t.Open? ==> t.name != name
    ensures After(Line(indent, [t]), name) == [] && Settled(Line(indent, [t]))
  {
    var ts := Line(indent, [t]);
    assert ts == [Text(Spaces(indent)), t, Text("\n")];
    assert ts[1..] == [t, Text("\n")] && ts[1..][1..] == [Text("\n")];
    assert After(ts[1..], name) == [] + After(ts[1..][1..], name) == [];
  }

  /** An element of another name adds nothing of its own. */
  lemma AfterElement(indent: nat, tag: string, attrs: string, inner: seq<Token>, name: string)
    requires tag != name && Settled(inner)
    ensures After(Element(indent, tag, attrs, inner), name) == After(inner, name)
    ensures Settled(Element(indent, tag, attrs, inner))
  {
    hide Line, After;
    var open, close := Line(indent, [Open(tag, attrs)]), Line(indent, [Close(tag)]);
    AfterTagLine(indent, Open(tag, attrs), name);
    AfterTagLine(indent, Close(tag), name);
    AfterAppend(open, inner, name);
    AfterAppend(open + inner, close, name);
  }

  // ---------- one command ----------

  predicate Shown(name: string) {
    name == "Order" || name == "Path"
  }

  /** What a command shows under the two names. */
  function Shows(c: Command, order: nat, w: Wording, name: string): Token
    requires w.script != []
  {
    if name == "Order" then Text(PrintInt(order)) else PathOf(c, w)[0]
  }

  lemma OtherNames(name: string)
    requires Shown(name)
    ensures name != "RunSynchronousCommand" && name != "Description" && name != "settings" && name != "component"
    ensures name != "UserData" && name != "AcceptEula" && name != "ProductKey" && name != "RunSynchronous"
    ensures "Order" != "Path"
  {
  }

  lemma PathPlain(c: Command, w: Wording)
    requires w.Ok()
    ensures PathOf(c, w) != [] && forall t :: t in PathOf(c, w) ==> !t.Open?
  {
  }

  lemma OrderShows(order: nat, name: string)
    requires Shown(name)
    ensures var a := Line(10, Leaf("Order", [Text(PrintInt(order))]));
            After(a, name) == (if name == "Order" then [Text(PrintInt(order))] else []) && Settled(a)
  {
    hide After, Settled, Line, Leaf, PrintInt;
    AfterLeaf(10, "Order", [Text(PrintInt(order))], name);
  }

  lemma PathShows(c: Command, w: Wording, name: string)
    requires w.Ok() && Shown(name)
    ensures PathOf(c, w) != []
    ensures var b := Line(10, Leaf("Path", PathOf(c, w)));
            After(b, name) == (if name == "Order" then [] else [PathOf(c, w)[0]]) && Settled(b)
  {
    PathPlain(c, w);
    OtherNames(name);
    hide After, Settled, Line, Leaf, PathOf, Wording.Ok;
    AfterLeaf(10, "Path", PathOf(c, w), name);
  }

  /** What the two leaves of a command show under each of the names. */
  lemma LeavesShow(c: Command, order: nat, w: Wording, name: string)
    requires w.Ok() && w.script != [] && Shown(name)
    ensures var a := Line(10, Leaf("Order", [Text(PrintInt(order))])); var b := Line(10, Leaf("Path", PathOf(c, w)));
            After(a, name) + After(b, name) == [Shows(c, order, w, name)] && Settled(a) && Settled(b)
  {
    hide After, Settled, Line, Leaf, PathOf, PrintInt, Wording.Ok, Shown;
    OrderShows(order, name);
    PathShows(c, w, name);
  }

  lemma CommandBodyShows(c: Command, order: nat, w: Wording, name: string)
    requires w.Ok() && w.script != [] && Shown(name)
    ensures After(CommandBody(c, order, w), name) == [Shows(c, order, w, name)] && Settled(CommandBody(c, order, w))
  {
    hide After, Settled, Line, Leaf, PathOf, PrintInt, Wording.Ok, Description, Shows, Shown;
    LeavesShow(c, order, w, name);
    DescriptionShows(c, w, name);
    AfterThree(Line(10, Leaf("Order", [Text(PrintInt(order))])), Description(c, w), Line(10, Leaf("Path", PathOf(c, w))),
               name);
  }

  lemma DescriptionShows(c: Command, w: Wording, name: string)
    requires Shown(name)
    ensures After(Description(c, w), name) == [] && Settled(Description(c, w))
  {
    OtherNames(name);
    AfterPlain([], name);
    hide After, Line, Leaf;
    AfterLeaf(10, "Description", [Text(w.description)], name);
  }

  lemma CommandShows(c: Command, order: nat, w: Wording, name: string)
    requires w.Ok() && w.script != [] && Shown(name)
    ensures After(CommandTokens(c, order, w), name) == [Shows(c, order, w, name)]
    ensures Settled(CommandTokens(c, order, w))
  {
    hide After, Settled, Element, CommandBody, Shows;
    OtherNames(name);
    CommandBodyShows(c, order, w, name);
    AfterElement(8, "RunSynchronousCommand", w.add, CommandBody(c, order, w), name);
  }

  /** What a list of commands shows, the orders counting up. */
  function ShowsAll(cs: seq<Command>, order: nat, w: Wording, name: string): (ts: seq<Token>)
    requires w.script != []
    ensures |ts| == |cs|
  {
    seq(|cs|, i requires 0 <= i < |cs| => Shows(cs[i], order + i, w, name))
  }

  lemma ShowsOneMore(most: seq<Command>, c: Command, order: nat, w: Wording, name: string)
    requires w.script != []
    ensures ShowsAll(most + [c], order, w, name) ==
            ShowsAll(most, order, w, name) + [Shows(c, order + |most|, w, name)]
  {
  }

  lemma NothingShows(order: nat, w: Wording, name: string)
    requires w.script != []
    ensures After(CommandList([], order, w), name) == ShowsAll([], order, w, name)
    ensures Settled(CommandList([], order, w))
  {
  }

  lemma OneMoreCommand(most: seq<Command>, c: Command, order: nat, w: Wording)
    ensures CommandList(most + [c], order, w) == CommandList(most, order, w) + CommandTokens(c, order + |most|, w)
  {
    hide CommandTokens;
    assert (most + [c])[..|most|] == most;
  }

  /** One more command at the end of a list shows once more. */
  lemma OneMoreShows(most: seq<Command>, c: Command, order: nat, w: Wording, name: string)
    requires w.Ok() && w.script != [] && Shown(name)
    requires After(CommandList(most, order, w), name) == ShowsAll(most, order, w, name)
    requires Settled(CommandList(most, order, w))
    ensures After(CommandList(most + [c], order, w), name) == ShowsAll(most + [c], order, w, name)
    ensures Settled(CommandList(most + [c], order, w))
  {
    hide CommandList, CommandTokens, Shows, ShowsAll, After, Settled, Wording.Ok, Shown;
    CommandShows(c, order + |most|, w, name);
    AfterBoth(CommandList(most, order, w), CommandTokens(c, order + |most|, w), name);
    ShowsOneMore(most, c, order, w, name);
    OneMoreCommand(most, c, order, w);
  }

  lemma {:induction false} CommandListShows(cs: seq<Command>, order: nat, w: Wording, name: string)
    requires w.Ok() && w.script != [] && Shown(name)
    ensures After(CommandList(cs, order, w), name) == ShowsAll(cs, order, w, name)
    ensures Settled(CommandList(cs, order, w))
  {
    hide CommandList, ShowsAll, After, Settled, Wording.Ok, Shown;
    if cs == [] {
      NothingShows(order, w, name);
    } else {
      var most, c := cs[..|cs| - 1], cs[|cs| - 1];
      CommandListShows(most, order, w, name);
      OneMoreShows(most, c, order, w, name);
      assert cs == most + [c];
    }
  }

  // ---------- the pass ----------

  lemma NoPassNoCommands(flags: Flags)
    ensures RunsCommands(flags) ==> NeedsWinPe(flags)
    ensures !RunsCommands(flags) ==> !Has(flags, HIDE_INSTALL_MEDIA) && !Has(flags, BYPASS_MASK)
    ensures !Has(flags, BYPASS_MASK) ==>
              && !Has(flags, BYPASS_TPM) && !Has(flags, BYPASS_SECUREBOOT) && !Has(flags, BYPASS_RAM)
              && !Has(flags, BYPASS_CPU) && !Has(flags, BYPASS_STORAGE)
  {
  }

  lemma {:induction false} NoneRequested(flags: Flags, i: nat)
    requires i <= |BYPASSES| && !Has(flags, BYPASS_MASK)
    ensures Requested(flags, i) == []
    decreases |BYPASSES| - i
  {
    NoPassNoCommands(flags);
    hide Has;
    if i < |BYPASSES| {
      NoneRequested(flags, i + 1);
    }
  }

  lemma UserDataShows(name: string)
    requires Shown(name)
    ensures After(UserData(), name) == [] && Settled(UserData())
  {
    OtherNames(name);
    hide After, Settled, Line, Leaf, Element, Shown;
    AfterLeaf(8, "AcceptEula", [Text("true")], name);
    AfterLeaf(8, "ProductKey", [Void("Key")], name);
    var a, b := Line(8, Leaf("AcceptEula", [Text("true")])), Line(8, Leaf("ProductKey", [Void("Key")]));
    AfterBoth(a, b, name);
    AfterElement(6, "UserData", "", a + b, name);
  }

  lemma RunSynchronousShows(flags: Flags, w: Wording, name: string)
    requires w.Ok() && Shown(name)
    ensures After(RunSynchronous(flags, w), name) == ShowsAll(Commands(flags), 1, w, name)
    ensures Settled(RunSynchronous(flags, w))
  {
    OtherNames(name);
    NoPassNoCommands(flags);
    hide Element, ShowsAll, CommandList, Has, Wording.Ok;
    if RunsCommands(flags) {
      CommandListShows(Commands(flags), 1, w, name);
      AfterElement(6, "RunSynchronous", "", CommandList(Commands(flags), 1, w), name);
    } else {
      NoneRequested(flags, 0);
    }
  }

  /**
    In the windowsPE pass the orders are exactly 1 to k, in this order, and the commands beside them
    are exactly the wanted ones, for any flags. `name` is "Order" or "Path".
   */
  lemma OrdersCountUp(flags: Flags, arch: string, w: Wording, name: string)
    requires w.Ok() && Shown(name)
    ensures After(WinPe(flags, arch, w), name) == ShowsAll(Commands(flags), 1, w, name)
  {
    OtherNames(name);
    NoPassNoCommands(flags);
    UserDataShows(name);
    RunSynchronousShows(flags, w, name);
    hide After, Settled, Element, ShowsAll, Commands, UserData, Has, Wording.Ok;
    AfterPlain([], name);
    var inner := UserData() + RunSynchronous(flags, w);
    AfterBoth(UserData(), RunSynchronous(flags, w), name);
    AfterElement(4, "component", w.setup.For(arch), inner, name);
    AfterElement(2, "settings", WINPE, Element(4, "component", w.setup.For(arch), inner), name);
  }

  // ---------- which commands ----------

  /** Where a command stands in the table; hiding the media comes before all of it. */
  function Rank(c: Command): int {
    match c
    case HideMedia => -1
    case Bypass(key) =>
      if key == "BypassTPMCheck" then 0
      else if key == "BypassSecureBootCheck" then 1
      else if key == "BypassRAMCheck" then 2
      else if key == "BypassCPUCheck" then 3
      else 4
  }

  predicate IsRow(i: int) {
    0 <= i < |BYPASSES|
  }

  lemma KeysDiffer(i: nat)
    requires IsRow(i)
    ensures Rank(Bypass(BYPASSES[i].1)) == i
  {
  }

  predicate Ascending(cs: seq<Command>) {
    forall a, b :: 0 <= a < b < |cs| ==> Rank(cs[a]) < Rank(cs[b])
  }

  function RowCommand(k: nat): Command
    requires IsRow(k)
  {
    Bypass(BYPASSES[k].1)
  }

  /** The command is in row `i` of the table or further down, and that row is asked for. */
  ghost predicate WantedFrom(flags: Flags, c: Command, i: nat) {
    exists k :: i <= k && IsRow(k) && c == RowCommand(k) && Has(flags, BYPASSES[k].0)
  }

  ghost predicate Wanted(flags: Flags, c: Command) {
    if c.HideMedia? then Has(flags, HIDE_INSTALL_MEDIA) else WantedFrom(flags, c, 0)
  }

  lemma WantedNext(flags: Flags, c: Command, i: nat)
    requires IsRow(i)
    ensures WantedFrom(flags, c, i) <==>
            (c == RowCommand(i) && Has(flags, BYPASSES[i].0)) || WantedFrom(flags, c, i + 1)
  {
  }

  lemma FirstIn(c: Command, head: seq<Command>, rest: seq<Command>)
    ensures c in head + rest <==> c in head || c in rest
  {
  }

  lemma {:induction false} RequestedWanted(flags: Flags, c: Command, i: nat)
    requires i <= |BYPASSES|
    ensures c in Requested(flags, i) <==> WantedFrom(flags, c, i)
    decreases |BYPASSES| - i
  {
    if i < |BYPASSES| {
      WantedNext(flags, c, i);
      RequestedWanted(flags, c, i + 1);
      hide WantedFrom, Has;
      FirstIn(c, if Has(flags, BYPASSES[i].0) then [RowCommand(i)] else [], Requested(flags, i + 1));
    }
  }

  lemma {:induction false} RequestedAscends(flags: Flags, i: nat)
    requires i <= |BYPASSES|
    ensures Ascending(Requested(flags, i)) && forall c :: c in Requested(flags, i) ==> Rank(c) >= i
    decreases |BYPASSES| - i
  {
    if i < |BYPASSES| {
      KeysDiffer(i);
      RequestedAscends(flags, i + 1);
      hide Has, Rank;
    }
  }

  /** Hiding comes first if it is wanted; then the requested rows of the table, each once, in its order. */
  lemma CommandsExactly(flags: Flags)
    ensures forall c :: c in Commands(flags) <==> Wanted(flags, c)
    ensures Ascending(Commands(flags))
  {
    forall c
      ensures c in Commands(flags) <==> Wanted(flags, c)
    {
      CommandWanted(flags, c);
    }
    hide Has, Requested, Wanted;
    RequestedAscends(flags, 0);
    HideAscends(Requested(flags, 0));
    assert Commands(flags) == [HideMedia] + Requested(flags, 0) || Commands(flags) == Requested(flags, 0);
  }

  lemma HideAscends(cs: seq<Command>)
    requires Ascending(cs) && forall c :: c in cs ==> Rank(c) >= 0
    ensures Ascending([HideMedia] + cs)
  {
    assert Rank(HideMedia) == -1;
    hide Rank;
  }

  lemma CommandWanted(flags: Flags, c: Command)
    ensures c in Commands(flags) <==> Wanted(flags, c)
  {
    RequestedWanted(flags, c, 0);
    var head := if Has(flags, HIDE_INSTALL_MEDIA) then [HideMedia] else [];
    FirstIn(c, head, Requested(flags, 0));
    if c.HideMedia? {
      assert !WantedFrom(flags, c, 0);
    }
  }
}
