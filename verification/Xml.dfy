/** Markup as the generator writes it: tokens, their text, and when such a text is well formed. */
module Xml {
  import opened CStrings

  datatype Token =
    | Declaration
    | Open(name: string, attrs: string)
    | Close(name: string)
    | Void(name: string)
    | Text(text: string)
    | Ref(entity: string)

  // ---------- well-formed texts, character by character ----------

  /** The elements that are open, outermost first, and how many outermost ones there have been. */
  datatype Nesting = Nesting(stack: seq<string>, roots: nat)

  /** A name ends at white space. */
  function NameOf(tag: string): string {
    if tag == "" || IsSpace(tag[0]) then "" else [tag[0]] + NameOf(tag[1..])
  }

  function Enter(name: string, n: Nesting): Nesting {
    Nesting(n.stack + [name], if n.stack == [] then n.roots + 1 else n.roots)
  }

  function Leave(name: string, n: Nesting): Option<Nesting> {
    if n.stack == [] || n.stack[|n.stack| - 1] != name then None
    else Some(n.(stack := n.stack[..|n.stack| - 1]))
  }

  /** A byte that goes on with a character, within these bounds. */
  predicate Follows(s: string, i: nat, low: int, high: int) {
    i < |s| && low <= s[i] as int <= high
  }

  predicate GoesOn(s: string, i: nat) {
    Follows(s, i, 0x80, 0xBF)
  }

  /**
    How many bytes the character takes a text starts with, in UTF-8; 0 when there is none or XML
    does not allow it: other controls than tab and line ends, surrogates, U+FFFE and U+FFFF.
   */
  function LegalLength(s: string): (k: nat)
    requires s != ""
    ensures k <= |s|
  {
    var c := s[0] as int;
    if c < 0x80 then (if c == 9 || c == 10 || c == 13 || c >= 0x20 then 1 else 0)
    else if 0xC2 <= c <= 0xDF then (if GoesOn(s, 1) then 2 else 0)
    else if 0xE0 <= c <= 0xEF then
      var low, high := if c == 0xE0 then 0xA0 else 0x80, if c == 0xED then 0x9F else 0xBF;
      if !Follows(s, 1, low, high) || !GoesOn(s, 2) then 0
      else if c == 0xEF && s[1] as int == 0xBF && s[2] as int >= 0xBE then 0 else 3
    else if 0xF0 <= c <= 0xF4 then
      var low, high := if c == 0xF0 then 0x90 else 0x80, if c == 0xF4 then 0x8F else 0xBF;
      if Follows(s, 1, low, high) && GoesOn(s, 2) && GoesOn(s, 3) then 4 else 0
    else 0
  }

  /** Nothing but characters that XML allows. */
  predicate AllLegal(s: string) {
    s == "" || (LegalLength(s) > 0 && AllLegal(s[LegalLength(s)..]))
  }

  /** What stands between `<` and `>`. */
  function ScanTag(tag: string, n: Nesting): Option<Nesting> {
    if tag == "" || '<' in tag || !AllLegal(tag) then None
    else if tag[0] == '?' then (if n == Nesting([], 0) then Some(n) else None)
    else if tag[0] == '/' then Leave(tag[1..], n)
    else if tag[|tag| - 1] == '/' then Leave(NameOf(tag), Enter(NameOf(tag), n))
    else Some(Enter(NameOf(tag), n))
  }

  predicate IsEntity(e: string) {
    e == "amp" || e == "quot" || e == "lt" || e == "gt" || e == "apos"
  }

  /** What stands between `&` and `;`. */
  predicate IsReference(r: string) {
    IsEntity(r) || (|r| > 1 && r[0] == '#' && forall c :: c in r[1..] ==> IsDigit(c))
  }

  /** Reads a whole text; None when a tag, a reference, a character or text outside of the root is wrong. */
  function Scan(s: string, n: Nesting): Option<Nesting>
    decreases |s|
  {
    if s == "" then Some(n)
    else if s[0] == '<' then
      var i := IndexOf(s, '>');
      if i == |s| then None
      else match ScanTag(s[1..i], n)
        case None => None
        case Some(m) => Scan(s[i + 1..], m)
    else if s[0] == '&' then
      var i := IndexOf(s, ';');
      if i == |s| || n.stack == [] || !IsReference(s[1..i]) then None else Scan(s[i + 1..], n)
    else if LegalLength(s) == 0 || (n.stack == [] && !IsSpace(s[0])) then None
    else Scan(s[LegalLength(s)..], n)
  }

  /** Every tag closed in turn, exactly one root, and only proper references and characters. */
  predicate WellFormed(s: string) {
    Scan(s, Nesting([], 0)) == Some(Nesting([], 1))
  }

  // ---------- tokens ----------

  const DECLARATION: string := "?xml version=\"1.0\"" + " encoding=\"utf-8\"?"

  function TagText(t: Token): string
    requires !t.Text? && !t.Ref?
  {
    match t
    case Declaration => DECLARATION
    case Open(name, attrs) => name + attrs
    case Close(name) => "/" + name
    case Void(name) => name + " /"
  }

  function Render(t: Token): string {
    match t
    case Text(s) => s
    case Ref(e) => "&" + e + ";"
    case _ => "<" + TagText(t) + ">"
  }

  function RenderAll(ts: seq<Token>): string {
    if ts == [] then "" else Render(ts[0]) + RenderAll(ts[1..])
  }

  predicate IsNameChar(c: char) {
    'A' <= c <= 'Z' || 'a' <= c <= 'z' || c == ':'
  }

  predicate NameOk(s: string) {
    s != "" && forall c :: c in s ==> IsNameChar(c)
  }

  predicate AttrsOk(s: string) {
    s == "" || (s[0] == ' ' && s[|s| - 1] == '\"' && '<' !in s && '>' !in s && AllLegal(s))
  }

  predicate TextOk(s: string) {
    AllLegal(s) && '<' !in s && '&' !in s
  }

  predicate TokenOk(t: Token) {
    match t
    case Declaration => true
    case Open(name, attrs) => NameOk(name) && AttrsOk(attrs)
    case Close(name) => NameOk(name)
    case Void(name) => NameOk(name)
    case Text(s) => TextOk(s)
    case Ref(e) => IsEntity(e)
  }

  ghost predicate TokensOk(ts: seq<Token>) {
    forall t :: t in ts ==> TokenOk(t)
  }

  predicate AllSpace(s: string) {
    forall c :: c in s ==> IsSpace(c)
  }

  /** What one token does to the nesting. */
  function Step(t: Token, n: Nesting): Option<Nesting> {
    match t
    case Declaration => if n == Nesting([], 0) then Some(n) else None
    case Open(name, attrs) => Some(Enter(name, n))
    case Close(name) => Leave(name, n)
    case Void(name) => Leave(name, Enter(name, n))
    case Text(s) => if n.stack == [] && !AllSpace(s) then None else Some(n)
    case Ref(e) => if n.stack == [] then None else Some(n)
  }

  function Nest(ts: seq<Token>, n: Nesting): Option<Nesting> {
    if ts == [] then Some(n)
    else match Step(ts[0], n)
      case None => None
      case Some(m) => Nest(ts[1..], m)
  }

  // ---------- legal characters ----------

  predicate IsPlain(c: char) {
    ' ' <= c <= '~' || c == '\n'
  }

  lemma {:induction false} PlainIsLegal(s: string)
    requires forall c :: c in s ==> IsPlain(c)
    ensures AllLegal(s)
  {
    if s != "" {
      assert s[0] in s && LegalLength(s) == 1;
      PlainIsLegal(s[1..]);
    }
  }

  /** A character that is complete stays what it is. */
  lemma LegalLengthGrows(s: string, t: string)
    requires s != ""
    ensures LegalLength(s) > 0 ==> LegalLength(s + t) == LegalLength(s)
    ensures LegalLength(s) == 0 && t != "" && t[0] == '<' ==> LegalLength(s + t) == 0
  {
    assert forall i :: 0 <= i < |s| ==> (s + t)[i] == s[i];
    assert t != "" ==> (s + t)[|s|] == t[0];
  }

  lemma {:induction false} LegalAppend(s: string, t: string)
    requires AllLegal(s) && AllLegal(t)
    ensures AllLegal(s + t)
  {
    hide LegalLength;
    if s == "" {
      assert s + t == t;
    } else {
      var k := LegalLength(s);
      LegalLengthGrows(s, t);
      assert (s + t)[k..] == s[k..] + t;
      LegalAppend(s[k..], t);
    }
  }

  // ---------- the scanner sees the tokens ----------

  lemma {:induction false} NameOfOpen(name: string, rest: string)
    requires (forall c :: c in name ==> IsNameChar(c)) && (rest == "" || rest[0] == ' ')
    ensures NameOf(name + rest) == name
  {
    if name == "" {
      assert name + rest == rest;
    } else {
      assert name[0] in name && (name + rest)[1..] == name[1..] + rest;
      NameOfOpen(name[1..], rest);
    }
  }

  lemma TagTextLegal(t: Token)
    requires !t.Text? && !t.Ref? && TokenOk(t)
    ensures AllLegal(TagText(t))
  {
    hide AllLegal;
    match t
    case Declaration =>
      PlainIsLegal("?xml version=\"1.0\"");
      PlainIsLegal(" encoding=\"utf-8\"?");
      LegalAppend("?xml version=\"1.0\"", " encoding=\"utf-8\"?");
    case Open(name, attrs) =>
      PlainIsLegal(name);
      EmptyIsLegal();
      LegalAppend(name, attrs);
    case Close(name) => PlainIsLegal("/" + name);
    case Void(name) => PlainIsLegal(name + " /");
  }

  lemma EmptyIsLegal()
    ensures AllLegal("")
  {
  }

  /** No angle brackets. */
  predicate Bracketless(s: string) {
    '<' !in s && '>' !in s
  }

  lemma VersionBracketless()
    ensures Bracketless("?xml version=\"1.0\"")
  {
  }

  lemma EncodingBracketless()
    ensures Bracketless(" encoding=\"utf-8\"?")
  {
  }

  lemma BracketlessBoth(s: string, t: string)
    requires Bracketless(s) && Bracketless(t)
    ensures Bracketless(s + t)
  {
  }

  lemma NameBracketless(name: string)
    requires NameOk(name)
    ensures Bracketless(name) && Bracketless("/" + name) && Bracketless(name + " /")
  {
  }

  lemma TagTextBracketless(t: Token)
    requires !t.Text? && !t.Ref? && TokenOk(t)
    ensures TagText(t) != "" && Bracketless(TagText(t))
  {
    match t
    case Declaration =>
      hide Bracketless;
      VersionBracketless();
      EncodingBracketless();
      BracketlessBoth("?xml version=\"1.0\"", " encoding=\"utf-8\"?");
    case Open(name, attrs) => NameBracketless(name);
    case Close(name) => NameBracketless(name);
    case Void(name) => NameBracketless(name);
  }

  lemma TagTextPlain(t: Token)
    requires !t.Text? && !t.Ref? && TokenOk(t)
    ensures TagText(t) != "" && '<' !in TagText(t) && '>' !in TagText(t) && AllLegal(TagText(t))
  {
    TagTextLegal(t);
    TagTextBracketless(t);
    hide AllLegal, TagText, TokenOk;
  }

  lemma ScanTagSteps(t: Token, n: Nesting)
    requires !t.Text? && !t.Ref? && TokenOk(t)
    ensures ScanTag(TagText(t), n) == Step(t, n)
  {
    TagTextPlain(t);
    match t
    case Declaration => assert DECLARATION[0] == '?';
    case Open(name, attrs) =>
      NameOfOpen(name, attrs);
      var tag := name + attrs;
      assert tag[0] == name[0] && name[0] in name && name[|name| - 1] in name;
      assert tag[|tag| - 1] == if attrs == "" then name[|name| - 1] else '\"';
    case Close(name) => assert ("/" + name)[1..] == name;
    case Void(name) =>
      NameOfOpen(name, " /");
      var tag := name + " /";
      assert tag[0] == name[0] && name[0] in name && tag[|tag| - 1] == '/';
  }

  lemma ScanTagToken(tag: string, rest: string, n: Nesting)
    requires '>' !in tag
    ensures Scan("<" + tag + ">" + rest, n) ==
            match ScanTag(tag, n) case None => None case Some(m) => Scan(rest, m)
  {
    hide ScanTag;
    var s := "<" + tag + ">" + rest;
    assert s[..1 + |tag|] == "<" + tag && s[1..1 + |tag|] == tag && s[|tag| + 2..] == rest;
    IndexOfIs(s, '>', 1 + |tag|);
  }

  lemma ScanRef(e: string, rest: string, n: Nesting)
    requires IsEntity(e)
    ensures Scan("&" + e + ";" + rest, n) == if n.stack == [] then None else Scan(rest, n)
  {
    var s := "&" + e + ";" + rest;
    assert s[..1 + |e|] == "&" + e && s[1..1 + |e|] == e && s[|e| + 2..] == rest;
    assert ';' !in e;
    IndexOfIs(s, ';', 1 + |e|);
  }

  lemma {:induction false} ScanText(text: string, rest: string, n: Nesting)
    requires TextOk(text)
    ensures Scan(text + rest, n) == if n.stack == [] && !AllSpace(text) then None else Scan(rest, n)
  {
    if text == "" {
      assert text + rest == rest;
    } else {
      var s, k := text + rest, LegalLength(text);
      LegalLengthGrows(text, rest);
      SpaceFirst(text);
      assert s[0] == text[0] && text[0] in text && s[k..] == text[k..] + rest;
      assert forall c :: c in text[k..] ==> c in text;
      ScanText(text[k..], rest, n);
    }
  }

  lemma SpaceFirst(text: string)
    requires text != "" && LegalLength(text) > 0
    ensures AllSpace(text) <==> IsSpace(text[0]) && AllSpace(text[LegalLength(text)..])
  {
    var k := LegalLength(text);
    assert text == text[..k] + text[k..];
    if k > 1 {
      assert !IsSpace(text[0]);
    } else {
      assert text[..k] == [text[0]];
    }
  }

  lemma ScanToken(t: Token, rest: string, n: Nesting)
    requires TokenOk(t)
    ensures Scan(Render(t) + rest, n) == match Step(t, n) case None => None case Some(m) => Scan(rest, m)
  {
    hide Scan, ScanTag;
    match t
    case Text(s) => ScanText(s, rest, n);
    case Ref(e) => ScanRef(e, rest, n);
    case _ =>
      TagTextPlain(t);
      ScanTagToken(TagText(t), rest, n);
      ScanTagSteps(t, n);
  }

  /** Reading the characters of a token list is stepping through the tokens. */
  lemma {:induction false} ScanRender(ts: seq<Token>, rest: string, n: Nesting)
    requires TokensOk(ts)
    ensures Scan(RenderAll(ts) + rest, n) == match Nest(ts, n) case None => None case Some(m) => Scan(rest, m)
  {
    hide Scan, Step, Render, TokenOk;
    if ts == [] {
      assert RenderAll(ts) + rest == rest;
    } else {
      var more := RenderAll(ts[1..]) + rest;
      assert RenderAll(ts) + rest == Render(ts[0]) + more;
      ScanToken(ts[0], more, n);
      if Step(ts[0], n).Some? {
        ScanRender(ts[1..], rest, Step(ts[0], n).value);
      }
    }
  }

  lemma BehindTag(text: string, rest: string)
    requires ';' !in text && rest != "" && rest[0] == '<'
    ensures IndexOf(text + rest, ';') > |text|
  {
  }

  /**
    A text that is no proper one, be it for an ampersand or a character XML does not know, cannot
    be read if no semicolon comes before the next tag.
   */
  lemma {:induction false} Unreadable(text: string, rest: string, n: Nesting)
    requires !TextOk(text) && '<' !in text && ';' !in text && rest != "" && rest[0] == '<'
    ensures Scan(text + rest, n) == None
  {
    var s := text + rest;
    assert text != "" && s[0] == text[0] && text[0] in text;
    if text[0] == '&' {
      var i := IndexOf(s, ';');
      BehindTag(text, rest);
      if i < |s| {
        assert s[1..i][|text| - 1] == '<';
        NoTagInReference(s[1..i]);
      }
    } else {
      LegalLengthGrows(text, rest);
      var k := LegalLength(text);
      if k > 0 {
        FirstIsFine(text);
        assert s[k..] == text[k..] + rest;
        assert forall c :: c in text[k..] ==> c in text;
        Unreadable(text[k..], rest, n);
      }
    }
  }

  /** What is wrong with a text that starts well comes later. */
  lemma FirstIsFine(text: string)
    requires !TextOk(text) && '<' !in text && text != "" && text[0] != '&' && LegalLength(text) > 0
    ensures !TextOk(text[LegalLength(text)..])
  {
    var k := LegalLength(text);
    if '&' in text {
      var i :| 0 <= i < |text| && text[i] == '&';
      assert i >= k;
      assert text[k..][i - k] == '&';
    }
  }

  lemma NoTagInReference(r: string)
    requires '<' in r
    ensures !IsReference(r)
  {
    if |r| > 1 && r[0] == '#' {
      assert '<' in r[1..];
    }
  }

  // ---------- building balanced token lists ----------

  lemma {:induction false} NestAppend(a: seq<Token>, b: seq<Token>, n: Nesting)
    ensures Nest(a + b, n) == match Nest(a, n) case None => None case Some(m) => Nest(b, m)
  {
    hide Step;
    if a == [] {
      assert a + b == b;
    } else {
      assert (a + b)[1..] == a[1..] + b;
      if Step(a[0], n).Some? {
        NestAppend(a[1..], b, Step(a[0], n).value);
      }
    }
  }

  lemma {:induction false} RenderAppend(a: seq<Token>, b: seq<Token>)
    ensures RenderAll(a + b) == RenderAll(a) + RenderAll(b)
  {
    hide Render;
    if a == [] {
      assert a + b == b;
    } else {
      assert (a + b)[1..] == a[1..] + b;
      RenderAppend(a[1..], b);
    }
  }

  /** Well made, and inside any element it leaves the nesting as it was. */
  ghost predicate Neutral(ts: seq<Token>) {
    TokensOk(ts) && forall n: Nesting {:trigger Nest(ts, n)} :: n.stack != [] ==> Nest(ts, n) == Some(n)
  }

  lemma NeutralBoth(a: seq<Token>, b: seq<Token>)
    requires Neutral(a) && Neutral(b)
    ensures Neutral(a + b)
  {
    forall n: Nesting | n.stack != []
      ensures Nest(a + b, n) == Some(n)
    {
      NestAppend(a, b, n);
    }
  }

  lemma NeutralContent(t: Token)
    requires TokenOk(t) && (t.Text? || t.Ref? || t.Void?)
    ensures Neutral([t])
  {
  }

  /** From an opening to its closing, the nesting is as it was. */
  lemma Enclosed(name: string, attrs: string, inner: seq<Token>, n: Nesting)
    requires Neutral(inner)
    ensures Nest([Open(name, attrs)] + inner + [Close(name)], n) == Some(Nesting(n.stack, Enter(name, n).roots))
  {
    var open, close, m := [Open(name, attrs)], [Close(name)], Enter(name, n);
    NestAppend(open + inner, close, n);
    NestAppend(open, inner, n);
    assert Nest(open, n) == Some(m);
    assert m.stack[..|m.stack| - 1] == n.stack;
    assert Nest(close, m) == Some(Nesting(n.stack, m.roots));
  }

  lemma NeutralEnclosed(name: string, attrs: string, inner: seq<Token>)
    requires Neutral(inner) && NameOk(name) && AttrsOk(attrs)
    ensures Neutral([Open(name, attrs)] + inner + [Close(name)])
  {
    forall n: Nesting | n.stack != []
      ensures Nest([Open(name, attrs)] + inner + [Close(name)], n) == Some(n)
    {
      Enclosed(name, attrs, inner, n);
    }
  }
}
