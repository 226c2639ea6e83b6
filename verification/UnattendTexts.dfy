/** The fixed texts of the answer file as the program has them: they are what the proofs ask of a wording. */
module UnattendTexts {
  import opened CStrings
  import opened Xml
  import opened Unattend
  import opened UnattendForm

  // Words stand apart so that each is short to look through.
  const UNATTEND_SCHEMA: string := " xmlns" + "=\"urn" + ":schemas" + "-microsoft" + "-com" + ":unattend\""
  const ACTION_ADD: string := " wcm:action=\"add\""
  const WCM: string := " xmlns" + ":wcm" + "=\"http" + "://schemas" + ".microsoft" + ".com"
  const STATE: string := "/WMIConfig" + "/2002" + "/State\""
  const NEUTRAL: string := "\"\n      language" + "=\"neutral\""
  const XSI: string := "\n      xmlns" + ":xsi" + "=\"http" + "://www" + ".w3.org"
  const INSTANCE: string := "/2001" + "/XMLSchema" + "-instance\"\n" + "     "
  const KEY_TOKEN: string := " public" + "KeyToken" + "=\"31bf3856ad" + "364e35\""
  const SCOPE: string := " version" + "Scope" + "=\"non" + "SxS\""
  const SETUP_NAME: string := " name" + "=\"Microsoft" + "-Windows" + "-Setup\""
  const MANAGER_NAME: string := " name" + "=\"Microsoft" + "-Windows" + "-Partition" + "Manager\""
  const SHELL_NAME: string := " name" + "=\"Microsoft" + "-Windows" + "-Shell" + "-Setup\""
  const FOR_ARCH: string := " processor" + "Architecture=\""

  const MEDIA_NOTE: string := "Winafi" + ": block" + " Windows" + " Setup" + " from" + " installing" + " to the"
    + " USB" + " media"
  const REG_ADD: string := "reg add" + " HKCU" + "\\Software" + "\\Microsoft" + "\\Windows" + "\\Current"
    + "Version" + "\\Explorer" + "\\Advanced"
  const NO_NOTICES: string := " /v Start_Account" + "Notifications" + " /t REG_DWORD" + " /d 0" + " /f"

  // The PowerShell script that keeps Setup away from the stick, in pieces.
  const PREAMBLE: string := "powershell" + ".exe" + " -No" + "Profile" + " -Execution" + "Policy" + " Bypass"
    + " -Command \""
  const USB_DISKS: string := " { Get" + "-Disk" + " | Where" + "-Object" + " { $_" + ".Bus" + "Type" + " -eq"
    + " 'USB' }"
  const FOR_EACH: string := " | ForEach-Object { "
  const LOCK_DISK: string := "Set-Disk" + " -Number" + " $_.Number" + " -Is" + "Read" + "Only" + " $true"
  const SILENTLY: string := " -Error" + "Action" + " Silently" + "Continue"
  const END_BLOCK: string := " }; "
  const LETTERS: string := "65..90"
  const LETTER: string := "$L=[char]$_; $r="
  const ROOT: string := "$L`:\\"
  const IF_THERE: string := "; if ((Test-Path "
  const WIM: string := "$r`sources" + "\\install" + ".wim"
  const OR_THERE: string := ") -or (Test-Path "
  const ESD: string := "$r`sources" + "\\install" + ".esd"
  const SWM: string := "$r`sources" + "\\install" + ".swm"
  const ANSWERS: string := "$r`autounattend.xml"
  const PARTITION_OF: string := ")) { $n" + "=(Get" + "-Partition" + " -Drive" + "Letter" + " $L"
  const DISK_OF: string := ").DiskNumber; "
  const IF_FOUND: string := "if ($null -ne $n) {"
  const LOCK_FOUND: string := " Set" + "-Disk" + " -Number" + " $n -Is" + "Read" + "Only" + " $true"
  const END_ALL: string := " } } } }\""

  function Wcm(): string {
    WCM + STATE
  }

  function Xsi(): string {
    XSI + INSTANCE
  }

  function Component(name: string, between: string): Attrs {
    Attrs(name + FOR_ARCH, NEUTRAL + between + (KEY_TOKEN + SCOPE))
  }

  function Quoted(s: string): seq<Token> {
    [Ref("quot"), Text(s), Ref("quot")]
  }

  function LockStick(): seq<Token> {
    [Text(PREAMBLE), Ref("amp"), Text(USB_DISKS), Text(FOR_EACH), Text(LOCK_DISK), Text(SILENTLY), Text(END_BLOCK)]
  }

  function EachLetter(): seq<Token> {
    [Text(LETTERS), Text(FOR_EACH)] + ([Text(LETTER)] + Quoted(ROOT))
  }

  function TestFiles(): seq<Token> {
    ([Text(IF_THERE)] + Quoted(WIM)) + ([Text(OR_THERE)] + Quoted(ESD))
    + ([Text(OR_THERE)] + Quoted(SWM)) + ([Text(OR_THERE)] + Quoted(ANSWERS))
  }

  function LockFound(): seq<Token> {
    [Text(PARTITION_OF), Text(SILENTLY), Text(DISK_OF), Text(IF_FOUND), Text(LOCK_FOUND), Text(SILENTLY), Text(END_ALL)]
  }

  function HideScript(): seq<Token> {
    LockStick() + EachLetter() + TestFiles() + LockFound()
  }

  /** The texts of wue.c. */
  function Texts(): Wording {
    Wording(UNATTEND_SCHEMA,
            Component(SETUP_NAME, Wcm() + Xsi()), Component(MANAGER_NAME, ""), Component(SHELL_NAME, ""),
            ACTION_ADD, ACTION_ADD + Wcm(), MEDIA_NOTE, HideScript(), REG_ADD + NO_NOTICES)
  }

  // ---------- clean texts ----------

  /** Printable ASCII characters and newlines, none of markup, and not too many. */
  predicate Clean(s: string) {
    |s| <= 75 && CleanLong(s)
  }

  predicate CleanLong(s: string) {
    forall c :: c in s ==> IsPlain(c) && c != '<' && c != '>' && c != '&'
  }

  lemma CleanBoth(s: string, t: string)
    requires CleanLong(s) && CleanLong(t)
    ensures CleanLong(s + t)
  {
  }

  lemma CleanIsText(s: string)
    requires CleanLong(s)
    ensures TextOk(s)
  {
    PlainText(s);
  }

  lemma CleanUnattendSchema()
    ensures Clean(UNATTEND_SCHEMA)
  {
  }

  lemma CleanActionAdd()
    ensures Clean(ACTION_ADD)
  {
  }

  lemma CleanWcm()
    ensures Clean(WCM)
  {
  }

  lemma CleanState()
    ensures Clean(STATE)
  {
  }

  lemma CleanNeutral()
    ensures Clean(NEUTRAL)
  {
  }

  lemma CleanXsi()
    ensures Clean(XSI)
  {
  }

  lemma CleanInstance()
    ensures Clean(INSTANCE)
  {
  }

  lemma CleanKeyToken()
    ensures Clean(KEY_TOKEN)
  {
  }

  lemma CleanScope()
    ensures Clean(SCOPE)
  {
  }

  lemma CleanSetupName()
    ensures Clean(SETUP_NAME)
  {
  }

  lemma CleanManagerName()
    ensures Clean(MANAGER_NAME)
  {
  }

  lemma CleanShellName()
    ensures Clean(SHELL_NAME)
  {
  }

  lemma CleanForArch()
    ensures Clean(FOR_ARCH)
  {
  }

  lemma CleanMediaNote()
    ensures Clean(MEDIA_NOTE)
  {
  }

  lemma CleanRegAdd()
    ensures Clean(REG_ADD)
  {
  }

  lemma CleanNoNotices()
    ensures Clean(NO_NOTICES)
  {
  }

  lemma CleanPreamble()
    ensures Clean(PREAMBLE)
  {
  }

  lemma CleanUsbDisks()
    ensures Clean(USB_DISKS)
  {
  }

  lemma CleanForEach()
    ensures Clean(FOR_EACH)
  {
  }

  lemma CleanLockDisk()
    ensures Clean(LOCK_DISK)
  {
  }

  lemma CleanSilently()
    ensures Clean(SILENTLY)
  {
  }

  lemma CleanEndBlock()
    ensures Clean(END_BLOCK)
  {
  }

  lemma CleanLetters()
    ensures Clean(LETTERS)
  {
  }

  lemma CleanLetter()
    ensures Clean(LETTER)
  {
  }

  lemma CleanRoot()
    ensures Clean(ROOT)
  {
  }

  lemma CleanIfThere()
    ensures Clean(IF_THERE)
  {
  }

  lemma CleanWim()
    ensures Clean(WIM)
  {
  }

  lemma CleanOrThere()
    ensures Clean(OR_THERE)
  {
  }

  lemma CleanEsd()
    ensures Clean(ESD)
  {
  }

  lemma CleanSwm()
    ensures Clean(SWM)
  {
  }

  lemma CleanAnswers()
    ensures Clean(ANSWERS)
  {
  }

  lemma CleanPartitionOf()
    ensures Clean(PARTITION_OF)
  {
  }

  lemma CleanDiskOf()
    ensures Clean(DISK_OF)
  {
  }

  lemma CleanIfFound()
    ensures Clean(IF_FOUND)
  {
  }

  lemma CleanLockFound()
    ensures Clean(LOCK_FOUND)
  {
  }

  lemma CleanEndAll()
    ensures Clean(END_ALL)
  {
  }

  // ---------- the attributes ----------

  lemma CleanSchemas()
    ensures CleanLong(Wcm()) && 0 < |Wcm()| <= 100 && Wcm()[|Wcm()| - 1] == '\"'
    ensures CleanLong(Xsi()) && |Xsi()| <= 100
  {
    CleanWcm();
    CleanState();
    CleanXsi();
    CleanInstance();
    CleanBoth(WCM, STATE);
    CleanBoth(XSI, INSTANCE);
  }

  lemma SchemaText()
    ensures AttrsOk(UNATTEND_SCHEMA) && |UNATTEND_SCHEMA| < 1000
  {
    CleanUnattendSchema();
    CleanAttrs(UNATTEND_SCHEMA);
    hide AttrsOk, CleanLong;
  }

  lemma ActionText()
    ensures Clean(ACTION_ADD) && ACTION_ADD != "" && ACTION_ADD[0] == ' ' && AttrsOk(ACTION_ADD)
  {
    CleanActionAdd();
    CleanAttrs(ACTION_ADD);
    hide AttrsOk, CleanLong;
  }

  lemma JoinedAttrs(s: string, t: string)
    requires Clean(s) && s != "" && s[0] == ' '
    requires CleanLong(t) && t != "" && t[|t| - 1] == '\"' && |t| <= 100
    ensures AttrsOk(s + t) && |s + t| < 1000
  {
    CleanBoth(s, t);
    CleanAttrs(s + t);
  }

  lemma AttrTexts()
    ensures AttrsOk(UNATTEND_SCHEMA) && AttrsOk(ACTION_ADD) && AttrsOk(ACTION_ADD + Wcm())
    ensures |UNATTEND_SCHEMA| < 1000 && |ACTION_ADD| < 1000 && |ACTION_ADD + Wcm()| < 1000
  {
    hide AttrsOk, CleanLong, Wcm, Xsi;
    SchemaText();
    ActionText();
    CleanSchemas();
    JoinedAttrs(ACTION_ADD, Wcm());
  }

  lemma CleanAttrs(s: string)
    requires CleanLong(s) && s != "" && s[0] == ' ' && s[|s| - 1] == '\"'
    ensures AttrsOk(s)
  {
    CleanIsText(s);
  }

  lemma ComponentText(name: string, between: string)
    requires Clean(name) && name != "" && name[0] == ' ' && CleanLong(between) && |between| <= 200
    ensures Component(name, between).Ok()
  {
    CleanForArch();
    CleanNeutral();
    CleanKeyToken();
    CleanScope();
    CleanBoth(KEY_TOKEN, SCOPE);
    var a := Component(name, between);
    CleanBoth(name, FOR_ARCH);
    CleanBoth(NEUTRAL, between);
    CleanBoth(NEUTRAL + between, KEY_TOKEN + SCOPE);
    CleanIsText(a.before);
    CleanIsText(a.after);
    assert a.after[|a.after| - 1] == SCOPE[|SCOPE| - 1] == '\"';
  }

  lemma Components()
    ensures Texts().setup.Ok() && Texts().manager.Ok() && Texts().shell.Ok()
  {
    CleanSetupName();
    CleanManagerName();
    CleanShellName();
    CleanSchemas();
    CleanBoth(Wcm(), Xsi());
    hide Attrs.Ok, Component, CleanLong;
    assert CleanLong("") by {
      NothingClean();
    }
    ComponentText(SETUP_NAME, Wcm() + Xsi());
    ComponentText(MANAGER_NAME, "");
    ComponentText(SHELL_NAME, "");
  }

  lemma NothingClean()
    ensures CleanLong("")
  {
  }

  // ---------- the script ----------

  /** Tokens that make text in a command, each not too long. */
  ghost predicate Commandlike(ts: seq<Token>) {
    forall t :: t in ts ==> TokenOk(t) && (t.Text? || t.Ref?) && |Render(t)| <= 75
  }

  lemma CommandlikeText(s: string)
    requires Clean(s)
    ensures Commandlike([Text(s)])
  {
    CleanIsText(s);
  }

  lemma CommandlikeBoth(a: seq<Token>, b: seq<Token>)
    requires Commandlike(a) && Commandlike(b)
    ensures Commandlike(a + b)
  {
  }

  lemma CommandlikeRef(e: string)
    requires IsEntity(e)
    ensures Commandlike([Ref(e)])
  {
  }

  /** A piece and a quoted name behind it. */
  lemma PieceAndQuote(s: string, name: string)
    requires Clean(s) && Clean(name)
    ensures Commandlike([Text(s)] + Quoted(name))
  {
    hide Commandlike, Clean;
    CommandlikeText(s);
    CommandlikeText(name);
    CommandlikeRef("quot");
    CommandlikeBoth([Ref("quot")], [Text(name)]);
    CommandlikeBoth([Ref("quot")] + [Text(name)], [Ref("quot")]);
    assert Quoted(name) == [Ref("quot")] + [Text(name)] + [Ref("quot")];
    CommandlikeBoth([Text(s)], Quoted(name));
  }

  lemma SomeMore(a: seq<Token>, s: string)
    requires Commandlike(a) && Clean(s)
    ensures Commandlike(a + [Text(s)])
  {
    CommandlikeText(s);
  }

  lemma LockStickOk()
    ensures Commandlike(LockStick()) && |LockStick()| == 7
  {
    CleanPreamble();
    CleanUsbDisks();
    CleanForEach();
    CleanLockDisk();
    CleanSilently();
    CleanEndBlock();
    hide Commandlike, Clean;
    CommandlikeText(PREAMBLE);
    CommandlikeRef("amp");
    CommandlikeBoth([Text(PREAMBLE)], [Ref("amp")]);
    var a := [Text(PREAMBLE)] + [Ref("amp")];
    SomeMore(a, USB_DISKS);
    SomeMore(a + [Text(USB_DISKS)], FOR_EACH);
    var b := a + [Text(USB_DISKS)] + [Text(FOR_EACH)];
    SomeMore(b, LOCK_DISK);
    SomeMore(b + [Text(LOCK_DISK)], SILENTLY);
    SomeMore(b + [Text(LOCK_DISK)] + [Text(SILENTLY)], END_BLOCK);
    assert LockStick() == b + [Text(LOCK_DISK)] + [Text(SILENTLY)] + [Text(END_BLOCK)];
  }

  lemma EachLetterOk()
    ensures Commandlike(EachLetter()) && |EachLetter()| == 6
  {
    CleanLetters();
    CleanForEach();
    CleanLetter();
    CleanRoot();
    hide Commandlike, Clean;
    CommandlikeText(LETTERS);
    SomeMore([Text(LETTERS)], FOR_EACH);
    PieceAndQuote(LETTER, ROOT);
    assert [Text(LETTERS), Text(FOR_EACH)] == [Text(LETTERS)] + [Text(FOR_EACH)];
    CommandlikeBoth([Text(LETTERS), Text(FOR_EACH)], [Text(LETTER)] + Quoted(ROOT));
  }

  lemma TestFilesOk()
    ensures Commandlike(TestFiles()) && |TestFiles()| == 16
  {
    CleanIfThere();
    CleanOrThere();
    CleanWim();
    CleanEsd();
    CleanSwm();
    CleanAnswers();
    hide Commandlike, Clean;
    PieceAndQuote(IF_THERE, WIM);
    PieceAndQuote(OR_THERE, ESD);
    PieceAndQuote(OR_THERE, SWM);
    PieceAndQuote(OR_THERE, ANSWERS);
    var a, b := [Text(IF_THERE)] + Quoted(WIM), [Text(OR_THERE)] + Quoted(ESD);
    var c, d := [Text(OR_THERE)] + Quoted(SWM), [Text(OR_THERE)] + Quoted(ANSWERS);
    CommandlikeBoth(a, b);
    CommandlikeBoth(a + b, c);
    CommandlikeBoth(a + b + c, d);
  }

  lemma LockFoundOk()
    ensures Commandlike(LockFound()) && |LockFound()| == 7
  {
    CleanPartitionOf();
    CleanSilently();
    CleanDiskOf();
    CleanIfFound();
    CleanLockFound();
    CleanEndAll();
    hide Commandlike, Clean;
    CommandlikeText(PARTITION_OF);
    var a := [Text(PARTITION_OF)];
    SomeMore(a, SILENTLY);
    SomeMore(a + [Text(SILENTLY)], DISK_OF);
    var b := a + [Text(SILENTLY)] + [Text(DISK_OF)];
    SomeMore(b, IF_FOUND);
    SomeMore(b + [Text(IF_FOUND)], LOCK_FOUND);
    var c := b + [Text(IF_FOUND)] + [Text(LOCK_FOUND)];
    SomeMore(c, SILENTLY);
    SomeMore(c + [Text(SILENTLY)], END_ALL);
    assert LockFound() == c + [Text(SILENTLY)] + [Text(END_ALL)];
  }

  lemma HideScriptOk()
    ensures Commandlike(HideScript()) && |HideScript()| < 40
  {
    LockStickOk();
    EachLetterOk();
    TestFilesOk();
    LockFoundOk();
    hide Commandlike, LockStick, EachLetter, TestFiles, LockFound;
    CommandlikeBoth(LockStick(), EachLetter());
    CommandlikeBoth(LockStick() + EachLetter(), TestFiles());
    CommandlikeBoth(LockStick() + EachLetter() + TestFiles(), LockFound());
  }

  lemma {:induction false} CommandlikeLength(ts: seq<Token>)
    requires Commandlike(ts)
    ensures |RenderAll(ts)| <= 75 * |ts|
  {
    hide Render;
    if ts != [] {
      assert ts[0] in ts;
      CommandlikeLength(ts[1..]);
    }
  }

  // ---------- the whole ----------

  lemma ScriptOk()
    ensures var script := HideScript();
            && script != [] && |RenderAll(script)| < 3000
            && forall t :: t in script ==> TokenOk(t) && (t.Text? || t.Ref?)
  {
    HideScriptOk();
    CommandlikeLength(HideScript());
    hide HideScript, TokenOk, RenderAll;
  }

  lemma NoteOk()
    ensures TextOk(MEDIA_NOTE) && |MEDIA_NOTE| < 1000
  {
    CleanMediaNote();
    CleanIsText(MEDIA_NOTE);
  }

  lemma LogonOk()
    ensures TextOk(REG_ADD + NO_NOTICES) && |REG_ADD + NO_NOTICES| < 1000
  {
    CleanRegAdd();
    CleanNoNotices();
    CleanBoth(REG_ADD, NO_NOTICES);
    CleanIsText(REG_ADD + NO_NOTICES);
    hide CleanLong, TextOk;
  }

  /** The program's own texts are a proper wording. */
  lemma TextsOk()
    ensures Texts().Ok()
  {
    hide AttrsOk, Attrs.Ok, TextOk, HideScript, Component, TokenOk, RenderAll, Wcm, Xsi;
    AttrTexts();
    Components();
    ScriptOk();
    NoteOk();
    LogonOk();
  }

  /** So what is proved for every wording holds for the file the program writes. */
  lemma AnswerFileWellFormedExactly(flags: Flags, user: Option<string>, arch: int)
    ensures WellFormed(RenderAll(Document(flags, user, arch, Texts()))) <==> !Spoiled(flags, user)
  {
    TextsOk();
    hide Texts, WellFormed, RenderAll, Document, Spoiled, Wording.Ok;
    WellFormedExactly(flags, user, arch, Texts());
  }
}
