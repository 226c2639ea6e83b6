/** The answer file for Windows Setup: what it says for given flags, and that it is well formed. */
module Unattend {
  import opened CStrings
  import opened Xml

  // ---------- flags ----------

  type Flags = bv32

  const BYPASS_TPM: Flags := 0x0001
  const BYPASS_SECUREBOOT: Flags := 0x0002
  const NO_ONLINE_ACCOUNT: Flags := 0x0004
  const NO_DATA_COLLECTION: Flags := 0x0008
  const OFFLINE_DRIVES: Flags := 0x0010
  const SET_USER: Flags := 0x0040
  const DISABLE_BITLOCKER: Flags := 0x0080
  const BYPASS_RAM: Flags := 0x0100
  const BYPASS_CPU: Flags := 0x0200
  const BYPASS_STORAGE: Flags := 0x0400
  const SILENT_INSTALL: Flags := 0x0800
  const QOL_ENHANCEMENTS: Flags := 0x1000
  const HIDE_INSTALL_MEDIA: Flags := 0x2000
  const BYPASS_MASK: Flags := 0x0703

  predicate Has(flags: Flags, mask: Flags) {
    flags & mask != 0
  }

  /** The table of checks that can be bypassed. */
  const BYPASSES: seq<(Flags, string)> := [
    (BYPASS_TPM, "BypassTPMCheck"),
    (BYPASS_SECUREBOOT, "BypassSecureBootCheck"),
    (BYPASS_RAM, "BypassRAMCheck"),
    (BYPASS_CPU, "BypassCPUCheck"),
    (BYPASS_STORAGE, "BypassStorageCheck")]

  // ---------- fixed wording ----------

  /** An attribute text with the architecture in the middle. */
  datatype Attrs = Attrs(before: string, after: string) {
    function For(arch: string): string {
      before + arch + after
    }

    predicate Ok() {
      && before != "" && after != "" && before[0] == ' ' && after[|after| - 1] == '\"'
      && '<' !in before && '>' !in before && '<' !in after && '>' !in after
      && AllLegal(before) && AllLegal(after) && |before| + |after| < 1000
    }
  }

  /** The long constant texts: only that they are plain, and not too long, is of interest here. */
  datatype Wording = Wording(
    schema: string, setup: Attrs, manager: Attrs, shell: Attrs, add: string, addHere: string,
    description: string, script: seq<Token>, logon: string) {

    ghost predicate Ok() {
      && AttrsOk(schema) && |schema| < 1000 && AttrsOk(add) && |add| < 1000 && AttrsOk(addHere) && |addHere| < 1000
      && setup.Ok() && manager.Ok() && shell.Ok()
      && TextOk(description) && |description| < 1000 && TextOk(logon) && |logon| < 1000
      && script != [] && |RenderAll(script)| < 3000
      && forall t :: t in script ==> TokenOk(t) && (t.Text? || t.Ref?)
    }
  }

  function ArchName(arch: int): string {
    if arch == 0 then "x86" else if arch == 2 then "arm64" else "amd64"
  }

  // ---------- lines and elements ----------

  function Spaces(n: nat): (s: string)
    ensures |s| == n && forall c :: c in s ==> c == ' '
  {
    if n == 0 then "" else " " + Spaces(n - 1)
  }

  function Line(indent: nat, ts: seq<Token>): seq<Token> {
    [Text(Spaces(indent))] + ts + [Text("\n")]
  }

  function Leaf(name: string, body: seq<Token>): seq<Token> {
    [Open(name, "")] + body + [Close(name)]
  }

  /** An element whose opening and closing stand on lines of their own. */
  function Element(indent: nat, name: string, attrs: string, inner: seq<Token>): seq<Token> {
    Line(indent, [Open(name, attrs)]) + inner + Line(indent, [Close(name)])
  }

  // ---------- the commands Setup is to run ----------

  datatype Command = HideMedia | Bypass(key: string)

  /** The requested rows of the table, from row `i` on. */
  function Requested(flags: Flags, i: nat): seq<Command>
    requires i <= |BYPASSES|
    decreases |BYPASSES| - i
  {
    if i == |BYPASSES| then []
    else (if Has(flags, BYPASSES[i].0) then [Bypass(BYPASSES[i].1)] else []) + Requested(flags, i + 1)
  }

  function Commands(flags: Flags): seq<Command> {
    (if Has(flags, HIDE_INSTALL_MEDIA) then [HideMedia] else []) + Requested(flags, 0)
  }

  function BypassLine(key: string): string {
    "reg add HKLM\\SYSTEM" + "\\Setup\\LabConfig /v " + key + " /t REG_DWORD /d 1 /f"
  }

  function PathOf(c: Command, w: Wording): seq<Token> {
    match c
    case HideMedia => w.script
    case Bypass(key) => [Text(BypassLine(key))]
  }

  function Description(c: Command, w: Wording): seq<Token> {
    if c.HideMedia? then Line(10, Leaf("Description", [Text(w.description)])) else []
  }

  function CommandBody(c: Command, order: nat, w: Wording): seq<Token> {
    Line(10, Leaf("Order", [Text(PrintInt(order))])) + Description(c, w) + Line(10, Leaf("Path", PathOf(c, w)))
  }

  function CommandTokens(c: Command, order: nat, w: Wording): seq<Token> {
    Element(8, "RunSynchronousCommand", w.add, CommandBody(c, order, w))
  }

  /** The commands with orders counted up from `order`. */
  function CommandList(cs: seq<Command>, order: nat, w: Wording): seq<Token> {
    if cs == [] then []
    else CommandList(cs[..|cs| - 1], order, w) + CommandTokens(cs[|cs| - 1], order + |cs| - 1, w)
  }

  // ---------- the three passes ----------

  function Pass(pass: string, component: string, inner: seq<Token>): seq<Token> {
    Element(2, "settings", pass, Element(4, "component", component, inner))
  }

  const WINPE: string := " pass=\"windowsPE\""
  const OFFLINE: string := " pass=\"offlineServicing\""
  const OOBE: string := " pass=\"oobeSystem\""

  function UserData(): seq<Token> {
    Element(6, "UserData", "",
            Line(8, Leaf("AcceptEula", [Text("true")])) + Line(8, Leaf("ProductKey", [Void("Key")])))
  }

  predicate NeedsWinPe(flags: Flags) {
    Has(flags, BYPASS_MASK | SILENT_INSTALL | HIDE_INSTALL_MEDIA)
  }

  predicate RunsCommands(flags: Flags) {
    Has(flags, BYPASS_MASK | HIDE_INSTALL_MEDIA)
  }

  function RunSynchronous(flags: Flags, w: Wording): seq<Token> {
    if !RunsCommands(flags) then []
    else Element(6, "RunSynchronous", "", CommandList(Commands(flags), 1, w))
  }

  function WinPe(flags: Flags, arch: string, w: Wording): seq<Token> {
    if !NeedsWinPe(flags) then []
    else
      Pass(WINPE, w.setup.For(arch),
           UserData() + RunSynchronous(flags, w))
  }

  function Offline(flags: Flags, arch: string, w: Wording): seq<Token> {
    if !Has(flags, OFFLINE_DRIVES) then []
    else Pass(OFFLINE, w.manager.For(arch), Line(6, Leaf("SanPolicy", [Text("4")])))
  }

  predicate NeedsOobe(flags: Flags) {
    Has(flags, NO_ONLINE_ACCOUNT | NO_DATA_COLLECTION | SET_USER | DISABLE_BITLOCKER | QOL_ENHANCEMENTS)
  }

  const FORBIDDEN: string := "/\\[]:|<>+=;,?*%@."

  predicate IsForbidden(c: char) {
    c in FORBIDDEN
  }

  /** The name that is written: cut to the buffer, forbidden characters replaced. */
  function Sanitized(name: string): (r: string)
    ensures |r| == |name|
    ensures forall i :: 0 <= i < |r| ==> r[i] == if IsForbidden(name[i]) then '_' else name[i]
  {
    seq(|name|, i requires 0 <= i < |name| => if IsForbidden(name[i]) then '_' else name[i])
  }

  const NAME_ROOM: nat := 255

  function SafeName(user: string): string {
    Sanitized(Truncate(UptoNul(user), NAME_ROOM))
  }

  predicate SetsUser(flags: Flags, user: Option<string>) {
    Has(flags, SET_USER) && user.Some? && UptoNul(user.value) != ""
  }

  function Screens(flags: Flags): seq<Token> {
    Element(6, "OOBE", "",
            (if Has(flags, NO_ONLINE_ACCOUNT) then
               Line(8, Leaf("HideOnlineAccountScreens", [Text("true")]))
               + Line(8, Leaf("SkipMachineOOBE", [Text("true")]))
               + Line(8, Leaf("SkipUserOOBE", [Text("true")]))
             else [])
            + (if Has(flags, NO_DATA_COLLECTION) then Line(8, Leaf("ProtectYourPC", [Text("3")])) else []))
  }

  function Password(): seq<Token> {
    Line(12, Leaf("Password", Leaf("Value", [Text("")]) + Leaf("PlainText", [Text("true")])))
  }

  /** What stands in the account behind the name. */
  function AccountRest(name: string): seq<Token> {
    Line(12, Leaf("DisplayName", [Text(name)])) + Line(12, Leaf("Group", [Text("Administrators")])) + Password()
  }

  function Accounts(name: string, w: Wording): seq<Token> {
    Element(6, "UserAccounts", "",
            Element(8, "LocalAccounts", "",
                    Element(10, "LocalAccount", w.addHere,
                            Line(12, Leaf("Name", [Text(name)])) + AccountRest(name))))
  }

  function FirstLogon(w: Wording): seq<Token> {
    Element(6, "FirstLogonCommands", "",
            Element(8, "SynchronousCommand", w.addHere,
                    Line(10, Leaf("Order", [Text("1")])) + Line(10, Leaf("CommandLine", [Text(w.logon)]))))
  }

  function UserAccounts(flags: Flags, user: Option<string>, w: Wording): seq<Token> {
    if SetsUser(flags, user) then Accounts(SafeName(user.value), w) else []
  }

  function Logon(flags: Flags, w: Wording): seq<Token> {
    if Has(flags, QOL_ENHANCEMENTS) then FirstLogon(w) else []
  }

  function Oobe(flags: Flags, user: Option<string>, arch: string, w: Wording): seq<Token> {
    if !NeedsOobe(flags) then []
    else
      Pass(OOBE, w.shell.For(arch),
           Screens(flags) + UserAccounts(flags, user, w) + Logon(flags, w))
  }

  /** The whole answer file. */
  function Document(flags: Flags, user: Option<string>, arch: int, w: Wording): seq<Token> {
    var a := ArchName(arch);
    [Declaration, Text("\n")]
    + Line(0, [Open("unattend", w.schema)])
    + (WinPe(flags, a, w) + Offline(flags, a, w) + Oobe(flags, user, a, w))
    + Line(0, [Close("unattend")])
  }
}
