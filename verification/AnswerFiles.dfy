/** The two answer files a run puts on the stick, and what they make of the user's choice. */
module AnswerFiles {
  import opened CStrings
  import opened SessionModel
  import opened Xml
  import opened Unattend
  import opened UnattendOrders
  import opened UnattendTexts
  import opened UnattendSettings
  import UnattendWriter

  /** The flags of the file at the root of the stick: an installation always hides its media. */
  function Effective(option: ImageOption, flags: Flags): Flags {
    if option != WinToGo then flags | HIDE_INSTALL_MEDIA else flags
  }

  /** The user as it is handed on: no name at all if it is empty. */
  function Named(user: string): Option<string> {
    if UptoNul(user) != "" then Some(user) else None
  }

  /** The file at the root; there is none exactly for a Windows To Go without flags. */
  method RootFile(option: ImageOption, flags: Flags, user: string) returns (xml: Option<string>)
    ensures xml.None? <==> option == WinToGo && flags == 0
    ensures xml.Some? ==> xml.value == RenderAll(Document(Effective(option, flags), Named(user), 1, Texts()))
  {
    var effective := flags;
    if option != WinToGo {
      effective := effective | HIDE_INSTALL_MEDIA;
    }
    NeverNone(flags);
    if effective == 0 {
      return None;
    }
    TextsOk();
    hide Texts, Document, RenderAll;
    xml := UnattendWriter.GenerateXml(effective, Named(user), 1, Texts());
  }

  lemma NeverNone(flags: Flags)
    ensures flags | HIDE_INSTALL_MEDIA != 0
  {
  }

  /** The file for the Panther directory of a Windows To Go. */
  method ToGoFile() returns (xml: Option<string>)
    ensures xml == Some(RenderAll(Document(0x0010, None, 1, Texts())))
  {
    TextsOk();
    hide Texts, Document, RenderAll;
    xml := UnattendWriter.GenerateXml(OFFLINE_DRIVES, None, 1, Texts());
  }

  lemma OtherBits(flags: Flags)
    ensures var f := flags | 0x2000;
            && f & 0x2000 != 0 && f & 0x2F03 != 0 && f & 0x10CC == flags & 0x10CC
            && f & 0x0001 == flags & 0x0001 && f & 0x0002 == flags & 0x0002 && f & 0x0100 == flags & 0x0100
            && f & 0x0200 == flags & 0x0200 && f & 0x0400 == flags & 0x0400
  {
  }

  /**
    Every installation stick has Setup lock it, as the first thing it runs, and sets exactly the
    values the user asked for; a Windows To Go does not lock itself unless asked to.
   */
  lemma RootFileCommands(option: ImageOption, flags: Flags, arch: string)
    ensures option != WinToGo ==>
              Commands(Effective(option, flags)) != [] && Commands(Effective(option, flags))[0] == HideMedia
    ensures option == WinToGo ==> (HideMedia in Commands(Effective(option, flags)) <==> flags & 0x2000 != 0)
    ensures var lab := "HKLM\\SYSTEM" + "\\Setup\\LabConfig"; var f := Effective(option, flags);
            && (FileSets(f, arch, Value(lab, "BypassTPMCheck", 1)) <==> flags & 0x0001 != 0)
            && (FileSets(f, arch, Value(lab, "BypassSecureBootCheck", 1)) <==> flags & 0x0002 != 0)
            && (FileSets(f, arch, Value(lab, "BypassRAMCheck", 1)) <==> flags & 0x0100 != 0)
            && (FileSets(f, arch, Value(lab, "BypassCPUCheck", 1)) <==> flags & 0x0200 != 0)
            && (FileSets(f, arch, Value(lab, "BypassStorageCheck", 1)) <==> flags & 0x0400 != 0)
  {
    var f := Effective(option, flags);
    OtherBits(flags);
    CommandBits(f);
    BypassesExactly(f, arch);
    if option != WinToGo {
      HideFirst(f);
    }
    hide FileSets, Commands;
  }

  lemma HideFirst(flags: Flags)
    requires HideMedia in Commands(flags)
    ensures Commands(flags) != [] && Commands(flags)[0] == HideMedia
  {
    CommandBits(flags);
    hide Requested;
  }

  /** The other file of a Windows To Go keeps the internal disks offline and says nothing else. */
  lemma ToGoFileSays()
    ensures Opened(Document(0x0010, None, 1, Texts()), "settings") == [" pass=\"offlineServicing\""]
    ensures Told(0x0010, None, 1, "SanPolicy") == [Text("4")]
    ensures Told(0x0010, None, 1, "AcceptEula") == [] && Told(0x0010, None, 1, "Name") == []
    ensures Told(0x0010, None, 1, "CommandLine") == []
  {
    TextsOk();
    hide Document, Texts, Opened, Told;
    PassesExactly(0x0010, None, 1, Texts());
    DrivesTold(0x0010, None, 1);
    EulaTold(0x0010, None, 1);
    NameTold(0x0010, None, 1);
    LogonTold(0x0010, None, 1);
    ToGoBits();
  }

  lemma ToGoBits()
    ensures var f: Flags := 0x0010;
            f & 0x2F03 == 0 && f & 0x0010 != 0 && f & 0x10CC == 0 && f & 0x0040 == 0 && f & 0x1000 == 0
  {
  }
}
