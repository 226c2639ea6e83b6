/** Telling from its file names what an ISO image installs and how it boots. */
module IsoDetect {
  import opened CStrings
  import opened IsoExtract

  datatype OsType = UnknownOs | Windows | Linux

  datatype BootMode = Bios | Uefi | Hybrid

  function LowerChar(c: char): char {
    if 'A' <= c <= 'Z' then ((c as int) + 32) as char else c
  }

  function Lower(s: string): (r: string)
    ensures |r| == |s|
  {
    seq(|s|, i requires 0 <= i < |s| => LowerChar(s[i]))
  }

  /** strcasestr != NULL, for a lower-case pattern. */
  predicate ContainsFile(path: string, pattern: string) {
    Contains(Lower(path), pattern)
  }

  /** The same character, or the capital of the letter `low`. */
  predicate SameLetter(c: char, low: char) {
    c == low || ('A' <= c <= 'Z' && 'a' <= low <= 'z' && (c as int) - ('A' as int) == (low as int) - ('a' as int))
  }

  predicate MatchesAnyCase(s: string, mark: string, i: nat) {
    i + |mark| <= |s| && forall k | 0 <= k < |mark| :: SameLetter(s[i + k], mark[k])
  }

  /** A lower-case mark is found in a path exactly if it stands there somewhere but for capitals. */
  lemma FoundInAnyCase(path: string, mark: string)
    requires forall c :: c in mark ==> !('A' <= c <= 'Z')
    ensures ContainsFile(path, mark) <==> exists i :: 0 <= i <= |path| && MatchesAnyCase(path, mark, i)
  {
    forall i: nat | i <= |path|
      ensures MatchesAt(Lower(path), mark, i) <==> MatchesAnyCase(path, mark, i)
    {
      MatchesInAnyCase(path, mark, i);
    }
    hide MatchesAnyCase, Lower, MatchesAt;
  }

  lemma MatchesInAnyCase(path: string, mark: string, i: nat)
    requires forall c :: c in mark ==> !('A' <= c <= 'Z')
    ensures MatchesAt(Lower(path), mark, i) <==> MatchesAnyCase(path, mark, i)
  {
    if i + |mark| <= |path| {
      var part := Lower(path)[i..i + |mark|];
      assert forall k :: 0 <= k < |mark| ==> part[k] == LowerChar(path[i + k]);
      assert forall k :: 0 <= k < |mark| ==> mark[k] in mark;
      assert forall k :: 0 <= k < |mark| ==> (part[k] == mark[k] <==> SameLetter(path[i + k], mark[k]));
    }
  }

  predicate InEfiBoot(p: string) {
    ContainsFile(p, "efi/boot") || ContainsFile(p, "efi\\boot")
  }

  predicate WindowsEfi(p: string) {
    ContainsFile(p, "bootx64.efi") || ContainsFile(p, "bootia32.efi") || ContainsFile(p, "bootaa64.efi")
  }

  predicate WindowsFile(p: string) {
    || ContainsFile(p, "boot.wim") || ContainsFile(p, "install.wim") || ContainsFile(p, "install.esd")
    || ContainsFile(p, "bootmgr")
    || ContainsFile(p, "/boot/bcd") || ContainsFile(p, "\\boot\\bcd")
    || WindowsEfi(p)
  }

  predicate SyslinuxFile(p: string) {
    || ContainsFile(p, "isolinux.cfg") || ContainsFile(p, "syslinux.cfg")
    || ContainsFile(p, "isolinux.bin") || ContainsFile(p, "syslinux.bin")
  }

  predicate LinuxFile(p: string) {
    || ContainsFile(p, "vmlinuz") || ContainsFile(p, "bzimage") || ContainsFile(p, "initrd")
    || ContainsFile(p, "grub.cfg") || SyslinuxFile(p)
  }

  predicate BiosFile(p: string) {
    (ContainsFile(p, "grub.cfg") && !InEfiBoot(p)) || SyslinuxFile(p)
  }

  datatype Verdict = Verdict(os: OsType, hasBoot: bool, mode: BootMode)

  /** The verdict as a function of the set of names: order and repetition cannot matter. */
  function Judge(names: set<string>): Verdict {
    var windows := exists p | p in names :: WindowsFile(p);
    var linux := exists p | p in names :: LinuxFile(p);
    var efiBoot := exists p | p in names :: InEfiBoot(p);
    var uefi := exists p | p in names :: WindowsEfi(p) || InEfiBoot(p);
    var bios := exists p | p in names :: BiosFile(p);
    Verdict(
      if windows || (efiBoot && !linux) then Windows else if linux then Linux else UnknownOs,
      windows || linux || efiBoot,
      if uefi && bios then Hybrid else if uefi then Uefi else Bios)
  }

  /** The names in a listing; entries without a name are passed over. */
  function Names(entries: seq<Option<string>>): set<string> {
    set e | e in entries && e.Some? :: e.value
  }

  lemma NamesStep(entries: seq<Option<string>>, n: nat)
    requires n < |entries|
    ensures Names(entries[..n + 1]) ==
            Names(entries[..n]) + (if entries[n].Some? then {entries[n].value} else {})
  {
  }

  method ScanIsoContents(entries: seq<Option<string>>) returns (v: Verdict)
    ensures v == Judge(Names(entries))
    ensures v.hasBoot <==> v.os != UnknownOs
  {
    hide ContainsFile;
    var isWindows, isLinux, hasUefi, hasBios, hasBoot, foundEfiBoot := false, false, false, false, false, false;
    for i := 0 to |entries|
      invariant isWindows == exists p | p in Names(entries[..i]) :: WindowsFile(p)
      invariant isLinux == exists p | p in Names(entries[..i]) :: LinuxFile(p)
      invariant foundEfiBoot == exists p | p in Names(entries[..i]) :: InEfiBoot(p)
      invariant hasUefi == exists p | p in Names(entries[..i]) :: WindowsEfi(p) || InEfiBoot(p)
      invariant hasBios == exists p | p in Names(entries[..i]) :: BiosFile(p)
      invariant hasBoot == (isWindows || isLinux || foundEfiBoot)
    {
      NamesStep(entries, i);
      if entries[i].None? {
        continue;
      }
      var p := entries[i].value;
      if ContainsFile(p, "boot.wim") || ContainsFile(p, "install.wim") || ContainsFile(p, "install.esd") {
        isWindows, hasBoot := true, true;
      }
      if ContainsFile(p, "bootmgr") {
        isWindows, hasBoot := true, true;
      }
      if ContainsFile(p, "/boot/bcd") || ContainsFile(p, "\\boot\\bcd") {
        isWindows, hasBoot := true, true;
      }
      if WindowsEfi(p) {
        isWindows, hasUefi, hasBoot := true, true, true;
      }
      if ContainsFile(p, "vmlinuz") || ContainsFile(p, "bzimage") || ContainsFile(p, "initrd") {
        isLinux, hasBoot := true, true;
      }
      if ContainsFile(p, "grub.cfg") {
        isLinux, hasBoot := true, true;
        if InEfiBoot(p) {
          hasUefi := true;
        } else {
          hasBios := true;
        }
      }
      if SyslinuxFile(p) {
        isLinux, hasBios, hasBoot := true, true, true;
      }
      if InEfiBoot(p) {
        hasUefi, foundEfiBoot, hasBoot := true, true, true;
      }
    }
    assert entries[..|entries|] == entries;
    var os := UnknownOs;
    if isWindows {
      os := Windows;
    } else if isLinux {
      os := Linux;
    } else if foundEfiBoot && hasBoot {
      os := Windows;
    }
    var mode := Bios;
    if hasUefi && hasBios {
      mode := Hybrid;
    } else if hasUefi {
      mode := Uefi;
    }
    v := Verdict(os, hasBoot, mode);
  }

  /** An ISO file as the environment presents it; `listing` is None when it is not an archive. */
  datatype IsoFile = Missing | IsoFile(size: nat, listing: Option<seq<Option<string>>>, udf: bool)

  datatype IsoInfo = IsoInfo(os: OsType, hasBoot: bool, mode: BootMode, totalSize: nat)

  /** The system detection settles on; a UDF image the reader finds nothing in is taken for Windows. */
  function Detected(iso: IsoFile): (os: Option<OsType>)
    ensures os != Some(UnknownOs)
  {
    if iso.Missing? || iso.listing.None? then None
    else
      var os := Judge(Names(iso.listing.value)).os;
      if os != UnknownOs then Some(os) else if iso.udf then Some(Windows) else None
  }

  /** iso_detect_os: success is always a known system. */
  method DetectOs(iso: IsoFile) returns (result: IsoResult, info: IsoInfo)
    ensures Detected(iso) == if result == IsoOk then Some(info.os) else None
    ensures result == FileNotFound <==> iso.Missing?
    ensures result == NotIso <==> iso.IsoFile? && iso.listing.None?
    ensures result == NoBootInfo <==> iso.IsoFile? && iso.listing.Some? && Detected(iso).None?
    ensures result == IsoOk ==> info.hasBoot && info.totalSize == iso.size
    ensures result == IsoOk ==>
              info.mode == if Judge(Names(iso.listing.value)).hasBoot then Judge(Names(iso.listing.value)).mode else Uefi
  {
    hide Judge, Names;
    info := IsoInfo(UnknownOs, false, Bios, 0);
    if iso.Missing? {
      return FileNotFound, info;
    }
    if iso.listing.None? {
      return NotIso, info;
    }
    var v := ScanIsoContents(iso.listing.value);
    info := IsoInfo(v.os, v.hasBoot, v.mode, iso.size);
    if !v.hasBoot && v.os == UnknownOs {
      if iso.udf {
        return IsoOk, info.(os := Windows, mode := Uefi, hasBoot := true);
      }
      return NoBootInfo, info;
    }
    result := IsoOk;
  }

  // ---------- what the names decide ----------

  /** Some name in the listing has one of these, whatever its case. */
  ghost predicate Mentions(names: set<string>, marks: set<string>) {
    exists p, mark :: p in names && mark in marks && ContainsFile(p, mark)
  }

  lemma MentionsWindows(names: set<string>)
    ensures Mentions(names, {"boot.wim", "install.wim", "install.esd", "bootmgr", "/boot/bcd", "\\boot\\bcd",
                             "bootx64.efi", "bootia32.efi", "bootaa64.efi"})
            <==> exists p :: p in names && WindowsFile(p)
  {
    hide ContainsFile;
  }

  lemma MentionsLinux(names: set<string>)
    ensures Mentions(names, {"vmlinuz", "bzimage", "initrd", "grub.cfg",
                             "isolinux.cfg", "syslinux.cfg", "isolinux.bin", "syslinux.bin"})
            <==> exists p :: p in names && LinuxFile(p)
  {
    hide ContainsFile;
  }

  lemma MentionsEfiBoot(names: set<string>)
    ensures Mentions(names, {"efi/boot", "efi\\boot"}) <==> exists p :: p in names && InEfiBoot(p)
  {
    hide ContainsFile;
  }

  /**
    The system by the names listed: Windows with a Windows name; Linux with a Linux name and no such;
    Windows, too, with neither but a directory efi/boot, or on a UDF image. Else there is none.
   */
  lemma SystemByNames(iso: IsoFile)
    requires iso.IsoFile? && iso.listing.Some?
    ensures var names := Names(iso.listing.value);
            var windows := Mentions(names, {"boot.wim", "install.wim", "install.esd", "bootmgr",
                                            "/boot/bcd", "\\boot\\bcd", "bootx64.efi", "bootia32.efi", "bootaa64.efi"});
            var linux := Mentions(names, {"vmlinuz", "bzimage", "initrd", "grub.cfg",
                                          "isolinux.cfg", "syslinux.cfg", "isolinux.bin", "syslinux.bin"});
            var efiBoot := Mentions(names, {"efi/boot", "efi\\boot"});
            && (Detected(iso) == Some(Linux) <==> linux && !windows)
            && (Detected(iso) == Some(Windows) <==> windows || (!linux && (efiBoot || iso.udf)))
            && (Detected(iso) == None <==> !windows && !linux && !efiBoot && !iso.udf)
  {
    var names := Names(iso.listing.value);
    MentionsWindows(names);
    MentionsLinux(names);
    MentionsEfiBoot(names);
    hide ContainsFile, Mentions, WindowsFile, LinuxFile, InEfiBoot, Names;
  }

  /** A name that is booted in UEFI mode, and one that is booted by the BIOS. */
  lemma ModeByNames(names: set<string>)
    ensures var uefi := Mentions(names, {"bootx64.efi", "bootia32.efi", "bootaa64.efi", "efi/boot", "efi\\boot"});
            var bios := (exists p :: p in names && ContainsFile(p, "grub.cfg")
                                     && !ContainsFile(p, "efi/boot") && !ContainsFile(p, "efi\\boot"))
                        || Mentions(names, {"isolinux.cfg", "syslinux.cfg", "isolinux.bin", "syslinux.bin"});
            Judge(names).mode == if uefi && bios then Hybrid else if uefi then Uefi else Bios
  {
    MentionsUefi(names);
    MentionsBios(names);
    hide ContainsFile, Mentions;
  }

  lemma MentionsUefi(names: set<string>)
    ensures Mentions(names, {"bootx64.efi", "bootia32.efi", "bootaa64.efi", "efi/boot", "efi\\boot"})
            <==> exists p :: p in names && (WindowsEfi(p) || InEfiBoot(p))
  {
    hide ContainsFile;
  }

  lemma MentionsBios(names: set<string>)
    ensures (exists p :: p in names && ContainsFile(p, "grub.cfg")
                         && !ContainsFile(p, "efi/boot") && !ContainsFile(p, "efi\\boot"))
            || Mentions(names, {"isolinux.cfg", "syslinux.cfg", "isolinux.bin", "syslinux.bin"})
            <==> exists p :: p in names && BiosFile(p)
  {
    hide ContainsFile;
  }

  // ---------- the detailed Windows scan ----------

  /** The last component, or the whole path when nothing follows its last slash. */
  function GetFilename(path: string): string {
    var slash := LastIndexOf(path, '/');
    if slash >= 0 && slash + 1 < |path| then path[slash + 1..] else path
  }

  /** strcasecmp(get_filename(path), name) == 0, for a lower-case name. */
  predicate Named(path: string, name: string) {
    Lower(GetFilename(path)) == name
  }

  /** The path ends with the name, in any case, and with nothing else in its last component. */
  predicate EndsWith(path: string, name: string) {
    && |path| >= |name| && MatchesAnyCase(path, name, |path| - |name|)
    && (|path| == |name| || path[|path| - |name| - 1] == '/')
  }

  predicate FileName(name: string) {
    name != "" && forall c | c in name :: c != '/' && !('A' <= c <= 'Z')
  }

  /** Which paths a file name stands for. */
  lemma NamedExactly(path: string, name: string)
    requires FileName(name)
    ensures Named(path, name) <==> EndsWith(path, name)
  {
    hide Named, EndsWith, FileName;
    if EndsWith(path, name) {
      EndsIsNamed(path, name);
    } else if Named(path, name) {
      NamedEnds(path, name);
    }
  }

  lemma EndsIsNamed(path: string, name: string)
    requires FileName(name) && EndsWith(path, name)
    ensures Named(path, name)
  {
    var from := |path| - |name|;
    forall k | from <= k < |path|
      ensures path[k] != '/'
    {
      var m := k - from;
      assert SameLetter(path[from + m], name[m]) && name[m] in name;
    }
    LastSlashAt(path, from);
    var file := path[from..];
    LowerIs(file, name);
    hide SameLetter, Lower, GetFilename;
    assert forall k :: 0 <= k < |name| ==> file[k] == path[from + k];
  }

  lemma NamedEnds(path: string, name: string)
    requires FileName(name) && Named(path, name)
    ensures EndsWith(path, name)
  {
    hide SameLetter, Lower, GetFilename, FileName;
    SlashInFront(path, name);
    var from := |path| - |name|;
    var file := path[from..];
    LowerIs(file, name);
    forall k | 0 <= k < |name|
      ensures SameLetter(path[from + k], name[k])
    {
      assert file[k] == path[from + k];
    }
  }

  lemma LowerIs(file: string, name: string)
    requires FileName(name)
    ensures Lower(file) == name <==> |file| == |name| && forall k :: 0 <= k < |name| ==> SameLetter(file[k], name[k])
  {
    assert forall k :: 0 <= k < |name| ==> name[k] in name;
    assert forall k :: 0 <= k < |file| ==> Lower(file)[k] == LowerChar(file[k]);
    if |file| == |name| {
      assert forall k :: 0 <= k < |name| ==> (Lower(file)[k] == name[k] <==> SameLetter(file[k], name[k]));
    }
  }

  /** What follows the last slash. */
  lemma LastSlashAt(path: string, from: nat)
    requires from < |path| && (from == 0 || path[from - 1] == '/')
    requires forall k :: from <= k < |path| ==> path[k] != '/'
    ensures GetFilename(path) == path[from..]
  {
    var slash := LastIndexOf(path, '/');
    assert slash == from - 1;
  }

  lemma SlashInFront(path: string, name: string)
    requires Named(path, name) && FileName(name)
    ensures |path| >= |name| && (|path| == |name| || path[|path| - |name| - 1] == '/')
    ensures GetFilename(path) == path[|path| - |name|..]
  {
  }

  /** A file name that matches is also found by the substring search of the first scan. */
  lemma NamedContains(path: string, name: string)
    requires Named(path, name)
    ensures ContainsFile(path, name)
  {
    var at := |path| - |name|;
    assert Lower(path)[at..at + |name|] == name;
    assert MatchesAt(Lower(path), name, at);
  }

  /** The first of the first `n` paths whose file name is one of `names`. */
  function First(files: seq<string>, names: set<string>, n: nat): (r: Option<string>)
    requires n <= |files|
    ensures r.Some? <==> exists i :: 0 <= i < n && Lower(GetFilename(files[i])) in names
  {
    if n == 0 then None
    else
      var earlier := First(files, names, n - 1);
      if earlier.Some? then earlier
      else if Lower(GetFilename(files[n - 1])) in names then Some(files[n - 1]) else None
  }

  /** It is the first of them that is kept. */
  lemma {:induction false} FirstIsFirst(files: seq<string>, names: set<string>, n: nat, i: nat)
    requires i < n <= |files| && Lower(GetFilename(files[i])) in names
    requires forall j :: 0 <= j < i ==> Lower(GetFilename(files[j])) !in names
    ensures First(files, names, n) == Some(files[i])
  {
    hide Lower, GetFilename;
    if i < n - 1 {
      FirstIsFirst(files, names, n - 1, i);
    }
  }

  /** Which image file the scan keeps. */
  function WimKept(files: seq<string>, n: nat): Option<string>
    requires n <= |files|
  {
    First(files, {"install.wim", "boot.wim"}, n)
  }

  /** An install.wim is listed that has no boot.wim in front of it. */
  ghost predicate InstallFirst(files: seq<string>, n: nat)
    requires n <= |files|
  {
    exists i :: 0 <= i < n && Named(files[i], "install.wim") && forall j :: 0 <= j < i ==> !Named(files[j], "boot.wim")
  }

  /** An install.wim is kept exactly when no boot.wim is listed before it; it is not preferred as such. */
  lemma {:induction false} InstallWimKeptExactly(files: seq<string>, n: nat)
    requires n <= |files|
    ensures WimKept(files, n).Some? && Named(WimKept(files, n).value, "install.wim") <==> InstallFirst(files, n)
    ensures WimKept(files, n).None? ==>
              forall i :: 0 <= i < n ==> !Named(files[i], "install.wim") && !Named(files[i], "boot.wim")
    ensures WimKept(files, n).Some? && !Named(WimKept(files, n).value, "install.wim") ==>
              exists j :: 0 <= j < n && Named(files[j], "boot.wim")
                          && forall i :: 0 <= i < j ==> !Named(files[i], "install.wim")
  {
    hide Lower, GetFilename;
    if n > 0 {
      InstallWimKeptExactly(files, n - 1);
    }
  }

  /** A listing with both, in which boot.wim is kept. */
  lemma BootWimKept()
    ensures var files := ["boot.wim", "install.wim"]; WimKept(files, 2) == Some("boot.wim") && !InstallFirst(files, 2)
  {
    var files := ["boot.wim", "install.wim"];
    assert LastIndexOf("boot.wim", '/') == -1;
    assert Lower(GetFilename("boot.wim")) == "boot.wim";
    InstallWimKeptExactly(files, 2);
  }

  /** The windows_version_t values the scan can give. */
  datatype Version = UnknownVersion | Windows7 | Windows10 | Windows11 | WindowsPe

  datatype BootInfo = BootInfo(bootmgr: Option<string>, wim: Option<string>, esd: Option<string>,
                               x64: Option<string>, ia32: Option<string>, aa64: Option<string>,
                               version: Version, mode: BootMode)

  function Keep(found: Option<string>, path: string): Option<string> {
    if found.Some? then found else Some(path)
  }

  /** What is kept for these names once this path has been looked at, too. */
  function Seen(found: Option<string>, path: string, names: set<string>): Option<string> {
    if Lower(GetFilename(path)) in names then Keep(found, path) else found
  }

  lemma FirstStep(files: seq<string>, names: set<string>, n: nat)
    requires n < |files|
    ensures First(files, names, n + 1) == Seen(First(files, names, n), files[n], names)
  {
  }

  /** One path of the listing. */
  method LookAt(info: BootInfo, path: string, hasInstallWim: bool, hasBootWim: bool)
    returns (now: BootInfo, install: bool, boot: bool)
    ensures now.bootmgr == Seen(info.bootmgr, path, {"bootmgr"})
    ensures now.wim == Seen(info.wim, path, {"install.wim", "boot.wim"})
    ensures now.esd == Seen(info.esd, path, {"install.esd"})
    ensures now.x64 == Seen(info.x64, path, {"bootx64.efi"})
    ensures now.ia32 == Seen(info.ia32, path, {"bootia32.efi"})
    ensures now.aa64 == Seen(info.aa64, path, {"bootaa64.efi"})
    ensures now.version == info.version && now.mode == info.mode
    ensures install == (hasInstallWim || Named(path, "install.wim")) && boot == (hasBootWim || Named(path, "boot.wim"))
  {
    hide Lower, GetFilename;
    now, install, boot := info, hasInstallWim, hasBootWim;
    var name := Lower(GetFilename(path));
    if name == "bootmgr" {
      now := now.(bootmgr := Keep(now.bootmgr, path));
    }
    if name == "install.wim" {
      install := true;
      now := now.(wim := Keep(now.wim, path));
    }
    if name == "boot.wim" {
      boot := true;
      now := now.(wim := Keep(now.wim, path));
    }
    if name == "install.esd" {
      now := now.(esd := Keep(now.esd, path));
    }
    if name == "bootx64.efi" {
      now := now.(x64 := Keep(now.x64, path));
    }
    if name == "bootia32.efi" {
      now := now.(ia32 := Keep(now.ia32, path));
    }
    if name == "bootaa64.efi" {
      now := now.(aa64 := Keep(now.aa64, path));
    }
  }

  /** detect_windows_version_internal without the BCD path, which nothing decides on. */
  method DetectWindows(files: seq<string>) returns (result: IsoResult, info: BootInfo)
    ensures result == FileNotFound <==> files == []
    ensures result in {IsoOk, FileNotFound, NoBootInfo}
    ensures info.bootmgr == First(files, {"bootmgr"}, |files|)
    ensures info.wim == First(files, {"install.wim", "boot.wim"}, |files|)
    ensures info.esd == First(files, {"install.esd"}, |files|)
    ensures info.x64 == First(files, {"bootx64.efi"}, |files|)
    ensures info.ia32 == First(files, {"bootia32.efi"}, |files|)
    ensures info.aa64 == First(files, {"bootaa64.efi"}, |files|)
    ensures result == IsoOk <==> info.bootmgr.Some? || info.x64.Some? || info.ia32.Some? || info.aa64.Some?
    ensures info.mode == if info.x64.Some? || info.ia32.Some? || info.aa64.Some? then Uefi else Bios
    ensures info.version ==
            if info.esd.Some? then Windows11
            else if First(files, {"install.wim"}, |files|).Some? then Windows10
            else if info.wim.Some? then WindowsPe
            else if info.bootmgr.Some? then Windows7 else UnknownVersion
  {
    hide Lower, GetFilename;
    info := BootInfo(None, None, None, None, None, None, UnknownVersion, Bios);
    if |files| == 0 {
      return FileNotFound, info;
    }
    var hasInstallWim, hasBootWim := false, false;
    for i := 0 to |files|
      invariant info.bootmgr == First(files, {"bootmgr"}, i)
      invariant info.wim == First(files, {"install.wim", "boot.wim"}, i)
      invariant hasInstallWim == First(files, {"install.wim"}, i).Some?
      invariant info.wim.Some? == (hasInstallWim || hasBootWim)
      invariant info.esd == First(files, {"install.esd"}, i)
      invariant info.x64 == First(files, {"bootx64.efi"}, i)
      invariant info.ia32 == First(files, {"bootia32.efi"}, i)
      invariant info.aa64 == First(files, {"bootaa64.efi"}, i)
      invariant info.version == UnknownVersion && info.mode == Bios
    {
      info, hasInstallWim, hasBootWim := LookAt(info, files[i], hasInstallWim, hasBootWim);
    }
    if info.esd.Some? {
      info := info.(version := Windows11);
    } else if hasInstallWim {
      info := info.(version := Windows10);
    } else if hasBootWim {
      info := info.(version := WindowsPe);
    } else if info.bootmgr.Some? {
      info := info.(version := Windows7);
    }
    if info.x64.Some? || info.ia32.Some? || info.aa64.Some? {
      info := info.(mode := Uefi);
    }
    if info.bootmgr.None? && info.x64.None? && info.ia32.None? && info.aa64.None? {
      return NoBootInfo, info;
    }
    result := IsoOk;
  }

  /** The listing has a boot file that the wrapper around the scan accepts too. */
  ghost predicate BootsElsewhere(files: seq<string>) {
    exists i :: 0 <= i < |files| && Lower(GetFilename(files[i])) in {"bootmgr", "bootx64.efi", "bootia32.efi"}
  }

  ghost predicate BootsOnArm(files: seq<string>) {
    exists i :: 0 <= i < |files| && Named(files[i], "bootaa64.efi")
  }

  /**
    detect_windows_version_detailed: a listing that failed for the reason `why`, or what the scan
    makes of it. An image that boots on 64-bit ARM only is accepted by the scan and then refused.
   */
  method DetectDetailed(listing: Option<seq<string>>, why: IsoResult) returns (result: IsoResult, ghost scanned: bool)
    requires why != IsoOk
    ensures listing.None? ==> result == why
    ensures listing.Some? ==> result == if BootsElsewhere(listing.value) then IsoOk else NoBootInfo
    ensures scanned <==> listing.Some? && (BootsElsewhere(listing.value) || BootsOnArm(listing.value))
  {
    scanned := false;
    if listing.None? {
      return why, scanned;
    }
    var files := listing.value;
    if |files| == 0 {
      return NoBootInfo, scanned;
    }
    var info;
    result, info := DetectWindows(files);
    scanned := result == IsoOk;
    FirstOfThree(files);
    FirstOnArm(files);
    if result == IsoOk && info.bootmgr.None? && info.x64.None? && info.ia32.None? {
      result := NoBootInfo;
    }
  }

  lemma FirstOfThree(files: seq<string>)
    ensures BootsElsewhere(files) <==>
            || First(files, {"bootmgr"}, |files|).Some? || First(files, {"bootx64.efi"}, |files|).Some?
            || First(files, {"bootia32.efi"}, |files|).Some?
  {
    hide Lower, GetFilename, First;
  }

  lemma FirstOnArm(files: seq<string>)
    ensures BootsOnArm(files) <==> First(files, {"bootaa64.efi"}, |files|).Some?
  {
    hide Lower, GetFilename, First;
  }

  /** An image for 64-bit ARM: the scan accepts it and the wrapper does not. */
  lemma ArmRefused()
    ensures var files := ["bootaa64.efi"]; BootsOnArm(files) && !BootsElsewhere(files)
  {
    PlainName();
    hide Lower, GetFilename;
    assert Named(["bootaa64.efi"][0], "bootaa64.efi");
  }

  lemma PlainName()
    ensures Lower(GetFilename("bootaa64.efi")) == "bootaa64.efi"
  {
    PlainLetters();
    PlainStays("bootaa64.efi");
  }

  lemma PlainLetters()
    ensures forall c :: c in "bootaa64.efi" ==> c != '/' && !('A' <= c <= 'Z')
  {
  }

  lemma PlainStays(s: string)
    requires forall c :: c in s ==> c != '/' && !('A' <= c <= 'Z')
    ensures Lower(GetFilename(s)) == s
  {
    assert forall i :: 0 <= i < |s| ==> s[i] in s;
  }

  /** Whatever the detailed scan accepts, the first scan has already called Windows. */
  lemma DetailedImpliesWindows(files: seq<string>, names: set<string>)
    requires forall f :: f in files ==> f in names
    requires exists n, i :: n in {"bootmgr", "bootx64.efi", "bootia32.efi", "bootaa64.efi"}
                         && 0 <= i < |files| && Named(files[i], n)
    ensures Judge(names).os == Windows && Judge(names).hasBoot
  {
    var n, i :| n in {"bootmgr", "bootx64.efi", "bootia32.efi", "bootaa64.efi"}
             && 0 <= i < |files| && Named(files[i], n);
    NamedContains(files[i], n);
    assert files[i] in names && WindowsFile(files[i]);
  }
}
