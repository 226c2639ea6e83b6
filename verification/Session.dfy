/** The write session itself: an object whose methods follow the model call by call. */
module Session {
  import opened CStrings
  import opened FileTrees
  import opened IsoExtract
  import opened UdfExtract
  import opened IsoDetect
  import opened Devices
  import opened PartitionPlan
  import opened MountOps
  import opened SessionModel
  import Guard = WipeGuard

  // ---------- the script of a write run ----------

  /** What the boot stage depends on: the system, the install type, and whether any flag is set. */
  datatype Config = Config(os: OsType, option: ImageOption, flagsSet: bool)

  const OPENING: seq<Op> := [
    ValidateDevice, CheckNotMounted, WipeGuard, CommitTable, FormatFat, FormatNtfs,
    MakeTempDirs, MountFat, MountNtfs, ExtractIso]

  const CLOSING: seq<Op> := [SyncFat, SyncNtfs, Unmount]

  /** Whether an answer file is injected at step 10. */
  predicate Injects(c: Config) {
    c.option != WinToGo || c.flagsSet
  }

  /** The boot steps; `detected` says whether the detailed Windows scan succeeded. */
  function BootSteps(c: Config, detected: bool): seq<Op> {
    if c.os == Linux then [SetupLinuxBoot]
    else
      (if c.option != WinToGo || c.flagsSet then [InjectUnattend] else [])
      + (if c.option == WinToGo then [InjectWinToGo] else [])
      + [DetectWindows]
      + (if detected then [SetupWindowsBoot] else [])
      + [InstallUefiNtfs]
  }

  function Script(c: Config, detected: bool): seq<Op> {
    OPENING + BootSteps(c, detected) + CLOSING
  }

  ghost predicate Opens(script: seq<Op>) {
    OPENING <= script
  }

  lemma OpeningSteps(script: seq<Op>)
    requires Opens(script)
    ensures |script| >= 10
    ensures script[0] == ValidateDevice && script[1] == CheckNotMounted && script[2] == WipeGuard
    ensures script[3] == CommitTable && script[4] == FormatFat && script[5] == FormatNtfs
    ensures script[6] == MakeTempDirs && script[7] == MountFat && script[8] == MountNtfs
    ensures script[9] == ExtractIso
  {
  }

  lemma FormatSteps(script: seq<Op>)
    requires Opens(script)
    ensures |script| > 5 && script[4] == FormatFat && script[5] == FormatNtfs
  {
    OpeningSteps(script);
  }

  lemma ExtractStep(script: seq<Op>)
    requires Opens(script)
    ensures |script| > 9 && script[9] == ExtractIso
  {
    OpeningSteps(script);
  }

  lemma ScriptShape(c: Config, detected: bool)
    ensures Opens(Script(c, detected)) && |Script(c, detected)| > 13 && Script(c, detected)[9] == ExtractIso
  {
  }

  /** Where the detailed Windows scan stands in the script. */
  function DetectAt(c: Config): nat {
    10 + (if Injects(c) then 1 else 0) + (if c.option == WinToGo then 1 else 0)
  }

  /** Where the later steps stand in the script. */
  lemma LaterSteps(c: Config, detected: bool)
    ensures var s := Script(c, detected);
            var b := DetectAt(c); var e := if c.os == Linux then 11 else if detected then b + 3 else b + 2;
            && Opens(s) && |s| == e + 3
            && (c.os == Linux ==> s[10] == SetupLinuxBoot)
            && (c.os != Linux ==>
                  && (Injects(c) ==> s[10] == InjectUnattend)
                  && (c.option == WinToGo ==> s[b - 1] == InjectWinToGo)
                  && s[b] == DetectWindows && (detected ==> s[b + 1] == SetupWindowsBoot)
                  && s[e - 1] == InstallUefiNtfs)
            && s[e] == SyncFat && s[e + 1] == SyncNtfs && s[e + 2] == Unmount
    ensures c.os != Linux ==> (SetupWindowsBoot in Script(c, detected) <==> detected)
  {
  }

  lemma ClosingSteps(c: Config, detected: bool)
    ensures var s := Script(c, detected);
            |s| >= 13 && s[|s| - 3] == SyncFat && s[|s| - 2] == SyncNtfs && s[|s| - 1] == Unmount
  {
  }

  /** A failure of the other steps ends the run. */
  predicate Fatal(op: Op) {
    op != DetectWindows && op != SyncFat && op != SyncNtfs
  }

  predicate Destructive(op: Op) {
    op != ValidateDevice && op != CheckNotMounted && op != WipeGuard
  }

  function ErrorOf(op: Op, cancelled: bool): string {
    match op
    case ValidateDevice => "E-00-G"
    case CheckNotMounted => "E-01-D"
    case WipeGuard => "E-20-A"
    case CommitTable => "E-20-A"
    case FormatFat => "E-21-A"
    case FormatNtfs => "E-21-B"
    case MakeTempDirs => "E-50-B"
    case MountFat => "E-22-A"
    case MountNtfs => "E-22-A"
    case ExtractIso => if cancelled then "E-30-C" else "E-30-A"
    case InjectUnattend => "E-40-D"
    case InjectWinToGo => "E-40-C"
    case SetupWindowsBoot => "E-40-A"
    case InstallUefiNtfs => "E-41-A"
    case SetupLinuxBoot => "E-40-B"
    case Unmount => "E-22-B"
    case _ => ""
  }

  /** The order in which steps are taken, whichever of them are. */
  function Rank(op: Op): nat {
    match op
    case ValidateDevice => 0
    case CheckNotMounted => 1
    case WipeGuard => 2
    case CommitTable => 3
    case FormatFat => 4
    case FormatNtfs => 5
    case MakeTempDirs => 6
    case MountFat => 7
    case MountNtfs => 8
    case ExtractIso => 9
    case InjectUnattend => 10
    case InjectWinToGo => 11
    case DetectWindows => 12
    case SetupWindowsBoot => 13
    case InstallUefiNtfs => 14
    case SetupLinuxBoot => 15
    case SyncFat => 16
    case SyncNtfs => 17
    case Unmount => 18
  }

  predicate IsBootStep(op: Op) {
    10 <= Rank(op) <= 15
  }

  ghost predicate Ascends(ops: seq<Op>, low: nat, high: nat) {
    && (forall i :: 0 <= i < |ops| ==> low <= Rank(ops[i]) < high)
    && (forall i, j :: 0 <= i < j < |ops| ==> Rank(ops[i]) < Rank(ops[j]))
  }

  lemma FramingAscends()
    ensures Ascends(OPENING, 0, 10) && Ascends(CLOSING, 16, 19)
  {
    assert forall i :: 0 <= i < 10 ==> Rank(OPENING[i]) == i;
  }

  lemma AnswersAscend(c: Config)
    ensures Ascends((if Injects(c) then [InjectUnattend] else [])
                    + (if c.option == WinToGo then [InjectWinToGo] else []) + [DetectWindows], 10, 13)
  {
  }

  lemma LoadersAscend(detected: bool)
    ensures Ascends((if detected then [SetupWindowsBoot] else []) + [InstallUefiNtfs], 13, 16)
  {
  }

  lemma BootAscends(c: Config, detected: bool)
    ensures Ascends(BootSteps(c, detected), 10, 16)
  {
    AnswersAscend(c);
    LoadersAscend(detected);
    assert Ascends([SetupLinuxBoot], 10, 16);
    var answers := (if Injects(c) then [InjectUnattend] else [])
      + (if c.option == WinToGo then [InjectWinToGo] else []) + [DetectWindows];
    var loaders := (if detected then [SetupWindowsBoot] else []) + [InstallUefiNtfs];
    hide Ascends, Rank;
    AscendsBoth(answers, loaders, 10, 13, 16);
    assert c.os != Linux ==> BootSteps(c, detected) == answers + loaders;
  }

  lemma AscendsBoth(a: seq<Op>, b: seq<Op>, low: nat, middle: nat, high: nat)
    requires low <= middle <= high && Ascends(a, low, middle) && Ascends(b, middle, high)
    ensures Ascends(a + b, low, high)
  {
    hide Rank;
  }

  /** Which boot steps there are. */
  lemma BootExactly(c: Config, detected: bool)
    ensures var s := BootSteps(c, detected);
            && (InjectUnattend in s <==> c.os != Linux && (c.option != WinToGo || c.flagsSet))
            && (InjectWinToGo in s <==> c.os != Linux && c.option == WinToGo)
            && (DetectWindows in s <==> c.os != Linux) && (InstallUefiNtfs in s <==> c.os != Linux)
            && (SetupWindowsBoot in s <==> c.os != Linux && detected)
            && (SetupLinuxBoot in s <==> c.os == Linux)
  {
  }

  lemma OnlyBoot(c: Config, detected: bool, op: Op)
    requires IsBootStep(op)
    ensures op in Script(c, detected) <==> op in BootSteps(c, detected)
  {
    FramingAscends();
    hide Rank, BootSteps;
  }

  /** Each step is in the script exactly when it should be, once, and in this order. */
  lemma StepsExactly(c: Config, detected: bool)
    ensures var s := Script(c, detected);
            && (InjectUnattend in s <==> c.os != Linux && (c.option != WinToGo || c.flagsSet))
            && (InjectWinToGo in s <==> c.os != Linux && c.option == WinToGo)
            && (DetectWindows in s <==> c.os != Linux) && (InstallUefiNtfs in s <==> c.os != Linux)
            && (SetupWindowsBoot in s <==> c.os != Linux && detected)
            && (SetupLinuxBoot in s <==> c.os == Linux)
    ensures Ascends(Script(c, detected), 0, 19)
  {
    BootExactly(c, detected);
    BootAscends(c, detected);
    FramingAscends();
    assert IsBootStep(InjectUnattend) && IsBootStep(InjectWinToGo) && IsBootStep(DetectWindows);
    assert IsBootStep(InstallUefiNtfs) && IsBootStep(SetupWindowsBoot) && IsBootStep(SetupLinuxBoot);
    hide BootSteps, IsBootStep, Ascends;
    AscendsBoth(OPENING, BootSteps(c, detected), 0, 10, 16);
    AscendsBoth(OPENING + BootSteps(c, detected), CLOSING, 0, 16, 19);
    forall op | IsBootStep(op)
      ensures op in Script(c, detected) <==> op in BootSteps(c, detected)
    {
      OnlyBoot(c, detected, op);
    }
    hide Script;
  }

  /** The code that a failure of each step ends the run with. */
  lemma CodesOfSteps(c: Config, detected: bool, n: nat, cancelled: bool)
    requires n < |Script(c, detected)|
    ensures var op := Script(c, detected)[n]; var code := ErrorOf(op, cancelled);
            && (n == 0 ==> code == "E-00-G") && (n == 1 ==> code == "E-01-D")
            && (n == 2 || n == 3 ==> code == "E-20-A")
            && (n == 4 ==> code == "E-21-A") && (n == 5 ==> code == "E-21-B") && (n == 6 ==> code == "E-50-B")
            && (n == 7 || n == 8 ==> code == "E-22-A")
            && (n == 9 ==> code == if cancelled then "E-30-C" else "E-30-A")
            && (op == InjectUnattend ==> code == "E-40-D") && (op == InjectWinToGo ==> code == "E-40-C")
            && (op == SetupWindowsBoot ==> code == "E-40-A") && (op == InstallUefiNtfs ==> code == "E-41-A")
            && (op == SetupLinuxBoot ==> code == "E-40-B")
            && (n == |Script(c, detected)| - 1 ==> code == "E-22-B")
  {
    var script := Script(c, detected);
    ScriptShape(c, detected);
    OpeningSteps(script);
    ClosingSteps(c, detected);
    hide Script, Opens, ErrorOf;
    GuardCodes(cancelled);
    VolumeCodes(cancelled);
    BootCodes(cancelled);
  }

  lemma GuardCodes(cancelled: bool)
    ensures ErrorOf(ValidateDevice, cancelled) == "E-00-G" && ErrorOf(CheckNotMounted, cancelled) == "E-01-D"
    ensures ErrorOf(WipeGuard, cancelled) == "E-20-A" && ErrorOf(CommitTable, cancelled) == "E-20-A"
    ensures ErrorOf(FormatFat, cancelled) == "E-21-A" && ErrorOf(FormatNtfs, cancelled) == "E-21-B"
  {
  }

  lemma VolumeCodes(cancelled: bool)
    ensures ErrorOf(MakeTempDirs, cancelled) == "E-50-B"
    ensures ErrorOf(MountFat, cancelled) == "E-22-A" && ErrorOf(MountNtfs, cancelled) == "E-22-A"
    ensures ErrorOf(ExtractIso, cancelled) == if cancelled then "E-30-C" else "E-30-A"
  {
  }

  lemma BootCodes(cancelled: bool)
    ensures ErrorOf(InjectUnattend, cancelled) == "E-40-D" && ErrorOf(InjectWinToGo, cancelled) == "E-40-C"
    ensures ErrorOf(SetupWindowsBoot, cancelled) == "E-40-A" && ErrorOf(InstallUefiNtfs, cancelled) == "E-41-A"
    ensures ErrorOf(SetupLinuxBoot, cancelled) == "E-40-B" && ErrorOf(Unmount, cancelled) == "E-22-B"
  {
  }

  /** A run goes on after a failure of the Windows scan and of the two syncs behind the last boot step, and of no other. */
  lemma FatalExactly(c: Config, detected: bool, n: nat)
    requires n < |Script(c, detected)|
    ensures var s := Script(c, detected);
            !Fatal(s[n]) <==> s[n] == DetectWindows || n == |s| - 3 || n == |s| - 2
  {
    StepsExactly(c, detected);
    ClosingSteps(c, detected);
    var s := Script(c, detected);
    hide Script;
    assert n < |s| - 3 ==> Rank(s[n]) < Rank(s[|s| - 3]);
  }

  /**
    The trace is the first `n` steps of the script, with no fatal failure among them, and the Windows
    scan is recorded as the script has it.
   */
  ghost predicate Upto(trace: seq<Step>, script: seq<Op>, n: nat) {
    && |trace| == n <= |script|
    && (forall i :: 0 <= i < n ==> trace[i].op == script[i] && (trace[i].ok || !Fatal(script[i])))
    && (forall i :: 0 <= i < n && script[i] == DetectWindows ==> trace[i].ok == (SetupWindowsBoot in script))
  }

  /** The trace is the first `n` steps and then a failure of the next one, which is fatal. */
  ghost predicate FailedAt(trace: seq<Step>, script: seq<Op>, n: nat) {
    && |trace| == n + 1 <= |script| && Upto(trace[..n], script, n)
    && trace[n] == Step(script[n], false) && Fatal(script[n])
  }

  lemma UptoNone(script: seq<Op>)
    ensures Upto([], script, 0)
  {
  }

  lemma NextStep(trace: seq<Step>, script: seq<Op>, n: nat, s: Step)
    requires Upto(trace, script, n) && n < |script| && s.op == script[n]
    requires s.op == DetectWindows ==> s.ok == (SetupWindowsBoot in script)
    ensures s.ok || !Fatal(s.op) ==> Upto(trace + [s], script, n + 1)
    ensures !s.ok && Fatal(s.op) ==> FailedAt(trace + [s], script, n)
  {
  }

  /** A trace follows its script, with nothing fatal in front of its end. */
  lemma Follows(trace: seq<Step>, script: seq<Op>, n: nat, i: nat)
    requires (Upto(trace, script, n) || FailedAt(trace, script, n)) && i < |trace|
    ensures i < |script| && trace[i].op == script[i]
    ensures i < n ==> trace[i].ok || !Fatal(script[i])
  {
    if FailedAt(trace, script, n) && i < n {
      assert trace[..n][i] == trace[i];
    }
  }

  lemma GuardsFirst(c: Config, detected: bool)
    ensures var s := Script(c, detected);
            |s| > 3 && s[0] == ValidateDevice && s[1] == CheckNotMounted && s[2] == WipeGuard
  {
  }

  /** In every run, nothing is written before all three guards of that run have passed. */
  lemma GuardsBeforeDamage(trace: seq<Step>, c: Config, detected: bool, n: nat, i: nat)
    requires Upto(trace, Script(c, detected), n) || FailedAt(trace, Script(c, detected), n)
    requires i < |trace| && Destructive(trace[i].op)
    ensures i > 2 && trace[0] == Step(ValidateDevice, true)
         && trace[1] == Step(CheckNotMounted, true) && trace[2] == Step(WipeGuard, true)
  {
    var script := Script(c, detected);
    GuardsFirst(c, detected);
    Lengths(trace, script, n);
    hide Script, Upto, FailedAt;
    Follows(trace, script, n, i);
    if i > 2 {
      Follows(trace, script, n, 0);
      Follows(trace, script, n, 1);
      Follows(trace, script, n, 2);
    }
  }

  lemma Lengths(trace: seq<Step>, script: seq<Op>, n: nat)
    requires Upto(trace, script, n) || FailedAt(trace, script, n)
    ensures n <= |trace| <= n + 1
  {
  }

  /** Some step of the run changes the disk. */
  ghost predicate Changes(trace: seq<Step>) {
    exists i :: 0 <= i < |trace| && Destructive(trace[i].op)
  }

  /** Then it has come past the third step. */
  lemma ChangesComeLate(trace: seq<Step>, c: Config, detected: bool, n: nat)
    requires Upto(trace, Script(c, detected), n) || FailedAt(trace, Script(c, detected), n)
    requires Changes(trace)
    ensures n > 2
  {
    hide Script, Destructive;
    var i :| 0 <= i < |trace| && Destructive(trace[i].op);
    GuardsBeforeDamage(trace, c, detected, n, i);
    Lengths(trace, Script(c, detected), n);
  }

  /** No boot step is taken in a run whose extraction did not succeed. */
  lemma NoBootWithoutExtraction(trace: seq<Step>, c: Config, detected: bool, n: nat, i: nat)
    requires FailedAt(trace, Script(c, detected), n) && n <= 9
    requires i < |trace|
    ensures trace[i].op in OPENING
  {
    var script := Script(c, detected);
    ScriptShape(c, detected);
    Lengths(trace, script, n);
    assert script[i] == OPENING[i];
    hide Script, Upto, FailedAt, Opens;
    Follows(trace, script, n, i);
  }

  // ---------- what a run is given ----------

  /** How extraction finds the image: not at all, as ISO 9660, or as UDF. */
  datatype Source =
    | Unreadable(why: IsoResult)
    | Iso9660(entries: seq<Entry>, endsAtEof: bool, total: nat)
    | Udf(total: nat, initial: Option<nat>, readings: seq<Option<nat>>, copyOk: bool)

  /** An image that opened is not empty, and an early exit is not a success. */
  predicate SourceOk(s: Source) {
    match s
    case Unreadable(why) => why != IsoOk
    case Iso9660(_, _, total) => total > 0
    case Udf(_, _, _, _) => true
  }

  /** The tree a fresh volume shows once mounted: the way to its root and nothing else. */
  function FreshVolume(m: Path): (nodes: map<Path, Node>)
    ensures PrefixDirs(nodes, m) && Rooted(nodes)
    ensures forall p :: p in nodes ==> p <= m && nodes[p] == Dir
  {
    if m == [] then map[m := Dir]
    else
      var nodes := FreshVolume(m[..|m| - 1])[m := Dir];
      assert PrefixDirs(nodes, m) by {
        forall p | p <= m
          ensures p in nodes && nodes[p] == Dir
        {
          assert p == m || p <= m[..|m| - 1];
        }
      }
      nodes
  }

  /** The image on a volume that was fresh: delivered, and exactly so if it is a tidy one and nothing was refused. */
  ghost predicate Arrived(entries: seq<Entry>, mount: string, volume: FileTree)
    reads volume
  {
    var fresh_, denied := FreshVolume(Resolve(mount)), volume.Denied(0);
    && Delivered(entries, mount, |entries|, fresh_, volume.nodes, denied)
    && (Tidy(entries, mount, fresh_) && !denied ==> Exactly(entries, mount, fresh_, volume.nodes))
  }

  lemma ArrivesExactly(entries: seq<Entry>, mount: string, volume: FileTree)
    requires mount != "" && mount[0] == '/' && Rooted(volume.nodes)
    requires Delivered(entries, mount, |entries|, FreshVolume(Resolve(mount)), volume.nodes, volume.Denied(0))
    requires Explained(entries, mount, |entries|, FreshVolume(Resolve(mount)), volume.nodes)
    ensures Arrived(entries, mount, volume)
  {
    var fresh_ := FreshVolume(Resolve(mount));
    assert forall p :: p in fresh_ ==> !Leaf(fresh_, p);
    hide Tidy, Exactly, Delivered, Explained, Rooted, FreshVolume;
    if Tidy(entries, mount, fresh_) && !volume.Denied(0) {
      DeliveredExactly(entries, mount, fresh_, volume.nodes);
    }
  }

  /** An image that nothing keeps from being unpacked. */
  ghost predicate Easy(source: Source, mount: string, answers: nat -> bool) {
    match source
    case Unreadable(_) => false
    case Iso9660(entries, endsAtEof, _) =>
      endsAtEof && Smooth(entries, mount, FreshVolume(Resolve(mount))) && forall k :: answers(k)
    case Udf(total, _, _, copyOk) => total > 0 && copyOk
  }

  /** The case of an ISO 9660 image. */
  method ExtractIso9660(tree: FileTree, flag: CancelFlag, mount: string, entries: seq<Entry>, endsAtEof: bool, total: nat)
    returns (result: IsoResult)
    requires total > 0 && mount != "" && mount[0] == '/' && flag.Valid()
    requires tree.nodes == FreshVolume(Resolve(mount)) && tree.refused == {} && tree.clock == 0
    modifies tree, flag
    ensures flag.Valid() && (old(flag.cancelled) ==> flag.cancelled)
    ensures ClearButLast(old(flag.log), flag.log, old(flag.cancelled))
    ensures result != IsoOk ==> forall p :: Leaf(tree.nodes, p) && Resolve(mount) <= p ==> p in tree.refused
    ensures result == IsoOk ==> endsAtEof && Arrived(entries, mount, tree)
    ensures result == IsoOk ==> |flag.log| - |old(flag.log)| == |Reports(entries, mount, total, |entries|)| + 1
    ensures old(Quiet(flag)) ==>
              Quiet(flag) && (Easy(Iso9660(entries, endsAtEof, total), mount, tree.answers) ==> result == IsoOk)
  {
    ghost var b := Begin(tree, flag);
    var reports;
    ghost var stop;
    hide FreshVolume, Delivered, Explained, Steady, Reports, Hindered, Rooted, ClearButLast;
    result, reports, stop := Extract(tree, flag, mount, entries, endsAtEof, total);
    FlagMeans(flag, b, |reports|);
    if result == IsoOk {
      ArrivesExactly(entries, mount, tree);
    }
    if !b.wasSet && forall k :: !flag.schedule(k) {
      QuietUnseen(flag, b, |reports|);
    }
  }

  method ExtractToMountpoint(tree: FileTree, flag: CancelFlag, mount: string, source: Source)
    returns (result: IsoResult)
    requires SourceOk(source) && mount != "" && mount[0] == '/' && flag.Valid()
    requires tree.nodes == FreshVolume(Resolve(mount)) && tree.refused == {} && tree.clock == 0
    modifies tree, flag
    ensures flag.Valid() && (old(flag.cancelled) ==> flag.cancelled)
    ensures ClearButLast(old(flag.log), flag.log, old(flag.cancelled))
    ensures source.Iso9660? && result != IsoOk ==>
              forall p :: Leaf(tree.nodes, p) && Resolve(mount) <= p ==> p in tree.refused
    ensures source.Iso9660? && result == IsoOk ==>
              source.endsAtEof && Arrived(source.entries, mount, tree)
    ensures source.Udf? ==>
              (result == IsoOk <==>
                 && source.total > 0 && source.copyOk
                 && true !in flag.log[|old(flag.log)|..] && |flag.log| - |old(flag.log)| == |source.readings|)
    ensures source.Unreadable? ==> result != IsoOk
    // An easy image is unpacked if nobody cancels.
    ensures old(Quiet(flag)) ==> Quiet(flag) && (Easy(source, mount, tree.answers) ==> result == IsoOk)
    ensures source.Iso9660? && result == IsoOk ==>
              |flag.log| - |old(flag.log)| == |Reports(source.entries, mount, source.total, |source.entries|)| + 1
  {
    match source {
      case Unreadable(why) =>
        result := why;
      case Iso9660(entries, endsAtEof, total) =>
        result := ExtractIso9660(tree, flag, mount, entries, endsAtEof, total);
      case Udf(total, initial, readings, copyOk) =>
        if total == 0 {
          result := ExtractFailed;
        } else {
          ghost var b := Noted(flag);
          var reports, copied;
          result, reports, copied := Watch(flag, total, initial, readings, copyOk);
          if !b.wasSet && forall k :: !flag.schedule(k) {
            QuietUnseen(flag, b, |reports|);
          }
        }
    }
  }

  /** Takes a step of the script and sees where that leaves the trace. */
  method Take(m: Machine, ghost script: seq<Op>, ghost n: nat, op: Op) returns (ok: bool)
    requires Upto(m.trace, script, n) && n < |script| && script[n] == op != DetectWindows
    modifies m`clock, m`trace
    ensures m.trace == old(m.trace) + [Step(op, ok)] && ok == m.answers(old(m.clock)) && m.clock == old(m.clock) + 1
    ensures ok || !Fatal(op) ==> Upto(m.trace, script, n + 1)
    ensures !ok && Fatal(op) ==> FailedAt(m.trace, script, n)
  {
    ghost var before := m.trace;
    ok := m.Do(op);
    NextStep(before, script, n, Step(op, ok));
  }

  method Record(m: Machine, ghost script: seq<Op>, ghost n: nat, op: Op, ok: bool)
    requires Upto(m.trace, script, n) && n < |script| && script[n] == op
    requires op == DetectWindows ==> ok == (SetupWindowsBoot in script)
    modifies m`trace
    ensures m.trace == old(m.trace) + [Step(op, ok)]
    ensures ok || !Fatal(op) ==> Upto(m.trace, script, n + 1)
    ensures !ok && Fatal(op) ==> FailedAt(m.trace, script, n)
  {
    NextStep(m.trace, script, n, Step(op, ok));
    m.Note(op, ok);
  }

  /** Every step succeeded, but for the Windows scan if that fails. */
  ghost predicate AllWell(trace: seq<Step>, windowsScan: bool) {
    forall i :: 0 <= i < |trace| ==> (trace[i].ok <==> trace[i].op != DetectWindows || windowsScan)
  }

  /** Which steps are not fatal, and where they stand. */
  lemma Lenient(c: Config, detected: bool, i: nat)
    requires i < |Script(c, detected)|
    ensures var op := Script(c, detected)[i];
            && (op == SyncFat || op == SyncNtfs ==> i == |Script(c, detected)| - 3 || i == |Script(c, detected)| - 2)
            && (op == DetectWindows ==> (SetupWindowsBoot in Script(c, detected) <==> detected))
  {
  }

  lemma WholeTrace(trace: seq<Step>, c: Config, detected: bool)
    requires var s := Script(c, detected); |s| >= 3 && Upto(trace, s, |s|) && trace[|s| - 3].ok && trace[|s| - 2].ok
    ensures AllWell(trace, detected)
  {
    hide Script;
    forall i | 0 <= i < |trace|
      ensures trace[i].ok <==> trace[i].op != DetectWindows || detected
    {
      Lenient(c, detected, i);
    }
  }

  /** What execute relies on, and what it leaves. */
  lemma ReadyToWrite(v: View, log: seq<bool>, isSet: bool)
    requires Safe(v)
    ensures ClearButLast(log, log, isSet)
    ensures |v.selected| <= 63 && forall d :: d in v.devices ==> WellListed(d)
    ensures v.state == Prepared ==> Listed(v.devices, v.selected) && v.os != UnknownOs
    ensures Safe(Fail(v, "E-51-B")) && forall failure :: Safe(AfterExecute(v, failure))
  {
  }

  class WriteSession {
    var state: SessionState
    var error: string
    var os: OsType
    var isoPath: string
    var devices: seq<Device>
    var selected: string
    var option: ImageOption
    var unattendFlags: int
    ghost var measured: nat
    const machine: Machine
    const flag: CancelFlag
    const ctx: MountContext
    /** The data volume of the last run that mounted one, as extraction left it. */
    var volume: FileTree?

    ghost function Now(): View
      reads this
    {
      View(state, error, os, isoPath, devices, selected, measured, option, unattendFlags)
    }

    ghost predicate Valid()
      reads this, machine, flag, ctx
    {
      Safe(Now()) && machine.Valid() && flag.Valid() && ctx.Valid()
    }

    function Settings(): Config
      reads this
    {
      Config(os, option, unattendFlags != 0)
    }

    constructor (answers: nat -> bool, schedule: nat -> bool)
      ensures Valid() && Now() == INITIAL && fresh(machine) && fresh(flag) && fresh(ctx)
      ensures machine.dirs == {} && machine.mounts == {} && !flag.cancelled
    {
      state, error, os, isoPath, devices, selected := Created, "", UnknownOs, "", [], "";
      option, unattendFlags, measured, volume := Standard, 0, 0, null;
      machine := new Machine(answers);
      flag := new CancelFlag(schedule);
      ctx := new MountContext();
    }

    method SetError(code: string)
      modifies this`state, this`error
      ensures Now() == Fail(old(Now()), code)
    {
      error, state := code, Failed;
    }

    /** What enumerate, load and select do with a NULL argument. */
    method Misuse() returns (r: int)
      requires Valid()
      modifies this`state, this`error
      ensures Valid() && Now() == Apply(old(Now()), SessionModel.Call.Misuse) && r == -1
    {
      SetError("E-51-A");
      r := -1;
    }

    /** `scanned` is false when udev cannot be asked at all. */
    method EnumerateDevices(scanned: bool, first: seq<RawDevice>, second: seq<RawDevice>) returns (r: int)
      requires Valid()
      modifies this
      ensures Valid() && r == (if scanned then 0 else -1)
      ensures Now() == AfterEnumerate(old(Now()),
                if scanned then Some(Listing(second)[..Min(Count(first), |Listing(second)|)]) else None)
    {
      devices := [];
      if !scanned {
        SetError("E-00-A");
        return -1;
      }
      devices := Devices.Enumerate(first, second);
      ApplySafe(old(Now()), SessionModel.Call.Enumerate(Some(devices)));
      state := DevicesEnumerated;
      r := 0;
    }

    /** What load finds out about the image: an error code, or none and its system. */
    method InspectIso(iso: IsoFile) returns (code: string, os: OsType)
      ensures code == if iso.Missing? then "E-10-A" else if Detected(iso).None? then "E-10-C" else ""
      ensures code == "" ==> Detected(iso) == Some(os)
    {
      hide Detected;
      if iso.Missing? {
        return "E-10-A", UnknownOs;
      }
      var result, info := DetectOs(iso);
      if result != IsoOk {
        return "E-10-C", UnknownOs;
      }
      if info.os != Windows && info.os != Linux {
        // Detection never succeeds with an unknown system.
        assert false;
      }
      return "", info.os;
    }

    method LoadIsoFile(path: string, iso: IsoFile) returns (r: int)
      requires Valid()
      modifies this
      ensures Valid()
      ensures Now() == AfterLoadIso(old(Now()), path, iso.IsoFile?, Detected(iso))
      ensures r == 0 <==> state == IsoLoaded && old(state) in {Created, DevicesEnumerated}
      ensures r == 0 || r == -1
    {
      hide Detected;
      if state != Created && state != DevicesEnumerated {
        SetError("E-51-B");
        return -1;
      }
      var code, found := InspectIso(iso);
      if code != "" {
        SetError(code);
        return -1;
      }
      os, isoPath, state := found, Truncate(path, 511), IsoLoaded;
      r := 0;
    }

    method SelectDevice(node: string, valid: bool) returns (r: int)
      requires Valid()
      modifies this
      ensures Valid() && Now() == AfterSelect(old(Now()), node, valid)
      ensures r == if state == DeviceSelected then 0 else -1
    {
      ApplySafe(Now(), SessionModel.Call.Select(node, valid));
      if state == Created {
        SetError("E-51-B");
        return -1;
      }
      var found, capacity := FindCapacity(devices, node);
      if !found {
        SetError("E-00-A");
        return -1;
      }
      if !valid {
        SetError("E-00-G");
        return -1;
      }
      selected, state := Truncate(node, 63), DeviceSelected;
      r := 0;
    }

    method PrepareRun(a: PrepareAnswers) returns (r: int)
      requires Valid()
      modifies this
      ensures Valid() && Now() == AfterPrepare(old(Now()), a)
      ensures r == if state == Prepared then 0 else -1
      ensures error == "E-00-D" ==> old(error) == "E-00-D"
    {
      ApplySafe(Now(), SessionModel.Call.Prepare(a));
      if state != DeviceSelected {
        SetError("E-51-B");
        return -1;
      }
      if !a.root {
        SetError("E-01-C");
        return -1;
      }
      if !a.block {
        SetError("E-01-A");
        return -1;
      }
      if isoPath == "" || !a.isoThere {
        SetError("E-10-A");
        return -1;
      }
      var found, capacity := FindCapacity(devices, selected);
      ListedHasCapacity(devices, selected);
      if capacity == 0 {
        // A selected device is listed and no listed device is empty.
        assert false;
      }
      if a.isoSize.None? {
        SetError("E-10-A");
        return -1;
      }
      if capacity < a.isoSize.value {
        SetError("E-00-C");
        return -1;
      }
      state, measured := Prepared, a.isoSize.value;
      r := 0;
    }

    method Cancel()
      requires Valid()
      modifies flag`cancelled
      ensures Valid() && flag.cancelled
    {
      flag.Cancel();
    }

    method SetOptions(option: ImageOption, flags: int)
      requires Valid()
      modifies this`option, this`unattendFlags
      ensures Valid() && Now() == old(Now()).(option := option, unattendFlags := flags)
    {
      this.option, unattendFlags := option, flags;
    }

    // ---------- execute, stage by stage ----------

    /** The run stopped at step `n` of its script and reports the code that belongs to that step. */
    ghost predicate Broke(script: seq<Op>, n: nat, failure: Option<string>)
      reads machine`trace, flag`cancelled
    {
      FailedAt(machine.trace, script, n) && failure == Some(ErrorOf(script[n], flag.cancelled))
    }

    /** What the stages of a run rely on. */
    ghost predicate Ready()
      reads this`devices, this`selected, this`os
    {
      && |selected| <= 63 && (forall d :: d in devices ==> WellListed(d))
      && Listed(devices, selected) && os != UnknownOs
    }

    ghost predicate Valid'()
      reads this`devices, this`selected, this`os, machine, flag, ctx
    {
      Ready() && machine.Valid() && flag.Valid() && ctx.Valid()
    }

    /** The size of the target in sectors; the two error exits here can never be taken. */
    method TargetSectors() returns (sectors: nat)
      requires Ready()
      ensures sectors > 0 && sectors == CapacityOf(devices, selected) / 512
    {
      var found, capacity := FindCapacity(devices, selected);
      ListedHasCapacity(devices, selected);
      sectors := capacity / 512;
      PartitionNodesFit(selected);
      if sectors == 0 || PartitionNode(selected, 1, 128).None? || PartitionNode(selected, 2, 128).None? {
        // The selected device is listed with a capacity and under a name that fits.
        assert false;
      }
    }

    /** A step whose outcome is known; a failure is reported with the code of the step. */
    method Settle(ghost script: seq<Op>, ghost n: nat, op: Op, ok: bool) returns (failure: Option<string>)
      requires Upto(machine.trace, script, n) && n < |script| && script[n] == op
      requires Fatal(op) && op != ExtractIso
      modifies machine`trace
      ensures (failure.Some? <==> !ok) && machine.trace == old(machine.trace) + [Step(op, ok)]
      ensures if ok then Upto(machine.trace, script, n + 1) else Broke(script, n, failure)
    {
      Record(machine, script, n, op, ok);
      failure := if ok then None else Some(ErrorOf(op, false));
    }

    /** Takes a step; a failure is reported with the code of the step. */
    method Attempt(ghost script: seq<Op>, ghost n: nat, op: Op) returns (failure: Option<string>)
      requires Upto(machine.trace, script, n) && n < |script| && script[n] == op
      requires Fatal(op) && op != ExtractIso
      modifies machine`clock, machine`trace
      ensures if failure.None? then Upto(machine.trace, script, n + 1) else Broke(script, n, failure)
      ensures (failure.None? <==> machine.answers(old(machine.clock))) && machine.clock == old(machine.clock) + 1
    {
      var ok := Take(machine, script, n, op);
      failure := if ok then None else Some(ErrorOf(op, false));
    }

    /**
      What the guards have found when a run has come to step `n` or has stopped there: who gets past
      all three has a disk that final_wipe_guard passes, or for which it writes behind its array.
     */
    ghost predicate Judged(names: Guard.Naming, tables: Guard.Tables, n: nat)
      reads this`selected, this`devices
    {
      && (n > 0 ==> Guard.IsBlock(names, selected) && !Guard.SystemDisk(names, tables, selected))
      && (n == 1 ==> Guard.LineFound(tables, selected)) && (n > 1 ==> !Guard.LineFound(tables, selected))
      && (n == 2 ==> !Guard.Passes(names, tables, selected))
      && (n > 2 ==> Guard.MayPass(names, tables, selected))
      && (n > 3 ==> CapacityOf(devices, selected) / 512 >= 206848)
    }

    /** The image is easy wherever the volume is mounted. */
    ghost predicate EasyAnywhere(source: Source, volumeAnswers: nat -> bool) {
      forall id :: Easy(source, Ntfs(id).Text(), volumeAnswers)
    }

    /** Why a run stopped at step `n`: a guard, a disk below 101 MB, the image or a cancellation, or a refusal. */
    ghost predicate Caused(names: Guard.Naming, tables: Guard.Tables, n: nat, since: nat, quiet: bool, easy: bool)
      reads this`selected, this`devices, machine`clock
    {
      if n == 0 then
        !Guard.IsBlock(names, selected) || Guard.SystemDisk(names, tables, selected) || machine.Denied(since)
      else if n == 1 then Guard.LineFound(tables, selected)
      else if n == 2 then !Guard.Passes(names, tables, selected)
      else if n == 3 then CapacityOf(devices, selected) / 512 < 206848 || machine.Denied(since)
      else if n == 9 then !quiet || !easy
      else machine.Denied(since)
    }

    /** device_validate: whether the disk can then be opened for this program alone is up to the system. */
    method ValidateTarget(names: Guard.Naming, tables: Guard.Tables) returns (ok: bool, ghost tried: bool)
      modifies machine`clock
      ensures tried <==> Guard.IsBlock(names, selected) && !Guard.SystemDisk(names, tables, selected)
      ensures (ok <==> tried && machine.answers(old(machine.clock)))
      ensures machine.clock == old(machine.clock) + if tried then 1 else 0
    {
      hide Guard.SystemDisk;
      if !Guard.IsBlock(names, selected) {
        return false, false;
      }
      var verdict := Guard.ValidateNotSystemDrive(names, tables, selected);
      if verdict == Guard.SystemDrive {
        return false, false;
      }
      tried := true;
      ok := machine.Ask();
    }

    /** final_wipe_guard; once it has written behind its array, it may as well let the disk through. */
    method PassGuard(names: Guard.Naming, tables: Guard.Tables) returns (ok: bool)
      modifies machine`clock
      ensures ok ==> Guard.MayPass(names, tables, selected)
      ensures Guard.Passes(names, tables, selected) ==> ok
      ensures machine.clock >= old(machine.clock)
    {
      hide Guard.Passes, Guard.InUse, Guard.SwapOverruns, VirtualNode;
      var verdict := Guard.FinalWipeGuard(names, tables, selected);
      ok := verdict == Guard.GuardOk;
      if verdict == Guard.Overrun {
        ok := machine.Ask();
      }
    }

    /** Steps 0 to 2: the guards. */
    method CheckGuards(ghost script: seq<Op>, names: Guard.Naming, tables: Guard.Tables)
      returns (failure: Option<string>, sectors: nat, ghost n: nat)
      requires Valid'() && Opens(script) && Upto(machine.trace, script, 0)
      modifies machine`clock, machine`trace
      ensures failure.None? ==>
                n == 3 && sectors == CapacityOf(devices, selected) / 512 && Upto(machine.trace, script, 3)
      ensures failure.Some? ==> n < 3 && Broke(script, n, failure)
      ensures Judged(names, tables, n) && machine.clock >= old(machine.clock)
      ensures failure.Some? ==> forall quiet, easy :: Caused(names, tables, n, old(machine.clock), quiet, easy)
    {
      hide Upto, Broke, Opens, Ready, CapacityOf;
      hide Guard.IsBlock, Guard.SystemDisk, Guard.LineFound, Guard.Passes, Guard.MayPass;
      OpeningSteps(script);
      n, sectors := 0, 0;
      var valid;
      ghost var tried;
      valid, tried := ValidateTarget(names, tables);
      failure := Settle(script, 0, ValidateDevice, valid);
      if failure.None? {
        n := 1;
        var mounted := Guard.DeviceIsMounted(tables, selected);
        failure := Settle(script, 1, CheckNotMounted, !mounted);
        if failure.None? {
          sectors := TargetSectors();
          var passed := PassGuard(names, tables);
          failure := Settle(script, 2, WipeGuard, passed);
          n := if failure.None? then 3 else 2;
        }
      }
    }

    /** Step 3: the layout and the partition table. */
    method CommitLayout(ghost script: seq<Op>, totalSectors: nat) returns (failure: Option<string>)
      requires Opens(script) && Upto(machine.trace, script, 3)
      modifies machine`clock, machine`trace
      ensures if failure.None? then Upto(machine.trace, script, 4) else Broke(script, 3, failure)
      // Below 2048 + 204800 sectors nothing is asked for; from there on all is up to the system.
      ensures totalSectors < 206848 ==> failure.Some? && machine.clock == old(machine.clock)
      ensures totalSectors >= 206848 ==>
                (failure.None? <==> machine.answers(old(machine.clock))) && machine.clock == old(machine.clock) + 1
    {
      OpeningSteps(script);
      hide Upto, Broke, Opens;
      var layout, fits := CalculateLayout(100 * 1024 * 1024, totalSectors);
      if fits {
        failure := Attempt(script, 3, CommitTable);
      } else {
        failure := Settle(script, 3, CommitTable, false);
      }
    }

    /** Steps 4 and 5: the two file systems. */
    method FormatVolumes(ghost script: seq<Op>) returns (failure: Option<string>, ghost n: nat)
      requires Opens(script) && Upto(machine.trace, script, 4)
      modifies machine`clock, machine`trace
      ensures failure.None? ==> Upto(machine.trace, script, 6)
      ensures failure.Some? ==> 4 <= n < 6 && Broke(script, n, failure)
      ensures machine.clock >= old(machine.clock) && (failure.None? <==> !machine.Denied(old(machine.clock)))
    {
      FormatSteps(script);
      hide Upto, Broke, Opens, ErrorOf;
      n := 4;
      failure := Attempt(script, 4, FormatFat);
      if failure.None? {
        n := 5;
        failure := Attempt(script, 5, FormatNtfs);
      }
    }

    /** Steps 0 to 5: the guards, the partition table and the two file systems. */
    method WipeAndFormat(ghost script: seq<Op>, names: Guard.Naming, tables: Guard.Tables)
      returns (failure: Option<string>, ghost n: nat)
      requires Valid'() && Opens(script) && Upto(machine.trace, script, 0)
      modifies machine`clock, machine`trace
      ensures failure.None? ==> n == 6 && Upto(machine.trace, script, 6)
      ensures failure.Some? ==> n < 6 && Broke(script, n, failure)
      ensures Judged(names, tables, n) && machine.clock >= old(machine.clock)
      ensures failure.Some? ==> forall quiet, easy :: Caused(names, tables, n, old(machine.clock), quiet, easy)
    {
      hide Upto, Broke, Opens, Ready, CapacityOf;
      hide Guard.IsBlock, Guard.SystemDisk, Guard.LineFound, Guard.Passes, Guard.MayPass;
      var totalSectors;
      failure, totalSectors, n := CheckGuards(script, names, tables);
      if failure.None? {
        failure := CommitLayout(script, totalSectors);
        if failure.None? {
          failure, n := FormatVolumes(script);
          n := if failure.None? then 6 else n;
        }
      }
    }

    /** Steps 6 to 8: the mount points and the two mounts. */
    method MountVolumes(ghost script: seq<Op>) returns (failure: Option<string>, ghost n: nat)
      requires Valid'() && Opens(script) && Upto(machine.trace, script, 6)
      modifies machine, ctx
      ensures Valid'() && old(machine.refusals) <= machine.refusals
      ensures machine.dirs - old(machine.dirs) <= CtxDirs(ctx)
      ensures machine.mounts - old(machine.mounts) <= CtxDirs(ctx)
      ensures failure.None? ==> ctx.ntfs.Some? && Upto(machine.trace, script, 9)
      ensures failure.Some? ==> 6 <= n < 9 && Broke(script, n, failure)
      ensures machine.clock >= old(machine.clock) && (failure.Some? ==> machine.Denied(old(machine.clock)))
      ensures failure.None? ==> AllMounted(ctx, machine.dirs, machine.mounts)
    {
      hide Upto, Broke, Opens, Ready, Machine.Valid, CtxDirs;
      OpeningSteps(script);
      var made, fat, ntfs := Acquire(ctx, machine);
      n := 6;
      failure := Settle(script, 6, MakeTempDirs, made);
      if failure.None? {
        n := 7;
        failure := Settle(script, 7, MountFat, fat);
        if failure.None? {
          n := 8;
          failure := Settle(script, 8, MountNtfs, ntfs);
        }
      }
    }

    /** Nothing but refused removals is left of what a failed extraction unpacked. */
    ghost predicate RolledBack()
      reads this`volume, ctx, volume
    {
      && volume != null && ctx.ntfs.Some?
      && forall p :: Leaf(volume.nodes, p) && Resolve(MountPath()) <= p ==> p in volume.refused
    }

    /** Every entry was unpacked, with one read of the flag for each and a last one at the end. */
    ghost predicate Unpacked(source: Source, readsMade: int)
      requires SourceOk(source) && source.Iso9660?
      reads this`volume, ctx, volume
    {
      && volume != null && ctx.ntfs.Some?
      && source.endsAtEof && Arrived(source.entries, MountPath(), volume)
      && readsMade == |Reports(source.entries, MountPath(), source.total, |source.entries|)| + 1
    }

    /** What extraction owes a run that stopped at step `n`, given the reads it added to the log. */
    ghost predicate Extraction(source: Source, n: nat, seen: seq<bool>)
      requires SourceOk(source)
      reads this`volume, ctx, volume
    {
      && (n < 9 ==> seen == [])
      && (n == 9 && source.Iso9660? ==> RolledBack())
      && (n > 9 && source.Iso9660? ==> Unpacked(source, |seen|))
      && (n > 9 ==> !source.Unreadable?)
      && (n > 9 && source.Udf? ==> true !in seen && |seen| == |source.readings|)
    }

    function MountPath(): string
      requires ctx.ntfs.Some?
      reads ctx
    {
      ctx.ntfs.value.Text()
    }

    /**
      Unpacks the image onto the freshly formatted volume that has just been mounted. A failure is
      put down to the user if the flag is set by then.
     */
    method FillVolume(source: Source, volumeAnswers: nat -> bool) returns (failure: Option<string>)
      requires flag.Valid() && ctx.ntfs.Some? && SourceOk(source)
      modifies this`volume, flag
      ensures flag.Valid() && (old(flag.cancelled) ==> flag.cancelled)
      ensures ClearButLast(old(flag.log), flag.log, old(flag.cancelled))
      ensures failure.Some? ==> failure == Some(ErrorOf(ExtractIso, flag.cancelled))
      ensures failure.Some? ==> !old(Quiet(flag)) || !Easy(source, MountPath(), volumeAnswers)
      ensures Extraction(source, if failure.Some? then 9 else 10, flag.log[|old(flag.log)|..])
      ensures true in flag.log[|old(flag.log)|..] ==>
                failure == Some("E-30-C") || (failure.None? && source.Iso9660?)
    {
      hide Delivered, Sound, FreshVolume, Reports;
      var mount := MountPath();
      var tree := new FileTree(FreshVolume(Resolve(mount)), volumeAnswers);
      var result := ExtractToMountpoint(tree, flag, mount, source);
      volume, failure := tree, None;
      if result != IsoOk {
        var cancelled := flag.Peek();
        failure := Some(if cancelled then "E-30-C" else "E-30-A");
      }
    }

    /** Step 9. */
    method ExtractImage(ghost script: seq<Op>, source: Source, volumeAnswers: nat -> bool)
      returns (failure: Option<string>)
      requires Valid'() && Opens(script) && Upto(machine.trace, script, 9)
      requires ctx.ntfs.Some? && SourceOk(source)
      modifies this`volume, machine`trace, flag
      ensures flag.Valid() && (old(flag.cancelled) ==> flag.cancelled)
      ensures ClearButLast(old(flag.log), flag.log, old(flag.cancelled))
      ensures failure.None? ==> Upto(machine.trace, script, 10)
      ensures failure.Some? ==> Broke(script, 9, failure)
      ensures failure.Some? ==> !old(Quiet(flag)) || !Easy(source, MountPath(), volumeAnswers)
      ensures Extraction(source, if failure.Some? then 9 else 10, flag.log[|old(flag.log)|..])
      ensures true in flag.log[|old(flag.log)|..] ==>
                failure == Some("E-30-C") || (failure.None? && source.Iso9660?)
    {
      ExtractStep(script);
      hide Upto, FailedAt, Opens, Ready, Extraction, Machine.Valid, ClearButLast, CancelFlag.Valid, ErrorOf, Easy;
      failure := FillVolume(source, volumeAnswers);
      Record(machine, script, 9, ExtractIso, failure.None?);
    }

    /** Step 10 and on: the answer files, as the options ask for them. */
    method InjectAnswers(ghost script: seq<Op>, windowsScan: bool) returns (failure: Option<string>, ghost n: nat)
      requires os == Windows && script == Script(Settings(), windowsScan) && Upto(machine.trace, script, 10)
      modifies machine`clock, machine`trace
      ensures failure.None? ==> n == DetectAt(Settings()) && Upto(machine.trace, script, n)
      ensures failure.Some? ==> 10 <= n < |script| && Broke(script, n, failure)
      ensures machine.clock >= old(machine.clock) && (failure.None? <==> !machine.Denied(old(machine.clock)))
    {
      LaterSteps(Settings(), windowsScan);
      hide Upto, Broke, Script, Opens, ErrorOf;
      n, failure := 10, None;
      if option != WinToGo || unattendFlags != 0 {
        failure := Attempt(script, n, InjectUnattend);
        if failure.Some? {
          return;
        }
        n := n + 1;
      }
      if option == WinToGo {
        failure := Attempt(script, n, InjectWinToGo);
        n := if failure.None? then n + 1 else n;
      }
    }

    /** The Windows boot steps; `windowsScan` is whether the detailed Windows scan succeeds. */
    method SetUpWindows(ghost script: seq<Op>, windowsScan: bool) returns (failure: Option<string>, ghost n: nat)
      requires os == Windows && script == Script(Settings(), windowsScan) && Upto(machine.trace, script, 10)
      modifies machine`clock, machine`trace
      ensures failure.None? ==> n == |script| - 3 && Upto(machine.trace, script, n)
      ensures failure.Some? ==> 10 <= n < |script| && Broke(script, n, failure)
      ensures machine.clock >= old(machine.clock) && (failure.None? <==> !machine.Denied(old(machine.clock)))
    {
      LaterSteps(Settings(), windowsScan);
      hide Upto, Broke, Script, Opens, ErrorOf;
      failure, n := InjectAnswers(script, windowsScan);
      if failure.Some? {
        return;
      }
      Record(machine, script, n, DetectWindows, windowsScan);
      n := n + 1;
      if windowsScan {
        failure := Attempt(script, n, SetupWindowsBoot);
        if failure.Some? {
          return;
        }
        n := n + 1;
      }
      failure := Attempt(script, n, InstallUefiNtfs);
      n := if failure.None? then n + 1 else n;
    }

    /** The boot stage. */
    method SetUpBoot(ghost script: seq<Op>, windowsScan: bool) returns (failure: Option<string>, ghost n: nat)
      requires Ready() && script == Script(Settings(), windowsScan) && Upto(machine.trace, script, 10)
      modifies machine`clock, machine`trace
      ensures failure.None? ==> n == |script| - 3 && Upto(machine.trace, script, n)
      ensures failure.Some? ==> 10 <= n < |script| && Broke(script, n, failure)
      ensures machine.clock >= old(machine.clock) && (failure.None? <==> !machine.Denied(old(machine.clock)))
    {
      LaterSteps(Settings(), windowsScan);
      hide Upto, Broke, Script, Opens, WellListed, Listed;
      n := 10;
      match os {
        case Windows =>
          failure, n := SetUpWindows(script, windowsScan);
        case Linux =>
          failure := Attempt(script, n, SetupLinuxBoot);
          n := if failure.None? then n + 1 else n;
        case UnknownOs =>
          // The generic boot loader is never reached: a prepared session knows its system.
          assert false;
      }
    }

    /** The last three steps: sync both volumes, whose outcome nobody checks, and unmount. */
    method Finish(ghost script: seq<Op>, windowsScan: bool) returns (failure: Option<string>)
      requires Valid'() && script == Script(Settings(), windowsScan) && |script| >= 3
      requires Upto(machine.trace, script, |script| - 3)
      modifies machine
      ensures machine.Valid() && old(machine.refusals) <= machine.refusals
      ensures machine.dirs <= old(machine.dirs) && machine.mounts <= old(machine.mounts)
      ensures failure.None? ==> Upto(machine.trace, script, |script|)
      ensures failure.None? ==> CtxDirs(ctx) !! machine.dirs && CtxDirs(ctx) !! machine.mounts
      ensures failure.Some? ==> Broke(script, |script| - 1, failure)
      ensures failure.Some? && AllMounted(ctx, old(machine.dirs), old(machine.mounts)) ==> machine.Denied(old(machine.clock))
      ensures failure.None? && !machine.Denied(old(machine.clock)) ==>
                machine.trace[|script| - 3].ok && machine.trace[|script| - 2].ok
      ensures machine.clock >= old(machine.clock)
    {
      ClosingSteps(Settings(), windowsScan);
      hide Upto, Broke, Script, Opens, Ready, Machine.Valid, CtxDirs, MountContext.Valid;
      ghost var n := |script| - 3;
      var fat := Take(machine, script, n, SyncFat);
      var ntfs := Take(machine, script, n + 1, SyncNtfs);
      var unmounted := UnmountAndCleanup(ctx, machine);
      failure := Settle(script, n + 2, Unmount, unmounted);
    }

    /** Steps 0 to 9: everything up to a volume that holds the image. */
    method Deliver(ghost script: seq<Op>, names: Guard.Naming, tables: Guard.Tables, source: Source,
                   volumeAnswers: nat -> bool)
      returns (failure: Option<string>, ghost n: nat)
      requires Valid'() && Opens(script) && SourceOk(source) && Upto(machine.trace, script, 0)
      modifies this`volume, machine, ctx, flag
      ensures Valid'() && (old(flag.cancelled) ==> flag.cancelled) && old(machine.refusals) <= machine.refusals
      ensures ClearButLast(old(flag.log), flag.log, old(flag.cancelled))
      ensures machine.dirs - old(machine.dirs) <= CtxDirs(ctx)
      ensures machine.mounts - old(machine.mounts) <= CtxDirs(ctx)
      ensures failure.None? ==> n == 10 && Upto(machine.trace, script, n)
      ensures failure.Some? ==> n < 10 && Broke(script, n, failure)
      ensures Judged(names, tables, n) && machine.clock >= old(machine.clock)
      ensures failure.None? ==> AllMounted(ctx, machine.dirs, machine.mounts)
      ensures failure.Some? ==>
                Caused(names, tables, n, old(machine.clock), old(Quiet(flag)), EasyAnywhere(source, volumeAnswers))
      ensures Extraction(source, n, flag.log[|old(flag.log)|..])
      ensures true in flag.log[|old(flag.log)|..] ==>
                (n == 9 && failure == Some("E-30-C")) || (n > 9 && source.Iso9660?)
    {
      hide Upto, FailedAt, Opens, Ready, RolledBack, Unpacked, CtxDirs, ErrorOf, Broke;
      hide Guard.IsBlock, Guard.SystemDisk, Guard.LineFound, Guard.Passes, Guard.MayPass;
      failure, n := WipeAndFormat(script, names, tables);
      if failure.None? {
        failure, n := MountVolumes(script);
        if failure.None? {
          n := 9;
          failure := ExtractImage(script, source, volumeAnswers);
          if failure.None? {
            n := 10;
          }
        }
      }
    }

    /** The remaining steps: boot set-up, sync and unmount. */
    method Conclude(ghost script: seq<Op>, windowsScan: bool) returns (failure: Option<string>, ghost n: nat)
      requires Valid'() && script == Script(Settings(), windowsScan) && Upto(machine.trace, script, 10)
      modifies machine
      ensures machine.Valid() && old(machine.refusals) <= machine.refusals
      ensures machine.dirs <= old(machine.dirs) && machine.mounts <= old(machine.mounts)
      ensures failure.None? ==> n == |script| && Upto(machine.trace, script, n)
      ensures failure.None? ==> CtxDirs(ctx) !! machine.dirs && CtxDirs(ctx) !! machine.mounts
      ensures failure.Some? ==> 10 <= n < |script| && Broke(script, n, failure)
      ensures failure.Some? && AllMounted(ctx, old(machine.dirs), old(machine.mounts)) ==> machine.Denied(old(machine.clock))
      ensures failure.None? && !machine.Denied(old(machine.clock)) ==>
                machine.trace[|script| - 3].ok && machine.trace[|script| - 2].ok
      ensures machine.clock >= old(machine.clock)
    {
      ScriptShape(Settings(), windowsScan);
      hide Upto, FailedAt, Script, Ready, CtxDirs;
      failure, n := SetUpBoot(script, windowsScan);
      if failure.None? {
        failure := Finish(script, windowsScan);
        n := if failure.Some? then |script| - 1 else |script|;
      }
    }

    /** The whole script, up to the first fatal failure. */
    method Write(ghost script: seq<Op>, names: Guard.Naming, tables: Guard.Tables, source: Source, windowsScan: bool,
                 volumeAnswers: nat -> bool)
      returns (failure: Option<string>, ghost n: nat)
      requires Valid'() && script == Script(Settings(), windowsScan) && SourceOk(source)
      requires Upto(machine.trace, script, 0)
      modifies this`volume, machine, ctx, flag
      ensures machine.Valid() && flag.Valid() && ctx.Valid() && (old(flag.cancelled) ==> flag.cancelled)
      ensures ClearButLast(old(flag.log), flag.log, old(flag.cancelled))
      ensures old(machine.refusals) <= machine.refusals
      ensures machine.dirs - old(machine.dirs) <= CtxDirs(ctx)
      ensures machine.mounts - old(machine.mounts) <= CtxDirs(ctx)
      ensures failure.None? ==> n == |script| && Upto(machine.trace, script, n)
      ensures failure.None? ==> CtxDirs(ctx) !! machine.dirs && CtxDirs(ctx) !! machine.mounts
      ensures failure.Some? ==> n < |script| && Broke(script, n, failure)
      ensures Judged(names, tables, n) && Extraction(source, n, flag.log[|old(flag.log)|..])
      ensures true in flag.log[|old(flag.log)|..] ==>
                (n == 9 && failure == Some("E-30-C")) || (n > 9 && source.Iso9660?)
      ensures failure.Some? ==>
                Caused(names, tables, n, old(machine.clock), old(Quiet(flag)), EasyAnywhere(source, volumeAnswers))
      ensures failure.None? && !machine.Denied(old(machine.clock)) ==>
                machine.trace[|script| - 3].ok && machine.trace[|script| - 2].ok
      ensures machine.clock >= old(machine.clock)
    {
      ScriptShape(Settings(), windowsScan);
      hide Upto, FailedAt, Script, Opens, Ready, RolledBack, Unpacked, CtxDirs, ErrorOf, Broke;
      hide Guard.IsBlock, Guard.SystemDisk, Guard.LineFound, Guard.Passes, Guard.MayPass;
      failure, n := Deliver(script, names, tables, source, volumeAnswers);
      if failure.None? {
        failure, n := Conclude(script, windowsScan);
      }
    }

    /**
      What a run of the script comes to, `n` being the step it failed at or the script's length and
      `seen` the reads it made of the cancel flag. The trace is the script, or a proper part of it
      up to one fatal failure, whose code is reported. A failed extraction was rolled back; one
      that succeeded delivered every entry. Whoever cancels in time gets the cancellation code.
     */
    ghost predicate Outcome(script: seq<Op>, source: Source, failure: Option<string>, n: nat, seen: seq<bool>)
      requires SourceOk(source)
      reads this`volume, ctx, volume, machine`trace, flag`cancelled
    {
      && (failure.None? ==> n == |script| && Upto(machine.trace, script, n))
      && (failure.Some? ==> n < |script| && Broke(script, n, failure))
      && Extraction(source, n, seen)
      && (true in seen ==> (n == 9 && failure == Some("E-30-C")) || (n > 9 && source.Iso9660?))
    }

    /** There is nothing to unpack, or the copy is over before it is looked at once. */
    ghost predicate Idle(source: Source)
      reads ctx
    {
      match source
      case Unreadable(_) => false
      case Iso9660(entries, _, _) => ctx.ntfs.Some? && forall e :: e in entries ==> !Accepted(e, MountPath())
      case Udf(_, _, readings, _) => readings == []
    }

    lemma CancelledBeforehand(source: Source, n: nat, start: seq<bool>, log: seq<bool>)
      requires SourceOk(source) && ClearButLast(start, log, true) && n > 9
      requires Extraction(source, n, log[|start|..])
      ensures Idle(source)
    {
      hide Accepted, Delivered, Reports;
      var seen := log[|start|..];
      assert seen != [] ==> seen[0];
      if source.Iso9660? {
        CancelSticks(start, log, source.entries, MountPath(), source.total);
      }
    }

    /** Each mount, or directory, there was not before is one the system has since refused to let go. */
    ghost predicate Survivors(dirs: set<DirName>, mounts: set<DirName>, since: nat)
      reads machine`dirs, machine`mounts, machine`refusals
    {
      && (forall d :: d in machine.mounts && d !in mounts ==> machine.Refused(since, NoDetach(d)))
      && (forall d :: d in machine.dirs && d !in dirs ==> machine.Held(since, d))
    }

    lemma NoSurvivors(dirs: set<DirName>, mounts: set<DirName>, since: nat)
      requires machine.dirs <= dirs && machine.mounts <= mounts
      ensures Survivors(dirs, mounts, since)
    {
    }

    /** Takes down what there is of a failed run. */
    method Undo(ghost dirs: set<DirName>, ghost mounts: set<DirName>, ghost since: nat)
      requires ctx.Valid() && machine.Valid() && since <= |machine.refusals|
      requires machine.dirs - dirs <= CtxDirs(ctx) && machine.mounts - mounts <= CtxDirs(ctx)
      modifies machine`clock, machine`dirs, machine`mounts, machine`refusals
      ensures machine.Valid() && machine.clock >= old(machine.clock)
      ensures Survivors(dirs, mounts, since)
    {
      hide CtxDirs;
      var _ := UnmountAndCleanup(ctx, machine);
    }

    /**
      If the run has changed the disk, the guard lets it through; and if the guard can be relied on for
      it, then neither the disk nor anything on it was in use.
     */
    ghost predicate Spared(names: Guard.Naming, tables: Guard.Tables)
      reads this`selected, machine`trace
    {
      Changes(machine.trace) ==>
        && Guard.MayPass(names, tables, selected)
        && (Guard.Reliable(names, selected) && Guard.KernelTables(tables) ==> Guard.Wipeable(names, tables, selected))
    }

    lemma JudgedSpares(names: Guard.Naming, tables: Guard.Tables, windowsScan: bool, failure: Option<string>, n: nat)
      requires Judged(names, tables, n)
      requires failure.None? ==> Upto(machine.trace, Script(Settings(), windowsScan), n)
      requires failure.Some? ==> Broke(Script(Settings(), windowsScan), n, failure)
      ensures Spared(names, tables)
    {
      hide Script, Upto, FailedAt, Changes, ErrorOf;
      hide Guard.IsBlock, Guard.SystemDisk, Guard.LineFound, Guard.Passes, Guard.MayPass;
      hide Guard.Reliable, Guard.KernelTables, Guard.Wipeable;
      if Changes(machine.trace) {
        ChangesComeLate(machine.trace, Settings(), windowsScan, n);
        if Guard.Reliable(names, selected) && Guard.KernelTables(tables) {
          Guard.LetThroughIsWipeable(names, tables, selected);
        }
      }
    }

    /** Nothing stands against a run: not the guards, nor the size of the disk, the image, the user or the system. */
    ghost predicate Favourable(names: Guard.Naming, tables: Guard.Tables, source: Source, volumeAnswers: nat -> bool)
      reads this`selected, this`devices, flag
    {
      Fair(names, tables) && EasyAnywhere(source, volumeAnswers) && Quiet(flag)
    }

    /** The guards find nothing, the disk is large enough, and the system grants every call. */
    ghost predicate Fair(names: Guard.Naming, tables: Guard.Tables)
      reads this`selected, this`devices
    {
      && Guard.Passes(names, tables, selected) && !Guard.LineFound(tables, selected)
      && CapacityOf(devices, selected) / 512 >= 206848 && forall k :: machine.answers(k)
    }

    lemma NothingCauses(names: Guard.Naming, tables: Guard.Tables, n: nat, since: nat)
      requires Fair(names, tables)
      ensures !Caused(names, tables, n, since, true, true) && !machine.Denied(since)
    {
      Guard.PassesIsValid(names, tables, selected);
      hide Guard.IsBlock, Guard.SystemDisk, Guard.LineFound, Guard.Passes, CapacityOf;
    }

    /** Runs the script from the prepared state and, on failure, takes the mounts down again. */
    method Perform(names: Guard.Naming, tables: Guard.Tables, source: Source, windowsScan: bool,
                   volumeAnswers: nat -> bool)
      returns (failure: Option<string>, ghost failedAt: nat)
      requires Valid'() && SourceOk(source)
      modifies this`volume, machine, ctx, flag
      ensures machine.Valid() && flag.Valid() && ctx.Valid() && (old(flag.cancelled) ==> flag.cancelled)
      ensures ClearButLast(old(flag.log), flag.log, old(flag.cancelled))
      ensures Outcome(Script(Settings(), windowsScan), source, failure, failedAt, flag.log[|old(flag.log)|..])
      ensures failure.None? && old(flag.cancelled) ==> Idle(source)
      ensures Judged(names, tables, failedAt) && Spared(names, tables)
      ensures failure.None? ==> machine.dirs <= old(machine.dirs) && machine.mounts <= old(machine.mounts)
      ensures Survivors(old(machine.dirs), old(machine.mounts), |old(machine.refusals)|)
      // A run fails only for a reason, and one that meets no refusal takes every step well.
      ensures failure.Some? ==>
                Caused(names, tables, failedAt, old(machine.clock), old(Quiet(flag)), EasyAnywhere(source, volumeAnswers))
      ensures failure.None? && !machine.Denied(old(machine.clock)) ==> AllWell(machine.trace, windowsScan)
    {
      ghost var script := Script(Settings(), windowsScan);
      hide Upto, FailedAt, Script, Ready, RolledBack, Unpacked, Extraction, Broke, ErrorOf, Judged, Spared, AllWell, CapacityOf;
      hide Idle, ClearButLast, SourceOk, Listed, WellListed, Survivors, CtxDirs;
      hide Guard.IsBlock, Guard.SystemDisk, Guard.LineFound, Guard.Passes, EasyAnywhere;
      machine.trace := [];
      UptoNone(script);
      failure, failedAt := Write(script, names, tables, source, windowsScan, volumeAnswers);
      JudgedSpares(names, tables, windowsScan, failure, failedAt);
      if failure.Some? {
        Undo(old(machine.dirs), old(machine.mounts), |old(machine.refusals)|);
      } else {
        NoSurvivors(old(machine.dirs), old(machine.mounts), |old(machine.refusals)|);
        ScriptShape(Settings(), windowsScan);
        if !machine.Denied(old(machine.clock)) {
          WholeTrace(machine.trace, Settings(), windowsScan);
        }
        if old(flag.cancelled) {
          CancelledBeforehand(source, failedAt, old(flag.log), flag.log);
        }
      }
    }

    /** How execute ends. */
    method Close(failure: Option<string>, ghost v: View) returns (r: int)
      requires v.state == Prepared && Now() == v.(state := Executing)
      modifies this`state, this`error
      ensures Now() == AfterExecute(v, failure) && r == (if failure.None? then 0 else -1)
      ensures failure == if r == 0 then None else Some(error)
      ensures state == if r == 0 then Completed else Failed
    {
      if failure.Some? {
        state, error := Failed, failure.value;
        r := -1;
      } else {
        state := Completed;
        r := 0;
      }
    }

    /**
      winafi_session_execute. `failedAt` is the step of the script that failed, or its length.
     */
    method ExecuteRun(names: Guard.Naming, tables: Guard.Tables, source: Source, windowsScan: bool,
                      volumeAnswers: nat -> bool)
      returns (r: int, ghost failedAt: nat)
      requires Valid() && SourceOk(source)
      modifies this, machine, ctx, flag
      ensures Valid()
      // 0 exactly with COMPLETED, -1 exactly with ERROR.
      ensures Now() == AfterExecute(old(Now()), if r == 0 then None else Some(error))
      ensures r == (if state == Completed then 0 else -1)
      // The flag only ever gets set; a run that began with it set reads it at most once.
      ensures ClearButLast(old(flag.log), flag.log, old(flag.cancelled)) && (old(flag.cancelled) ==> flag.cancelled)
      ensures old(state) == Prepared ==>
                Outcome(Script(old(Settings()), windowsScan), source, if r == 0 then None else Some(error),
                        failedAt, flag.log[|old(flag.log)|..])
      // A run that changes anything on the disk has a disk that the guards let through.
      ensures old(state) == Prepared ==> Judged(names, tables, failedAt) && Spared(names, tables)
      // It fails only for a reason, and succeeds step by step if nothing stands against it.
      ensures old(state) == Prepared && r != 0 ==>
                Caused(names, tables, failedAt, old(machine.clock), old(Quiet(flag)), EasyAnywhere(source, volumeAnswers))
      ensures old(state) == Prepared && r == 0 && !machine.Denied(old(machine.clock)) ==> AllWell(machine.trace, windowsScan)
      ensures old(state) == Prepared && old(Favourable(names, tables, source, volumeAnswers)) ==>
                r == 0 && AllWell(machine.trace, windowsScan)
      ensures old(state) != Prepared ==> r == -1 && machine.trace == old(machine.trace) && flag.log == old(flag.log)
      // Once cancelled, a session completes no later run that has anything to unpack.
      ensures old(flag.cancelled) && r == 0 ==> Idle(source)
      // No mount or directory of the run survives it, but where the system refused during this run.
      ensures r == 0 ==> machine.dirs <= old(machine.dirs) && machine.mounts <= old(machine.mounts)
      ensures Survivors(old(machine.dirs), old(machine.mounts), |old(machine.refusals)|)
    {
      hide Safe, Outcome, Script, Listed, WellListed, ClearButLast, Truncate, Judged, Spared, Idle, AllWell, CapacityOf;
      hide Guard.LineFound, Guard.Passes, EasyAnywhere, Caused, Survivors, SourceOk, Quiet, Fair, Machine.Valid, MountContext.Valid, CancelFlag.Valid;
      failedAt := 0;
      ghost var v := Now();
      ReadyToWrite(v, flag.log, flag.cancelled);
      NoSurvivors(machine.dirs, machine.mounts, |machine.refusals|);
      if state != Prepared {
        SetError("E-51-B");
        return -1, 0;
      }
      state := Executing;
      var failure;
      failure, failedAt := Perform(names, tables, source, windowsScan, volumeAnswers);
      r := Close(failure, v);
      if old(Favourable(names, tables, source, volumeAnswers)) {
        NothingCauses(names, tables, failedAt, old(machine.clock));
      }
    }
  }
}
