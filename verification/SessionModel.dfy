/** The write session as a transition system over its public calls. */
module SessionModel {
  import opened CStrings
  import opened IsoDetect
  import opened Devices

  datatype SessionState =
    | Created | IsoLoaded | DevicesEnumerated | DeviceSelected | Prepared | Executing | Completed | Failed

  datatype ImageOption = Standard | Portable | Vhd | WinToGo

  /** The fields of a session; `measured` is the image size the last successful prepare saw. */
  datatype View = View(state: SessionState, error: string, os: OsType, isoPath: string, devices: seq<Device>,
                       selected: string, measured: nat, option: ImageOption, unattendFlags: int)

  const INITIAL := View(Created, "", UnknownOs, "", [], "", 0, Standard, 0)

  function Fail(v: View, code: string): View {
    v.(state := Failed, error := code)
  }

  /** winafi_enumerate_devices; None is a failed enumeration. */
  function AfterEnumerate(v: View, found: Option<seq<Device>>): View {
    match found
    case None => Fail(v.(devices := []), "E-00-A")
    case Some(list) => v.(devices := list, state := DevicesEnumerated)
  }

  /** winafi_session_load_iso; `os` is what a successful detection found. */
  function AfterLoadIso(v: View, path: string, there: bool, os: Option<OsType>): View {
    if v.state != Created && v.state != DevicesEnumerated then Fail(v, "E-51-B")
    else if !there then Fail(v, "E-10-A")
    else if os.None? then Fail(v, "E-10-C")
    else if os.value == UnknownOs then Fail(v, "E-10-C")
    else v.(os := os.value, isoPath := Truncate(path, 511), state := IsoLoaded)
  }

  /** winafi_session_select_device. The test on the state lets every state but Created through. */
  function AfterSelect(v: View, node: string, valid: bool): View {
    if v.state == Created then Fail(v, "E-51-B")
    else if !Listed(v.devices, node) then Fail(v, "E-00-A")
    else if !valid then Fail(v, "E-00-G")
    else v.(selected := Truncate(node, 63), state := DeviceSelected)
  }

  /** What prepare asks of the system; `isoSize` is None when the file is gone. */
  datatype PrepareAnswers = PrepareAnswers(root: bool, block: bool, isoThere: bool, isoSize: Option<nat>)

  /** winafi_session_prepare. The empty path names no file. */
  function AfterPrepare(v: View, a: PrepareAnswers): View {
    if v.state != DeviceSelected then Fail(v, "E-51-B")
    else if !a.root then Fail(v, "E-01-C")
    else if !a.block then Fail(v, "E-01-A")
    else if v.isoPath == "" || !a.isoThere then Fail(v, "E-10-A")
    else if CapacityOf(v.devices, v.selected) == 0 then Fail(v, "E-00-D")
    else if a.isoSize.None? then Fail(v, "E-10-A")
    else if CapacityOf(v.devices, v.selected) < a.isoSize.value then Fail(v, "E-00-C")
    else v.(state := Prepared, measured := a.isoSize.value)
  }

  /** winafi_session_execute; `failure` is the error code of a run that failed. */
  function AfterExecute(v: View, failure: Option<string>): View {
    if v.state != Prepared then Fail(v, "E-51-B")
    else match failure
    case None => v.(state := Completed)
    case Some(code) => Fail(v, code)
  }

  /** The public calls. Misuse is enumerate, load or select with a NULL argument. */
  datatype Call =
    | Enumerate(found: Option<seq<Device>>)
    | LoadIso(path: string, there: bool, os: Option<OsType>)
    | Select(node: string, valid: bool)
    | Prepare(answers: PrepareAnswers)
    | Execute(failure: Option<string>)
    | SetImageOption(option: ImageOption)
    | SetUnattend(flags: int)
    | Cancel
    | Misuse

  function Apply(v: View, c: Call): View {
    match c
    case Enumerate(found) => AfterEnumerate(v, found)
    case LoadIso(path, there, os) => AfterLoadIso(v, path, there, os)
    case Select(node, valid) => AfterSelect(v, node, valid)
    case Prepare(answers) => AfterPrepare(v, answers)
    case Execute(failure) => AfterExecute(v, failure)
    case SetImageOption(option) => v.(option := option)
    case SetUnattend(flags) => v.(unattendFlags := flags)
    case Cancel => v
    case Misuse => Fail(v, "E-51-A")
  }

  /** The session after a whole sequence of calls. */
  function Run(calls: seq<Call>): View {
    if calls == [] then INITIAL else Apply(Run(calls[..|calls| - 1]), calls[|calls| - 1])
  }

  /** Enumeration only ever lists real, non-empty devices under names that fit. */
  predicate Honest(c: Call) {
    c.Enumerate? && c.found.Some? ==> forall d | d in c.found.value :: WellListed(d)
  }

  /** What holds of a session between any two calls. */
  ghost predicate Safe(v: View) {
    && (forall d :: d in v.devices ==> WellListed(d))
    && (v.isoPath != "" ==> v.os != UnknownOs)
    && |v.isoPath| <= 511 && |v.selected| <= 63
    && v.state != Executing
    && (v.state == DeviceSelected || v.state == Prepared ==> Listed(v.devices, v.selected))
    && (v.state == Prepared ==> v.isoPath != "" && v.measured <= CapacityOf(v.devices, v.selected))
  }

  lemma ApplySafe(v: View, c: Call)
    requires Safe(v) && Honest(c)
    ensures Safe(Apply(v, c))
  {
    if c.Select? && Listed(v.devices, c.node) {
      var i :| 0 <= i < |v.devices| && v.devices[i].devnode == c.node;
      assert WellListed(v.devices[i]);
    }
  }

  /** Every reachable session is safe, whatever the calls and whatever the system answered. */
  lemma {:induction false} RunSafe(calls: seq<Call>)
    requires forall c :: c in calls ==> Honest(c)
    ensures Safe(Run(calls))
  {
    if calls != [] {
      RunSafe(calls[..|calls| - 1]);
      ApplySafe(Run(calls[..|calls| - 1]), calls[|calls| - 1]);
    }
  }

  /** Before an execute: an image is loaded, its system known, and the disk has room for it. */
  lemma PreparedIsReady(calls: seq<Call>)
    requires forall c :: c in calls ==> Honest(c)
    requires Run(calls).state == Prepared
    ensures var v := Run(calls);
            && v.os in {Windows, Linux} && v.isoPath != ""
            && Listed(v.devices, v.selected) && CapacityOf(v.devices, v.selected) / 512 > 0
            && v.measured <= CapacityOf(v.devices, v.selected)
            && PartitionNode(v.selected, 1, 128).Some? && PartitionNode(v.selected, 2, 128).Some?
  {
    RunSafe(calls);
    var v := Run(calls);
    ListedHasCapacity(v.devices, v.selected);
    PartitionNodesFit(v.selected);
  }

  // ---------- the order of calls ----------

  datatype Kind = KEnumerate | KLoad | KSelect | KPrepare | KExecute | KOther

  function KindOf(c: Call): Kind {
    match c
    case Enumerate(_) => KEnumerate
    case LoadIso(_, _, _) => KLoad
    case Select(_, _) => KSelect
    case Prepare(_) => KPrepare
    case Execute(_) => KExecute
    case _ => KOther
  }

  /** Calls of these kinds were made in this order, perhaps with others between them. */
  predicate InOrder(kinds: seq<Kind>, calls: seq<Call>) {
    if kinds == [] then true
    else if calls == [] then false
    else
      var rest := calls[..|calls| - 1];
      || InOrder(kinds, rest)
      || (KindOf(calls[|calls| - 1]) == kinds[|kinds| - 1] && InOrder(kinds[..|kinds| - 1], rest))
  }

  lemma InOrderStep(kinds: seq<Kind>, k: Kind, calls: seq<Call>)
    requires calls != []
    ensures InOrder(kinds + [k], calls[..|calls| - 1]) ==> InOrder(kinds + [k], calls)
    ensures KindOf(calls[|calls| - 1]) == k && InOrder(kinds, calls[..|calls| - 1]) ==> InOrder(kinds + [k], calls)
  {
  }

  /** Only loading sets the path, only enumerating sets the list. */
  lemma OnlyThen(v: View, c: Call)
    ensures Apply(v, c).isoPath != "" ==> v.isoPath != "" || KindOf(c) == KLoad
    ensures Apply(v, c).devices != [] ==> v.devices != [] || KindOf(c) == KEnumerate
  {
  }

  lemma NoneInOrder(calls: seq<Call>)
    ensures InOrder([], calls)
  {
  }

  lemma {:induction false} FirstMade(calls: seq<Call>)
    ensures Run(calls).isoPath != "" ==> InOrder([KLoad], calls)
    ensures Run(calls).devices != [] ==> InOrder([KEnumerate], calls)
  {
    hide InOrder, Apply;
    if calls != [] {
      OnlyThen(Run(calls[..|calls| - 1]), calls[|calls| - 1]);
      NoneInOrder(calls[..|calls| - 1]);
      FirstMade(calls[..|calls| - 1]);
      assert [] + [KLoad] == [KLoad] && [] + [KEnumerate] == [KEnumerate];
      InOrderStep([], KLoad, calls);
      InOrderStep([], KEnumerate, calls);
    }
  }

  lemma {:induction false} SelectMade(calls: seq<Call>)
    requires Run(calls).state == DeviceSelected
    ensures InOrder([KEnumerate] + [KSelect], calls)
    ensures Run(calls).isoPath != "" ==> InOrder([KLoad] + [KSelect], calls)
  {
    hide InOrder;
    var rest := calls[..|calls| - 1];
    FirstMade(rest);
    if Run(rest).state == DeviceSelected {
      SelectMade(rest);
    }
    InOrderStep([KLoad], KSelect, calls);
    InOrderStep([KEnumerate], KSelect, calls);
  }

  lemma {:induction false} PrepareMade(calls: seq<Call>)
    requires Run(calls).state == Prepared
    ensures InOrder([KEnumerate] + [KSelect] + [KPrepare], calls)
    ensures InOrder([KLoad] + [KSelect] + [KPrepare], calls)
  {
    hide InOrder;
    var rest := calls[..|calls| - 1];
    if Run(rest).state == DeviceSelected {
      SelectMade(rest);
    }
    if Run(rest).state == Prepared {
      PrepareMade(rest);
    }
    InOrderStep([KLoad] + [KSelect], KPrepare, calls);
    InOrderStep([KEnumerate] + [KSelect], KPrepare, calls);
  }

  /** A run can only complete by way of load and enumerate, each before select, prepare and execute. */
  lemma {:induction false} CompletedInOrder(calls: seq<Call>)
    requires Run(calls).state == Completed
    ensures InOrder([KEnumerate] + [KSelect] + [KPrepare] + [KExecute], calls)
    ensures InOrder([KLoad] + [KSelect] + [KPrepare] + [KExecute], calls)
  {
    hide InOrder;
    var rest := calls[..|calls| - 1];
    if Run(rest).state == Prepared {
      PrepareMade(rest);
    }
    if Run(rest).state == Completed {
      CompletedInOrder(rest);
    }
    InOrderStep([KLoad] + [KSelect] + [KPrepare], KExecute, calls);
    InOrderStep([KEnumerate] + [KSelect] + [KPrepare], KExecute, calls);
  }

  /**
    The documented rule that a device cannot be selected before an image is loaded does not hold:
    enumerating is enough.
   */
  lemma SelectWithoutIso(d: Device)
    requires WellListed(d)
    ensures var calls := [Enumerate(Some([d])), Select(d.devnode, true)];
            Run(calls).state == DeviceSelected && Run(calls).isoPath == ""
  {
    var calls := [Enumerate(Some([d])), Select(d.devnode, true)];
    assert calls[..1] == [Enumerate(Some([d]))] && calls[..1][..0] == [];
    assert Run(calls[..1]) == AfterEnumerate(INITIAL, Some([d]));
    assert [d][0].devnode == d.devnode;
  }

  /** When select is accepted: in any state but the first, on a listed device the system vouches for. */
  lemma SelectAccepted(v: View, node: string, valid: bool)
    requires Safe(v)
    ensures AfterSelect(v, node, valid).state == DeviceSelected && AfterSelect(v, node, valid).selected == node
            <==> v.state != Created && Listed(v.devices, node) && valid
  {
    if Listed(v.devices, node) {
      var i :| 0 <= i < |v.devices| && v.devices[i].devnode == node;
      assert WellListed(v.devices[i]);
    }
  }

  /** When load is accepted, and what the session then holds. */
  lemma LoadAccepted(v: View, path: string, there: bool, os: Option<OsType>)
    requires |path| <= 511 && os != Some(UnknownOs)
    ensures var w := AfterLoadIso(v, path, there, os);
            && (w.state == IsoLoaded <==> (v.state == Created || v.state == DevicesEnumerated) && there && os.Some?)
            && (w.state == IsoLoaded ==> w == v.(state := IsoLoaded, isoPath := path, os := os.value))
            && (w.state != IsoLoaded ==> w.state == Failed && w == v.(state := Failed, error := w.error))
  {
  }

  /**
    When prepare is accepted: on a selected device, for root, if the node is a block device, the image
    is there and is no larger than the device. Nothing else changes but for the size that is noted.
   */
  lemma PrepareAccepted(v: View, a: PrepareAnswers)
    requires Safe(v)
    ensures var w := AfterPrepare(v, a);
            && (w.state == Prepared <==>
                  && v.state == DeviceSelected && a.root && a.block && v.isoPath != "" && a.isoThere
                  && a.isoSize.Some? && a.isoSize.value <= CapacityOf(v.devices, v.selected))
            && (w.state == Prepared ==> w == v.(state := Prepared, measured := a.isoSize.value))
            && (w.state != Prepared ==> w.state == Failed && w == v.(state := Failed, error := w.error))
  {
    if v.state == DeviceSelected {
      ListedHasCapacity(v.devices, v.selected);
    }
  }

  /** The one test that fails, and its code. Any other order of the tests would give another code. */
  lemma CodesTell(v: View, a: PrepareAnswers)
    ensures v.state != DeviceSelected ==> AfterPrepare(v, a).error == "E-51-B"
    ensures v.state == DeviceSelected && !a.root ==> AfterPrepare(v, a).error == "E-01-C"
    ensures v.state == DeviceSelected && a.root && !a.block ==> AfterPrepare(v, a).error == "E-01-A"
    ensures v.state == DeviceSelected && a.root && a.block && !(v.isoPath != "" && a.isoThere) ==>
              AfterPrepare(v, a).error == "E-10-A"
    ensures AfterPrepare(v, a).state != Prepared && v.state == DeviceSelected && a.root && a.block
            && v.isoPath != "" && a.isoThere && a.isoSize.Some? && CapacityOf(v.devices, v.selected) > 0 ==>
              AfterPrepare(v, a).error == "E-00-C"
  {
  }

  lemma OtherCodesTell(v: View, path: string, there: bool, os: Option<OsType>, node: string, valid: bool)
    ensures v.state != Created && v.state != DevicesEnumerated ==> AfterLoadIso(v, path, there, os).error == "E-51-B"
    ensures (v.state == Created || v.state == DevicesEnumerated) && !there ==>
              AfterLoadIso(v, path, there, os).error == "E-10-A"
    ensures (v.state == Created || v.state == DevicesEnumerated) && there && os.None? ==>
              AfterLoadIso(v, path, there, os).error == "E-10-C"
    ensures v.state == Created ==> AfterSelect(v, node, valid).error == "E-51-B"
    ensures v.state != Created && !Listed(v.devices, node) ==> AfterSelect(v, node, valid).error == "E-00-A"
    ensures v.state != Created && Listed(v.devices, node) && !valid ==> AfterSelect(v, node, valid).error == "E-00-G"
    ensures AfterEnumerate(v, None) == v.(devices := [], state := Failed, error := "E-00-A")
    ensures v.state != Prepared ==> forall failure :: AfterExecute(v, failure).error == "E-51-B"
  {
  }
}
