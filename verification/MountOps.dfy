/** Temporary mount points: making them, mounting on them and taking them away again. */
module MountOps {
  import opened CStrings

  /** The directories of one run: /tmp/winafi-mount-<id> and its two children. */
  datatype DirName = Base(id: nat) | Fat(id: nat) | Ntfs(id: nat) {
    function Text(): (path: string)
      ensures path != "" && path[0] == '/'
    {
      var base := "/tmp/winafi-mount-" + Digits(id);
      match this
      case Base(_) => base
      case Fat(_) => base + "/fat"
      case Ntfs(_) => base + "/ntfs"
    }
  }

  /** What follows a prefix of the same length is told apart by it. */
  lemma SamePrefix(prefix: string, a: string, b: string)
    requires prefix + a == prefix + b
    ensures a == b
  {
    assert (prefix + a)[|prefix|..] == a && (prefix + b)[|prefix|..] == b;
  }

  lemma DigitsDiffer(m: nat, n: nat)
    requires Digits(m) == Digits(n)
    ensures m == n
  {
    DigitsRoundTrip(m);
    DigitsRoundTrip(n);
  }

  /** The last character of the text says which of the three it is. */
  lemma LastOfText(d: DirName)
    ensures var last := d.Text()[|d.Text()| - 1];
            match d
            case Base(_) => IsDigit(last)
            case Fat(_) => last == 't'
            case Ntfs(_) => last == 's'
  {
    if d.Base? {
      assert Digits(d.id)[|Digits(d.id)| - 1] in Digits(d.id);
    }
  }

  /** The directories are where they belong, and no two of any runs have the same path. */
  lemma TextsDiffer(d: DirName, e: DirName)
    ensures d.Text() == e.Text() <==> d == e
    ensures Fat(d.id).Text() == Base(d.id).Text() + "/fat" && Ntfs(d.id).Text() == Base(d.id).Text() + "/ntfs"
  {
    hide Digits, IsDigit;
    if d.Text() == e.Text() {
      SameKind(d, e);
      TextParts(d);
      TextParts(e);
      var tail := Tail(d);
      hide DirName.Text, Tail;
      SamePrefix(FRONT, Digits(d.id) + tail, Digits(e.id) + tail);
      SameSuffix(Digits(d.id), Digits(e.id), tail);
      DigitsDiffer(d.id, e.id);
    }
  }

  const FRONT: string := "/tmp/winafi-mount-"

  function Tail(d: DirName): string {
    match d
    case Base(_) => ""
    case Fat(_) => "/fat"
    case Ntfs(_) => "/ntfs"
  }

  lemma TextParts(d: DirName)
    ensures d.Text() == FRONT + (Digits(d.id) + Tail(d))
  {
    hide Digits;
  }

  lemma SameKind(d: DirName, e: DirName)
    requires d.Text() == e.Text()
    ensures Tail(d) == Tail(e) && (d.Base? <==> e.Base?) && (d.Fat? <==> e.Fat?)
  {
    LastOfText(d);
    LastOfText(e);
    hide DirName.Text;
  }

  lemma SameSuffix(a: string, b: string, tail: string)
    requires a + tail == b + tail
    ensures a == b
  {
    assert (a + tail)[..|a|] == a && (b + tail)[..|b|] == b;
  }

  /** The steps of a write run that the run log records. */
  datatype Op =
    | ValidateDevice | CheckNotMounted | WipeGuard | CommitTable
    | FormatFat | FormatNtfs | MakeTempDirs | MountFat | MountNtfs | ExtractIso
    | InjectUnattend | InjectWinToGo | DetectWindows | SetupWindowsBoot | InstallUefiNtfs | SetupLinuxBoot
    | SyncFat | SyncNtfs | Unmount

  datatype Step = Step(op: Op, ok: bool)

  /** What the system can refuse when a run cleans up: to detach a mount, to remove an empty directory. */
  datatype Refusal = NoDetach(d: DirName) | NoRemove(d: DirName)

  /**
    The operating system underneath. It answers each call it may refuse from an arbitrary tape;
    `refusals` lists each refusal to detach a mount or to remove an empty directory.
   */
  class Machine {
    const answers: nat -> bool
    var clock: nat
    var trace: seq<Step>
    var dirs: set<DirName>
    var mounts: set<DirName>
    var nextId: nat
    ghost var refusals: seq<Refusal>

    ghost predicate Valid()
      reads this`dirs, this`mounts, this`nextId
    {
      && mounts <= dirs && (forall d :: d in mounts ==> !d.Base?)
      && (forall d :: d in dirs ==> d.id < nextId)
    }

    ghost predicate Refused(since: nat, r: Refusal)
      reads this`refusals
    {
      exists k :: since <= k < |refusals| && refusals[k] == r
    }

    /** The system has since then refused to detach what is mounted here, or to remove the directory. */
    ghost predicate Stuck(since: nat, d: DirName)
      reads this`refusals
    {
      Refused(since, NoDetach(d)) || Refused(since, NoRemove(d))
    }

    /** This directory cannot go: it is stuck, or one inside it is. */
    ghost predicate Held(since: nat, d: DirName)
      reads this`refusals
    {
      Stuck(since, d) || (d.Base? && (Stuck(since, Fat(d.id)) || Stuck(since, Ntfs(d.id))))
    }

    constructor (answers: nat -> bool)
      ensures Valid() && dirs == {} && mounts == {} && refusals == []
    {
      this.answers, clock, trace := answers, 0, [];
      dirs, mounts, nextId, refusals := {}, {}, 0, [];
    }

    /** Some call since then was refused. */
    ghost predicate Denied(since: nat)
      reads this`clock
    {
      exists k :: since <= k < clock && !answers(k)
    }

    method Ask() returns (granted: bool)
      modifies this`clock
      ensures granted == answers(old(clock)) && clock == old(clock) + 1
    {
      granted := answers(clock);
      clock := clock + 1;
    }

    /** Runs a step whose only effect the model keeps is its success. */
    method Do(op: Op) returns (ok: bool)
      modifies this`clock, this`trace
      ensures trace == old(trace) + [Step(op, ok)] && ok == answers(old(clock)) && clock == old(clock) + 1
    {
      ok := Ask();
      Note(op, ok);
    }

    method Note(op: Op, ok: bool)
      modifies this`trace
      ensures trace == old(trace) + [Step(op, ok)]
    {
      trace := trace + [Step(op, ok)];
    }

    /** mkdtemp: a directory under a name not in use. */
    method MakeTempDir() returns (id: Option<nat>)
      requires Valid()
      modifies this`clock, this`dirs, this`nextId
      ensures Valid()
      ensures (id.Some? <==> answers(old(clock))) && clock == old(clock) + 1
      ensures id.None? ==> dirs == old(dirs)
      ensures id.Some? ==> dirs == old(dirs) + {Base(id.value)} && forall d :: d in old(dirs) ==> d.id != id.value
    {
      var granted := Ask();
      if !granted {
        return None;
      }
      id := Some(nextId);
      dirs, nextId := dirs + {Base(nextId)}, nextId + 1;
    }

    method MakeDir(d: DirName) returns (ok: bool)
      requires Valid() && d.id < nextId
      modifies this`clock, this`dirs
      ensures Valid()
      ensures ok <==> d !in old(dirs) && answers(old(clock))
      ensures dirs == (if ok then old(dirs) + {d} else old(dirs)) && clock == old(clock) + if d in old(dirs) then 0 else 1
    {
      if d in dirs {
        return false;
      }
      ok := Ask();
      if ok {
        dirs := dirs + {d};
      }
    }

    /** One run of the mount command. */
    method RunMount(d: DirName) returns (ok: bool)
      requires Valid() && !d.Base?
      modifies this`clock, this`mounts
      ensures Valid()
      ensures mounts == if ok then old(mounts) + {d} else old(mounts)
      ensures var free := d in dirs && d !in old(mounts);
              (ok <==> free && answers(old(clock))) && clock == old(clock) + if free then 1 else 0
    {
      if d !in dirs || d in mounts {
        return false;
      }
      ok := Ask();
      if ok {
        mounts := mounts + {d};
      }
    }

    /** umount2(MNT_DETACH). */
    method Detach(d: DirName) returns (ok: bool)
      requires Valid()
      modifies this`clock, this`mounts, this`refusals
      ensures Valid() && mounts == if ok then old(mounts) - {d} else old(mounts)
      ensures (ok <==> d in old(mounts) && answers(old(clock)))
      ensures clock == old(clock) + if d in old(mounts) then 1 else 0
      ensures d in mounts ==> Refused(|old(refusals)|, NoDetach(d))
      ensures old(refusals) <= refusals
    {
      if d !in mounts {
        return false;
      }
      ok := Ask();
      if ok {
        mounts := mounts - {d};
      } else {
        refusals := refusals + [NoDetach(d)];
        assert refusals[|old(refusals)|] == NoDetach(d);
      }
    }

    predicate Empty(d: DirName)
      reads this
    {
      d.Base? ==> Fat(d.id) !in dirs && Ntfs(d.id) !in dirs
    }

    method RemoveDir(d: DirName) returns (ok: bool)
      requires Valid()
      modifies this`clock, this`dirs, this`refusals
      ensures Valid() && dirs == if ok then old(dirs) - {d} else old(dirs)
      ensures var free := d in old(dirs) && d !in mounts && old(Empty(d));
              (ok <==> free && answers(old(clock))) && clock == old(clock) + if free then 1 else 0
      ensures d in dirs ==> d in mounts || !old(Empty(d)) || Refused(|old(refusals)|, NoRemove(d))
      ensures old(refusals) <= refusals
    {
      if d !in dirs || d in mounts || !Empty(d) {
        return false;
      }
      ok := Ask();
      if ok {
        dirs := dirs - {d};
      } else {
        refusals := refusals + [NoRemove(d)];
        assert refusals[|old(refusals)|] == NoRemove(d);
      }
    }
  }

  /** mount_context_t: an empty string field is None. */
  class MountContext {
    var fat: Option<DirName>
    var ntfs: Option<DirName>
    var temp: Option<DirName>

    /** The three names belong to one run, or none has been made yet. */
    ghost predicate Valid()
      reads this
    {
      || (fat.None? && ntfs.None? && temp.None?)
      || exists id: nat :: fat == Some(Fat(id)) && ntfs == Some(Ntfs(id)) && temp == Some(Base(id))
    }

    constructor ()
      ensures Valid() && temp.None?
    {
      fat, ntfs, temp := None, None, None;
    }
  }

  /** Makes the two children of a new base directory, or takes back what there is of the three. */
  method MakeChildren(id: nat, m: Machine) returns (ok: bool)
    requires m.Valid() && Base(id) in m.dirs && Fat(id) !in m.dirs && Ntfs(id) !in m.dirs
    modifies m`clock, m`dirs, m`refusals
    ensures m.Valid() && old(m.refusals) <= m.refusals
    ensures m.clock >= old(m.clock) && (ok <==> !m.Denied(old(m.clock)))
    ensures m.dirs - {Base(id), Fat(id)} == old(m.dirs) - {Base(id)} + if ok then {Ntfs(id)} else {}
    ensures ok ==> Base(id) in m.dirs && Fat(id) in m.dirs
    ensures !ok && Base(id) in m.dirs ==> m.Held(|old(m.refusals)|, Base(id))
    ensures !ok && Fat(id) in m.dirs ==> m.Held(|old(m.refusals)|, Fat(id))
  {
    ok := m.MakeDir(Fat(id));
    if ok {
      ok := m.MakeDir(Ntfs(id));
      if !ok {
        var _ := m.RemoveDir(Fat(id));
      }
    }
    if !ok {
      var _ := m.RemoveDir(Base(id));
    }
  }

  /** mount_create_temp_dirs: the base directory and two children, or nothing. */
  method CreateTempDirs(ctx: MountContext, m: Machine) returns (ok: bool)
    requires ctx.Valid() && m.Valid()
    modifies ctx, m`clock, m`dirs, m`nextId, m`refusals
    ensures ctx.Valid() && m.Valid()
    ensures ok ==> ctx.temp.Some? && m.dirs == old(m.dirs) + CtxDirs(ctx) && CtxDirs(ctx) !! old(m.dirs)
    ensures !ok ==> old(m.dirs) <= m.dirs && m.dirs - old(m.dirs) <= CtxDirs(ctx)
    ensures !ok ==> forall d :: d in m.dirs && d !in old(m.dirs) ==> m.Held(|old(m.refusals)|, d)
    ensures old(m.refusals) <= m.refusals && m.clock >= old(m.clock) && (ok <==> !m.Denied(old(m.clock)))
  {
    var id := m.MakeTempDir();
    if id.None? {
      return false;
    }
    ctx.temp, ctx.fat, ctx.ntfs := Some(Base(id.value)), Some(Fat(id.value)), Some(Ntfs(id.value));
    ok := MakeChildren(id.value, m);
  }

  ghost function CtxDirs(ctx: MountContext): set<DirName>
    reads ctx
  {
    (if ctx.fat.Some? then {ctx.fat.value} else {})
    + (if ctx.ntfs.Some? then {ctx.ntfs.value} else {})
    + (if ctx.temp.Some? then {ctx.temp.value} else {})
  }

  /** The three directories are there and both volumes are mounted. */
  ghost predicate AllMounted(ctx: MountContext, dirs: set<DirName>, mounts: set<DirName>)
    reads ctx
  {
    && ctx.fat.Some? && ctx.ntfs.Some? && ctx.temp.Some? && CtxDirs(ctx) <= dirs
    && {ctx.fat.value, ctx.ntfs.value} <= mounts
  }

  /** mount_ntfs: three drivers in turn. */
  method MountNtfsVolume(d: DirName, m: Machine) returns (ok: bool)
    requires m.Valid() && d.Ntfs?
    modifies m`clock, m`mounts
    ensures m.Valid() && m.mounts == if ok then old(m.mounts) + {d} else old(m.mounts)
    // A mount that fails although there is a free directory was tried three times and refused each time.
    ensures ok <==>
              && d in m.dirs && d !in old(m.mounts)
              && exists k :: old(m.clock) <= k < old(m.clock) + 3 && m.answers(k)
    ensures old(m.clock) <= m.clock <= old(m.clock) + 3
    ensures !ok && d in m.dirs && d !in old(m.mounts) ==> m.clock == old(m.clock) + 3 && m.Denied(old(m.clock))
  {
    ok := m.RunMount(d);
    if ok {
      return;
    }
    ok := m.RunMount(d);
    if ok {
      return;
    }
    ok := m.RunMount(d);
  }

  /** Makes the directories and mounts both volumes, stopping at the first failure. */
  method Acquire(ctx: MountContext, m: Machine) returns (made: bool, fat: bool, ntfs: bool)
    requires ctx.Valid() && m.Valid()
    modifies ctx, m`clock, m`dirs, m`mounts, m`nextId, m`refusals
    ensures ctx.Valid() && m.Valid() && old(m.refusals) <= m.refusals
    ensures m.dirs - old(m.dirs) <= CtxDirs(ctx) && m.mounts - old(m.mounts) <= CtxDirs(ctx)
    ensures (ntfs ==> fat) && (fat ==> made)
    ensures made ==> ctx.temp.Some? && ctx.fat.Some? && ctx.ntfs.Some? && m.dirs == old(m.dirs) + CtxDirs(ctx)
    ensures m.mounts == old(m.mounts) + (if fat then {ctx.fat.value} else {}) + (if ntfs then {ctx.ntfs.value} else {})
    ensures m.clock >= old(m.clock) && (!ntfs ==> m.Denied(old(m.clock)))
  {
    fat, ntfs := false, false;
    made := CreateTempDirs(ctx, m);
    if made {
      fat := m.RunMount(ctx.fat.value);
      if fat {
        ntfs := MountNtfsVolume(ctx.ntfs.value, m);
      }
    }
  }

  /** Takes one volume down: detaches what is mounted there and removes the directory. */
  method TakeDown(d: DirName, m: Machine) returns (detached: bool)
    requires m.Valid() && !d.Base?
    modifies m`clock, m`dirs, m`mounts, m`refusals
    ensures m.Valid() && old(m.refusals) <= m.refusals
    ensures m.mounts == if detached then old(m.mounts) - {d} else old(m.mounts)
    ensures m.dirs == old(m.dirs) || m.dirs == old(m.dirs) - {d}
    ensures d in m.mounts ==> m.Refused(|old(m.refusals)|, NoDetach(d))
    ensures d in m.dirs ==> m.Stuck(|old(m.refusals)|, d)
    ensures m.clock >= old(m.clock) && (detached <==> d in old(m.mounts) && m.answers(old(m.clock)))
    ensures d in old(m.mounts) && !m.Denied(old(m.clock)) ==> d !in m.dirs
  {
    detached := m.Detach(d);
    var _ := m.RemoveDir(d);
  }

  /**
    unmount_and_cleanup. Every mount the context names is gone unless the system has just refused to
    detach that very mount, and every directory unless that one or one inside it could not go;
    nothing else changes.
   */
  method UnmountAndCleanup(ctx: MountContext, m: Machine) returns (ok: bool)
    requires ctx.Valid() && m.Valid()
    modifies m`clock, m`dirs, m`mounts, m`refusals
    ensures m.Valid() && old(m.refusals) <= m.refusals
    ensures m.dirs <= old(m.dirs) && old(m.dirs) - m.dirs <= CtxDirs(ctx)
    ensures m.mounts <= old(m.mounts) && old(m.mounts) - m.mounts <= CtxDirs(ctx)
    ensures ok ==> CtxDirs(ctx) !! m.dirs && CtxDirs(ctx) !! m.mounts
    ensures forall d :: d in CtxDirs(ctx) && d in m.mounts ==> m.Refused(|old(m.refusals)|, NoDetach(d))
    ensures forall d :: d in CtxDirs(ctx) && d in m.dirs ==> m.Held(|old(m.refusals)|, d)
    // What a run has mounted is taken down with success unless the system refuses something.
    ensures m.clock >= old(m.clock)
    ensures AllMounted(ctx, old(m.dirs), old(m.mounts)) && !m.Denied(old(m.clock)) ==> ok
  {
    ok := true;
    if ctx.ntfs.Some? {
      ok := TakeDown(ctx.ntfs.value, m);
    }
    if ctx.fat.Some? {
      var detached := TakeDown(ctx.fat.value, m);
      ok := ok && detached;
    }
    if ctx.temp.Some? {
      var removed := m.RemoveDir(ctx.temp.value);
      ok := ok && removed;
    }
  }
}
