/** The last check before a disk is written: a verdict about one snapshot of the system's tables. */
module WipeGuard {
  import opened CStrings
  import opened Devices

  /** A disk's directory in /sys/block: what is in it, and whether it can be opened. */
  datatype Directory = Directory(readable: bool, entries: seq<string>)

  /**
    How device numbers can be reached. `blocks` maps the path of each block device node to its
    device number, `sysnames` maps nodes to kernel names, and `partitions` gives the kernel's own
    device number of each partition, whatever paths lead to it. `holders` gives the numbers of the
    devices built on one, such as logical volumes, decrypted disks and arrays, directly or on others.
   */
  datatype Naming = Naming(
    blocks: map<string, nat>,
    sysnames: map<string, string>,
    directories: map<string, Directory>,
    partitions: map<string, nat>,
    holders: map<nat, set<nat>>)

  datatype MountEntry = MountEntry(source: string, dir: string)

  /**
    What mounts and swap areas there are. A table that cannot be read is None; the lines of
    /proc/mounts and /proc/swaps are what successive fgets calls return.
   */
  datatype Tables = Tables(
    procMounts: Option<seq<string>>,
    mtab: Option<seq<MountEntry>>,
    mounts: Option<seq<MountEntry>>,
    swaps: Option<seq<string>>)

  /** Overrun stands for a write behind the end of an array, after which anything may happen. */
  datatype Verdict = GuardOk | SystemDrive | DeviceLocked | NotFound | Overrun

  // ---------- reading the snapshot ----------

  /** stat finds a block device there. */
  predicate IsBlock(n: Naming, path: string) {
    path != "" && path in n.blocks
  }

  function Sysname(n: Naming, node: string): Option<string> {
    if IsBlock(n, node) && node in n.sysnames then Some(n.sysnames[node]) else None
  }

  predicate Readable(n: Naming, sysname: string) {
    sysname in n.directories && n.directories[sysname].readable
  }

  /** The entries a program gets to see. */
  function Entries(n: Naming, sysname: string): seq<string> {
    if Readable(n, sysname) then n.directories[sysname].entries else []
  }

  /** A directory entry that is a partition of the disk. */
  predicate IsPartition(n: Naming, name: string) {
    name != "" && name[0] != '.' && name in n.partitions
  }

  /** The device numbers found at "/dev/" and the names of the partitions among these, in order. */
  function PartitionNumbers(n: Naming, names: seq<string>): seq<nat> {
    if names == [] then []
    else
      var rest, last := PartitionNumbers(n, names[..|names| - 1]), names[|names| - 1];
      if IsPartition(n, last) && "/dev/" + last in n.blocks then rest + [n.blocks["/dev/" + last]] else rest
  }

  predicate Blank(c: char) { c == ' ' || c == '\t' || c == '\n' }

  /** strncmp on the node's length, then a delimiter: the test the guard applies to a mount line. */
  predicate MountLine(line: string, node: string) {
    node <= line && |line| > |node| && Blank(line[|node|])
  }

  /** The first blank-delimited field of a line, leading blanks skipped, at most 255 characters. */
  function FirstWord(line: string): string {
    if line != "" && IsSpace(line[0]) then FirstWord(line[1..]) else Truncate(Word(line), 255)
  }

  function Word(line: string): (w: string)
    ensures w <= line && forall c :: c in w ==> !IsSpace(c)
    ensures |w| < |line| ==> IsSpace(line[|w|])
  {
    if line == "" || IsSpace(line[0]) then ""
    else
      assert line == [line[0]] + line[1..];
      [line[0]] + Word(line[1..])
  }

  predicate Protected(dir: string) {
    dir in {"/", "/boot", "/boot/efi", "/efi", "/home", "/var", "/usr"}
  }

  // ---------- what the tables say about device numbers ----------

  /** The path leads to one of these device numbers. */
  ghost predicate LeadsTo(n: Naming, path: string, numbers: iset<nat>) {
    IsBlock(n, path) && n.blocks[path] in numbers
  }

  /** An entry of this table puts one of these device numbers at a protected place. */
  ghost predicate AtProtected(n: Naming, table: Option<seq<MountEntry>>, numbers: iset<nat>) {
    table.Some? && exists e :: e in table.value && LeadsTo(n, e.source, numbers) && Protected(e.dir)
  }

  /** A line after the heading of /proc/swaps names a node with one of these device numbers. */
  ghost predicate SwapOn(n: Naming, swaps: Option<seq<string>>, numbers: iset<nat>) {
    swaps.Some? && exists i :: 0 < i < |swaps.value| && LeadsTo(n, FirstWord(swaps.value[i]), numbers)
  }

  /** The source field of some line of /proc/mounts is a node with one of these device numbers. */
  ghost predicate InMounts(n: Naming, lines: Option<seq<string>>, numbers: iset<nat>) {
    lines.Some? && exists line :: line in lines.value && LeadsTo(n, Word(line), numbers)
  }

  // ---------- what it takes to be wiped ----------

  ghost predicate IsChild(n: Naming, sysname: string, number: nat) {
    && sysname in n.directories
    && exists name :: name in n.directories[sysname].entries && IsPartition(n, name) && n.partitions[name] == number
  }

  /** The number of the disk itself, or of one of its partitions, as the kernel has them. */
  ghost predicate IsPart(n: Naming, node: string, k: nat)
    requires Sysname(n, node).Some?
  {
    k == n.blocks[node] || IsChild(n, Sysname(n, node).value, k)
  }

  /** The device numbers that stand for data on the disk: its own, its partitions', and of all built on these. */
  ghost function Own(n: Naming, node: string): iset<nat>
    requires Sysname(n, node).Some?
  {
    iset k: nat | IsPart(n, node, k)
               || exists base :: IsPart(n, node, base) && base in n.holders && k in n.holders[base]
  }

  /** A node that can be told to be a disk's, and is not of a kind that is never written. */
  predicate Acceptable(n: Naming, node: string) {
    !VirtualNode(node) && !("/dev/mapper/" <= node) && Sysname(n, node).Some?
  }

  /**
    The disk may be written: neither it nor any of its partitions, nor anything built on them, under
    whatever path, is mounted, holds a swap area, or is at a protected place in either mount table.
   */
  ghost predicate Wipeable(n: Naming, t: Tables, node: string) {
    && Acceptable(n, node)
    && var own := Own(n, node);
       && !InMounts(n, t.procMounts, own) && !SwapOn(n, t.swaps, own)
       && !AtProtected(n, t.mtab, own) && !AtProtected(n, t.mounts, own)
  }

  // ---------- what the guard looks for ----------

  /** Some line of /proc/mounts is for this node. */
  ghost predicate Mounted(t: Tables, node: string) {
    t.procMounts.Some? && exists line :: line in t.procMounts.value && MountLine(line, node)
  }

  ghost predicate PartitionMounted(n: Naming, t: Tables, names: seq<string>) {
    exists name :: name in names && IsPartition(n, name) && Mounted(t, "/dev/" + name)
  }

  const ROOM: nat := 128

  /** As many numbers as fit an array of the guard. */
  function Fit(numbers: seq<nat>): seq<nat> {
    if |numbers| <= ROOM then numbers else numbers[..ROOM]
  }

  /** What the swap scan collects. */
  function SwapNumbers(n: Naming, sysname: string): seq<nat> {
    if !Readable(n, sysname) then []
    else
      Fit(PartitionNumbers(n, Entries(n, sysname)))
      + (if "/dev/" + sysname in n.blocks then [n.blocks["/dev/" + sysname]] else [])
  }

  /** Its array is full when the number of the disk is to be added. */
  predicate SwapOverruns(n: Naming, sysname: string) {
    && Readable(n, sysname) && |PartitionNumbers(n, Entries(n, sysname))| >= ROOM
    && "/dev/" + sysname in n.blocks
  }

  /** What the scan for protected places collects. */
  function DiskNumbers(n: Naming, node: string, sysname: string): seq<nat>
    requires node in n.blocks
  {
    Fit([n.blocks[node]] + PartitionNumbers(n, Entries(n, sysname)))
  }

  ghost function AsSet(numbers: seq<nat>): iset<nat> {
    iset k | k in numbers
  }

  /** None of its tests finds anything. */
  ghost predicate Passes(n: Naming, t: Tables, node: string) {
    && Acceptable(n, node)
    && var sysname := Sysname(n, node).value;
       && !Mounted(t, node) && !PartitionMounted(n, t, Entries(n, sysname))
       && !SwapOverruns(n, sysname) && !SwapOn(n, t.swaps, AsSet(SwapNumbers(n, sysname)))
       && !Guarded(n, t, node)
  }

  /** The guard passes the disk, or gets to where it writes behind its array and may do anything. */
  ghost predicate MayPass(n: Naming, t: Tables, node: string) {
    Passes(n, t, node) || (Acceptable(n, node) && !InUse(n, t, node) && SwapOverruns(n, Sysname(n, node).value))
  }

  /** The node is a block device, and it or a partition of its disk is mounted. */
  ghost predicate InUse(n: Naming, t: Tables, node: string) {
    && IsBlock(n, node)
    && (Mounted(t, node) || (Sysname(n, node).Some? && PartitionMounted(n, t, Entries(n, Sysname(n, node).value))))
  }

  /** The scans by device number find a protected place in one of the two tables. */
  ghost predicate Guarded(n: Naming, t: Tables, node: string)
    requires Sysname(n, node).Some?
  {
    var numbers := AsSet(DiskNumbers(n, node, Sysname(n, node).value));
    AtProtected(n, t.mtab, numbers) || AtProtected(n, t.mounts, numbers)
  }

  // ---------- when passing means wipeable ----------

  /** A mount line as the kernel writes it: the source field, with blanks escaped, then a space. */
  predicate KernelLine(line: string) {
    exists k | 0 < k < |line| :: line[k] == ' ' && Word(line) == line[..k]
  }

  ghost predicate KernelTables(t: Tables) {
    t.procMounts.Some? ==> forall line :: line in t.procMounts.value ==> KernelLine(line)
  }

  predicate OneWord(s: string) {
    s != "" && forall c :: c in s ==> !IsSpace(c)
  }

  /** The path is "/dev/" and the name of a partition the guard gets to see. */
  ghost predicate Visible(n: Naming, sysname: string, path: string) {
    exists name :: name in Entries(n, sysname) && IsPartition(n, name) && path == "/dev/" + name
  }

  /**
    This path is no way around the guard: if it can stand in /proc/mounts it is the node itself or
    that of a visible partition, if it can stand in /proc/swaps its number is one the swap scan
    collects, and in any case the other scan collects its number.
   */
  ghost predicate Covered(n: Naming, node: string, path: string)
    requires Sysname(n, node).Some? && path in n.blocks
  {
    var sysname := Sysname(n, node).value;
    && (OneWord(path) ==> path == node || Visible(n, sysname, path))
    && (OneWord(path) && |path| <= 255 ==> n.blocks[path] in SwapNumbers(n, sysname))
    && n.blocks[path] in DiskNumbers(n, node, sysname)
  }

  /** Every path to one of the disk's own numbers is covered. */
  ghost predicate WellNamed(n: Naming, node: string)
    requires Sysname(n, node).Some?
  {
    forall path :: LeadsTo(n, path, Own(n, node)) ==> Covered(n, node, path)
  }

  lemma CoveredMounts(n: Naming, t: Tables, node: string)
    requires Acceptable(n, node) && WellNamed(n, node) && KernelTables(t)
    requires InMounts(n, t.procMounts, Own(n, node))
    ensures Mounted(t, node) || PartitionMounted(n, t, Entries(n, Sysname(n, node).value))
  {
    hide Word, VirtualNode, SwapNumbers, DiskNumbers;
    var line :| line in t.procMounts.value && LeadsTo(n, Word(line), Own(n, node));
    assert Covered(n, node, Word(line));
    assert MountLine(line, Word(line));
  }

  lemma CoveredNumbers(n: Naming, t: Tables, node: string)
    requires Acceptable(n, node) && WellNamed(n, node)
    ensures SwapOn(n, t.swaps, Own(n, node)) ==> SwapOn(n, t.swaps, AsSet(SwapNumbers(n, Sysname(n, node).value)))
    ensures AtProtected(n, t.mtab, Own(n, node)) || AtProtected(n, t.mounts, Own(n, node)) ==> Guarded(n, t, node)
  {
    hide SwapNumbers, DiskNumbers, Protected, FirstWord, Own, VirtualNode;
    if SwapOn(n, t.swaps, Own(n, node)) {
      var i :| 0 < i < |t.swaps.value| && LeadsTo(n, FirstWord(t.swaps.value[i]), Own(n, node));
      FirstWordIsWord(t.swaps.value[i]);
      assert Covered(n, node, FirstWord(t.swaps.value[i]));
    }
  }

  lemma {:induction false} FirstWordIsWord(line: string)
    ensures |FirstWord(line)| <= 255 && forall c :: c in FirstWord(line) ==> !IsSpace(c)
  {
    if line != "" && IsSpace(line[0]) {
      FirstWordIsWord(line[1..]);
    }
  }

  /** A line that names this path and nothing else. */
  lemma LineFor(path: string)
    requires OneWord(path)
    ensures var line := path + " ";
            && Word(line) == path && KernelLine(line) && (|path| <= 255 ==> FirstWord(line) == path)
            && forall node :: MountLine(line, node) ==> node == path
  {
    var line := path + " ";
    assert line[..|path|] == path;
    forall i | 0 <= i < |path|
      ensures !IsSpace(line[i])
    {
      assert line[i] == path[i] && path[i] in path;
    }
    WordIs(line, path, |path|);
    forall node | MountLine(line, node)
      ensures node == path
    {
      assert Blank(line[|node|]) ==> IsSpace(line[|node|]);
    }
  }

  lemma {:induction false} WordIs(line: string, word: string, k: nat)
    requires k == |word| < |line| && line[..k] == word && IsSpace(line[k])
    requires forall i :: 0 <= i < k ==> !IsSpace(line[i])
    ensures Word(line) == word
  {
  }

  /** Tables in which only this path is mounted, swapped on, or at a protected place. */
  function OnlyMounted(path: string): Tables {
    Tables(Some([path + " "]), None, None, None)
  }

  function OnlySwap(path: string): Tables {
    Tables(None, None, None, Some(["", path + " "]))
  }

  function OnlyProtected(path: string): Tables {
    Tables(None, Some([MountEntry(path, "/")]), None, None)
  }

  /** A path that is not covered is a way around the guard, with one of three tables. */
  lemma WayAround(n: Naming, node: string, path: string) returns (t: Tables)
    requires Acceptable(n, node) && !SwapOverruns(n, Sysname(n, node).value)
    requires LeadsTo(n, path, Own(n, node)) && !Covered(n, node, path)
    ensures KernelTables(t) && Passes(n, t, node) && !Wipeable(n, t, node)
  {
    hide SwapNumbers, DiskNumbers, Word, FirstWord, VirtualNode, SwapOverruns, Own;
    var sysname := Sysname(n, node).value;
    if OneWord(path) {
      LineFor(path);
    }
    if OneWord(path) && path != node && !Visible(n, sysname, path) {
      t := OnlyMounted(path);
      assert path + " " in t.procMounts.value;
    } else if OneWord(path) && |path| <= 255 && n.blocks[path] !in SwapNumbers(n, sysname) {
      t := OnlySwap(path);
      assert t.swaps.value[1] == path + " ";
    } else {
      t := OnlyProtected(path);
      assert MountEntry(path, "/") in t.mtab.value;
    }
  }

  /** The guard can be relied on: every path to one of the disk's numbers is covered, and its arrays have room. */
  ghost predicate Reliable(n: Naming, node: string) {
    Acceptable(n, node) ==> WellNamed(n, node) && !SwapOverruns(n, Sysname(n, node).value)
  }

  /**
    What gets past the guard may be wiped, whatever is mounted or swapped on, exactly when every path
    to one of the disk's numbers is covered and the swap scan has room for these.
   */
  lemma SoundExactly(n: Naming, node: string)
    requires Acceptable(n, node)
    ensures (forall t :: KernelTables(t) && MayPass(n, t, node) ==> Wipeable(n, t, node))
            <==> Reliable(n, node)
  {
    hide KernelTables, Passes, InUse, Wipeable, SwapOverruns, Own, SwapNumbers, DiskNumbers, VirtualNode;
    if SwapOverruns(n, Sysname(n, node).value) {
      OverrunsAt(n, node);
      Overruns(n, node);
    } else if WellNamed(n, node) {
      forall t | KernelTables(t) && MayPass(n, t, node)
        ensures Wipeable(n, t, node)
      {
        PassesIsWipeable(n, t, node);
      }
    } else {
      var path :| LeadsTo(n, path, Own(n, node)) && !Covered(n, node, path);
      var t := WayAround(n, node, path);
    }
  }

  lemma LetThroughIsWipeable(n: Naming, t: Tables, node: string)
    requires Reliable(n, node) && KernelTables(t) && MayPass(n, t, node)
    ensures Wipeable(n, t, node)
  {
    hide KernelTables, Wipeable, WellNamed, InUse, SwapOverruns, VirtualNode;
    SoundExactly(n, node);
  }

  /** The swap scan has collected 128 numbers when that of the disk itself is to be added. */
  predicate TooMany(n: Naming, sysname: string) {
    && Readable(n, sysname) && |PartitionNumbers(n, Entries(n, sysname))| >= 128
    && "/dev/" + sysname in n.blocks
  }

  lemma OverrunsAt(n: Naming, node: string)
    requires Sysname(n, node).Some?
    ensures SwapOverruns(n, Sysname(n, node).value) <==> TooMany(n, Sysname(n, node).value)
  {
  }

  /** With 128 partitions or more anything may happen to the disk that "/" is on. */
  lemma Overruns(n: Naming, node: string)
    requires Acceptable(n, node) && TooMany(n, Sysname(n, node).value)
    ensures var t := OnlyProtected(node); KernelTables(t) && MayPass(n, t, node) && !Wipeable(n, t, node)
  {
    OverrunsAt(n, node);
    hide VirtualNode, SwapOverruns, TooMany;
    assert MountEntry(node, "/") in OnlyProtected(node).mtab.value;
    assert IsPart(n, node, n.blocks[node]);
  }

  // ---------- the protected places ----------

  /** The seven places a disk in use as a system drive is mounted at. */
  predicate SystemPlace(dir: string) {
    || dir == "/" || dir == "/boot" || dir == "/boot/efi" || dir == "/efi"
    || dir == "/home" || dir == "/var" || dir == "/usr"
  }

  lemma PlacesProtected(dir: string)
    ensures Protected(dir) <==> SystemPlace(dir)
  {
  }

  /** An entry for the disk itself at one of the seven, in either table, stops the guard, whatever else is mounted. */
  lemma SystemPlaceStops(n: Naming, t: Tables, node: string, e: MountEntry)
    requires (t.mtab.Some? && e in t.mtab.value) || (t.mounts.Some? && e in t.mounts.value)
    requires IsBlock(n, e.source) && IsBlock(n, node) && n.blocks[e.source] == n.blocks[node] && SystemPlace(e.dir)
    ensures !Passes(n, t, node) && !Wipeable(n, t, node)
  {
    PlacesProtected(e.dir);
    hide Protected, SystemPlace, VirtualNode, Mounted, PartitionMounted, SwapOn, InMounts, SwapOverruns, PartitionNumbers;
    if Acceptable(n, node) {
      assert IsPart(n, node, n.blocks[node]);
      var numbers := DiskNumbers(n, node, Sysname(n, node).value);
      assert numbers[0] == n.blocks[node];
      assert LeadsTo(n, e.source, AsSet(numbers)) && LeadsTo(n, e.source, Own(n, node));
    }
  }

  /** A partition that the disk's directory shows, mounted under its own name, stops the guard. */
  lemma MountedPartitionStops(n: Naming, t: Tables, node: string, name: string, rest: string)
    requires Sysname(n, node).Some? && Readable(n, Sysname(n, node).value)
    requires name in n.directories[Sysname(n, node).value].entries && name in n.partitions && name != "" && name[0] != '.'
    requires t.procMounts.Some? && "/dev/" + name + " " + rest in t.procMounts.value
    ensures !Passes(n, t, node)
  {
    hide VirtualNode, SwapOn, SwapNumbers, SwapOverruns, Guarded;
    var line := "/dev/" + name + " " + rest;
    assert MountLine(line, "/dev/" + name);
  }

  /** A swap area on the disk itself or a partition of it stops the guard, on a disk named as usual. */
  lemma SwapStops(n: Naming, t: Tables, node: string, line: string, path: string)
    requires Canonical(n, node) && t.swaps.Some? && line in t.swaps.value && t.swaps.value[0] != line
    requires OneWord(path) && |path| <= 255 && path + " " <= line
    requires path in n.blocks && n.blocks[path] in Own(n, node)
    ensures !Passes(n, t, node)
  {
    FirstOfLine(line, path);
    CanonicalNumbers(n, node);
    hide Own, SwapNumbers, DiskNumbers, FirstWord, VirtualNode, Mounted, PartitionMounted, Guarded, SwapOverruns;
    var i :| 0 <= i < |t.swaps.value| && t.swaps.value[i] == line;
    assert LeadsTo(n, FirstWord(t.swaps.value[i]), AsSet(SwapNumbers(n, Sysname(n, node).value)));
  }

  lemma FirstOfLine(line: string, path: string)
    requires OneWord(path) && |path| <= 255 && path + " " <= line
    ensures FirstWord(line) == path
  {
    assert (path + " ")[|path|] == ' ' && line[|path|] == ' ' && line[..|path|] == path;
    forall i | 0 <= i < |path|
      ensures !IsSpace(line[i])
    {
      assert line[i] == path[i] && path[i] in path;
    }
    WordIs(line, path, |path|);
  }

  /** The heading of /proc/swaps is not taken for an area, whatever it says. */
  lemma HeadingPasses(n: Naming, node: string, heading: string)
    requires Acceptable(n, node) && !TooMany(n, Sysname(n, node).value)
    ensures Passes(n, Tables(None, None, None, Some([heading])), node)
  {
    OverrunsAt(n, node);
    hide VirtualNode, SwapOverruns, TooMany, PartitionNumbers, SwapNumbers, FirstWord;
  }

  /** A disk that one table has at one place, and that is nowhere else, is passed exactly away from the seven. */
  lemma PlaceDecides(n: Naming, node: string, dir: string)
    requires Acceptable(n, node) && !TooMany(n, Sysname(n, node).value)
    ensures var e := MountEntry(node, dir);
            && (Passes(n, Tables(None, Some([e]), None, None), node) <==> !SystemPlace(dir))
            && (Passes(n, Tables(None, None, Some([e]), None), node) <==> !SystemPlace(dir))
  {
    var e := MountEntry(node, dir);
    OverrunsAt(n, node);
    PlacesProtected(dir);
    hide Protected, SystemPlace, VirtualNode, SwapOverruns, TooMany, PartitionNumbers;
    assert e in [e];
    var numbers := DiskNumbers(n, node, Sysname(n, node).value);
    assert numbers[0] == n.blocks[node];
    assert LeadsTo(n, node, AsSet(numbers));
  }

  lemma PassesIsWipeable(n: Naming, t: Tables, node: string)
    requires Acceptable(n, node) && WellNamed(n, node) && KernelTables(t) && Passes(n, t, node)
    ensures Wipeable(n, t, node)
  {
    hide SwapNumbers, DiskNumbers, Own, VirtualNode, SwapOverruns, SwapOn, AtProtected, InMounts, WellNamed, Mounted;
    CoveredNumbers(n, t, node);
    if InMounts(n, t.procMounts, Own(n, node)) {
      CoveredMounts(n, t, node);
    }
  }

  // ---------- the usual case, and ways around ----------

  /**
    As udev names disks: the directory can be read, the disk and each of its partitions has its
    node at "/dev/" and its kernel name, nothing is built on them, and no array is too small.
   */
  ghost predicate Canonical(n: Naming, node: string) {
    && Sysname(n, node).Some?
    && var sysname := Sysname(n, node).value;
       && Readable(n, sysname) && |PartitionNumbers(n, Entries(n, sysname))| < 128
       && "/dev/" + sysname in n.blocks && n.blocks["/dev/" + sysname] == n.blocks[node]
       && (forall name :: name in Entries(n, sysname) && IsPartition(n, name) ==>
             "/dev/" + name in n.blocks && n.blocks["/dev/" + name] == n.partitions[name])
       && (forall k :: k in n.holders && IsPart(n, node, k) ==> n.holders[k] == {})
  }

  ghost predicate NumberedBy(n: Naming, names: seq<string>, k: nat) {
    exists name :: name in names && IsPartition(n, name) && "/dev/" + name in n.blocks && n.blocks["/dev/" + name] == k
  }

  lemma {:induction false} NumbersOf(n: Naming, names: seq<string>, k: nat)
    ensures k in PartitionNumbers(n, names) <==> NumberedBy(n, names, k)
  {
    if names != [] {
      var front, last := names[..|names| - 1], names[|names| - 1];
      NumbersOf(n, front, k);
      assert names == front + [last];
      assert forall name :: name in names <==> name in front || name == last;
    }
  }

  /** Then both scans by device number look for exactly the disk's own numbers. */
  lemma CanonicalNumbers(n: Naming, node: string)
    requires Canonical(n, node)
    ensures AsSet(SwapNumbers(n, Sysname(n, node).value)) == Own(n, node)
    ensures AsSet(DiskNumbers(n, node, Sysname(n, node).value)) == Own(n, node)
    ensures !SwapOverruns(n, Sysname(n, node).value)
  {
    var sysname := Sysname(n, node).value;
    var names := Entries(n, sysname);
    forall k: nat
      ensures k in PartitionNumbers(n, names) <==> IsChild(n, sysname, k)
    {
      NumbersOf(n, names, k);
    }
    hide PartitionNumbers, IsChild, IsPartition;
  }

  /** Only its own node and those of its visible partitions lead to the disk. */
  ghost predicate NoOtherPath(n: Naming, node: string)
    requires Sysname(n, node).Some?
  {
    forall path :: LeadsTo(n, path, Own(n, node)) ==> path == node || Visible(n, Sysname(n, node).value, path)
  }

  /**
    So on such a disk passing means all that it should but for mounts under other names, and all of
    it when no other path leads to the disk.
   */
  lemma CanonicalIsSound(n: Naming, t: Tables, node: string)
    requires Canonical(n, node) && Acceptable(n, node) && Passes(n, t, node)
    ensures Wipeable(n, t, node) <==> !InMounts(n, t.procMounts, Own(n, node))
    ensures KernelTables(t) && NoOtherPath(n, node) ==> Wipeable(n, t, node)
  {
    hide InMounts, SwapOn, AtProtected, KernelTables, VirtualNode, SwapNumbers, DiskNumbers, Mounted, PartitionMounted;
    CanonicalNumbers(n, node);
    var sysname := Sysname(n, node).value;
    if KernelTables(t) && NoOtherPath(n, node) {
      forall path | LeadsTo(n, path, Own(n, node))
        ensures Covered(n, node, path)
      {
        assert n.blocks[path] in AsSet(SwapNumbers(n, sysname));
        assert n.blocks[path] in AsSet(DiskNumbers(n, node, sysname));
      }
      PassesIsWipeable(n, t, node);
    }
  }

  /** A node without a directory of its own, as a partition has not, passes as an active swap area. */
  lemma SwapMissed(node: string, sysname: string, number: nat)
    requires OneWord(node) && |node| <= 255 && !VirtualNode(node) && !("/dev/mapper/" <= node)
    ensures var n := Naming(map[node := number], map[node := sysname], map[], map[], map[]);
            Passes(n, OnlySwap(node), node) && !Wipeable(n, OnlySwap(node), node)
  {
    LineFor(node);
    hide VirtualNode, FirstWord, Word;
    assert OnlySwap(node).swaps.value[1] == node + " ";
  }

  /** So does a disk whose node is not "/dev/" and its kernel name, with a directory. */
  lemma SwapMissedElsewhere(node: string, sysname: string, number: nat)
    requires OneWord(node) && |node| <= 255 && !VirtualNode(node) && !("/dev/mapper/" <= node)
    requires node != "/dev/" + sysname
    ensures var n := Naming(map[node := number], map[node := sysname],
                            map[sysname := Directory(true, [])], map[], map[]);
            Passes(n, OnlySwap(node), node) && !Wipeable(n, OnlySwap(node), node)
  {
    LineFor(node);
    hide VirtualNode, FirstWord, Word;
    assert OnlySwap(node).swaps.value[1] == node + " ";
  }

  /** And a disk that is named as usual, but mounted under another path, away from protected places. */
  lemma MountMissed(sysname: string, alias: string, number: nat)
    requires var node := "/dev/" + sysname; !VirtualNode(node) && !("/dev/mapper/" <= node) && alias != node
    requires OneWord(alias)
    ensures var node := "/dev/" + sysname;
            var n := Naming(map[node := number, alias := number], map[node := sysname],
                            map[sysname := Directory(true, [])], map[], map[]);
            Canonical(n, node) && Passes(n, OnlyMounted(alias), node) && !Wipeable(n, OnlyMounted(alias), node)
  {
    LineFor(alias);
    hide VirtualNode, FirstWord, Word;
    assert alias + " " in OnlyMounted(alias).procMounts.value;
  }

  /** And a disk that "/" is on by way of a device built on it, such as a decrypted one. */
  lemma StackedMissed(sysname: string, mapped: string, number: nat, other: nat)
    requires var node := "/dev/" + sysname; !VirtualNode(node) && !("/dev/mapper/" <= node) && mapped != node
    requires mapped != "" && other != number
    ensures var node := "/dev/" + sysname;
            var n := Naming(map[node := number, mapped := other], map[node := sysname],
                            map[sysname := Directory(true, [])], map[], map[number := {other}]);
            Passes(n, OnlyProtected(mapped), node) && !Wipeable(n, OnlyProtected(mapped), node)
  {
    hide VirtualNode;
    var node := "/dev/" + sysname;
    var n := Naming(map[node := number, mapped := other], map[node := sysname],
                    map[sysname := Directory(true, [])], map[], map[number := {other}]);
    assert MountEntry(mapped, "/") in OnlyProtected(mapped).mtab.value;
    assert IsPart(n, node, number) && other in Own(n, node);
  }

  // ---------- the scans ----------

  /** The scan of /proc/mounts for one node. */
  method ScanMounts(t: Tables, node: string) returns (found: bool)
    ensures found == Mounted(t, node)
  {
    if t.procMounts.None? {
      return false;
    }
    var lines := t.procMounts.value;
    for i := 0 to |lines|
      invariant forall k :: 0 <= k < i ==> !MountLine(lines[k], node)
    {
      if MountLine(lines[i], node) {
        return true;
      }
    }
    return false;
  }

  /** Adds the device numbers of the partitions to `devs`, as long as there is room. */
  method CollectPartitions(n: Naming, sysname: string, devs: array<nat>, start: nat) returns (count: nat)
    requires start <= devs.Length == ROOM
    modifies devs
    ensures count <= ROOM
    ensures devs[..count] == Fit(old(devs[..start]) + PartitionNumbers(n, Entries(n, sysname)))
  {
    ghost var before := devs[..start];
    var names := Entries(n, sysname);
    count := start;
    var i := 0;
    while i < |names| && count < devs.Length
      invariant i <= |names| && start <= count <= devs.Length
      invariant devs[..count] == before + PartitionNumbers(n, names[..i])
    {
      PrefixNumbers(n, names, i);
      if IsPartition(n, names[i]) && "/dev/" + names[i] in n.blocks {
        devs[count] := n.blocks["/dev/" + names[i]];
        count := count + 1;
      }
      i := i + 1;
    }
    MoreNumbers(n, names, i);
    assert names[..|names|] == names;
  }

  lemma PrefixNumbers(n: Naming, names: seq<string>, i: nat)
    requires i < |names|
    ensures PartitionNumbers(n, names[..i + 1]) == PartitionNumbers(n, names[..i])
            + (if IsPartition(n, names[i]) && "/dev/" + names[i] in n.blocks then [n.blocks["/dev/" + names[i]]]
               else [])
  {
    assert names[..i + 1][..i] == names[..i];
  }

  lemma {:induction false} MoreNumbers(n: Naming, names: seq<string>, i: nat)
    requires i <= |names|
    ensures PartitionNumbers(n, names[..i]) <= PartitionNumbers(n, names)
  {
    if i < |names| {
      var front := names[..|names| - 1];
      assert front[..i] == names[..i];
      MoreNumbers(n, front, i);
    } else {
      assert names[..i] == names;
    }
  }

  /** Whether the first `count` collected numbers include this one. */
  method Among(devs: array<nat>, count: nat, number: nat) returns (found: bool)
    requires count <= devs.Length
    ensures found == (number in devs[..count])
  {
    for i := 0 to count
      invariant number !in devs[..i]
    {
      if devs[i] == number {
        return true;
      }
    }
    return false;
  }

  /** The numbers the swap scan compares with, or None when there are too many for its array. */
  method CollectForSwap(n: Naming, sysname: string) returns (devs: array<nat>, count: Option<nat>)
    requires Readable(n, sysname)
    ensures count.None? <==> SwapOverruns(n, sysname)
    ensures count.Some? ==> count.value <= devs.Length && devs[..count.value] == SwapNumbers(n, sysname)
  {
    devs := new nat[ROOM];
    var found := CollectPartitions(n, sysname, devs, 0);
    assert devs[..found] == Fit(PartitionNumbers(n, Entries(n, sysname))) by {
      assert [] + PartitionNumbers(n, Entries(n, sysname)) == PartitionNumbers(n, Entries(n, sysname));
    }
    count := Some(found);
    if "/dev/" + sysname in n.blocks {
      if found == ROOM {
        return devs, None;
      }
      ghost var front := devs[..found];
      devs[found] := n.blocks["/dev/" + sysname];
      assert devs[..found + 1] == front + [n.blocks["/dev/" + sysname]];
      count := Some(found + 1);
    }
  }

  /** The lines of /proc/swaps, behind the first one. */
  method ScanSwaps(n: Naming, lines: seq<string>, devs: array<nat>, count: nat) returns (found: bool)
    requires count <= devs.Length
    ensures found == SwapOn(n, Some(lines), AsSet(devs[..count]))
  {
    hide FirstWord;
    var i := 1;
    while i < |lines|
      invariant 1 <= i
      invariant forall k :: 0 < k < i && k < |lines| ==> !LeadsTo(n, FirstWord(lines[k]), AsSet(devs[..count]))
    {
      var name := FirstWord(lines[i]);
      if IsBlock(n, name) {
        found := Among(devs, count, n.blocks[name]);
        if found {
          return;
        }
      }
      i := i + 1;
    }
    found := false;
  }

  /** child_partition_has_swap; the disk's own number goes behind those of its partitions. */
  method HasSwap(n: Naming, t: Tables, sysname: string) returns (v: Verdict)
    ensures v == if SwapOverruns(n, sysname) then Overrun
                 else if SwapOn(n, t.swaps, AsSet(SwapNumbers(n, sysname))) then SystemDrive else GuardOk
  {
    hide PartitionNumbers, SwapOn;
    if !Readable(n, sysname) {
      NoNumbersNoSwap(n, t);
      return GuardOk;
    }
    var devs, count := CollectForSwap(n, sysname);
    if count.None? {
      return Overrun;
    }
    if t.swaps.None? {
      NoTableNoSwap(n, AsSet(SwapNumbers(n, sysname)));
      return GuardOk;
    }
    var found := ScanSwaps(n, t.swaps.value, devs, count.value);
    v := if found then SystemDrive else GuardOk;
  }

  lemma NoNumbersNoSwap(n: Naming, t: Tables)
    ensures !SwapOn(n, t.swaps, AsSet([]))
  {
  }

  lemma NoTableNoSwap(n: Naming, numbers: iset<nat>)
    ensures !SwapOn(n, None, numbers)
  {
  }

  /** The scan of one mount table by device number. */
  method ScanTable(n: Naming, table: Option<seq<MountEntry>>, devs: array<nat>, count: nat) returns (hit: bool)
    requires count <= devs.Length
    ensures hit == AtProtected(n, table, AsSet(devs[..count]))
  {
    if table.None? {
      return false;
    }
    var entries := table.value;
    for i := 0 to |entries|
      invariant forall k :: 0 <= k < i ==>
                  !(LeadsTo(n, entries[k].source, AsSet(devs[..count])) && Protected(entries[k].dir))
    {
      var source := entries[i].source;
      if IsBlock(n, source) {
        var ours := Among(devs, count, n.blocks[source]);
        if ours && Protected(entries[i].dir) {
          return true;
        }
      }
    }
    return false;
  }

  /** child_partition_mounted_at_protected */
  method MountedAtProtected(n: Naming, t: Tables, node: string) returns (v: Verdict)
    ensures v == if Sysname(n, node).None? then NotFound
                 else if Guarded(n, t, node) then SystemDrive else GuardOk
  {
    hide AtProtected, PartitionNumbers;
    var sysname := Sysname(n, node);
    if sysname.None? {
      return NotFound;
    }
    var devs := new nat[ROOM];
    devs[0] := n.blocks[node];
    assert devs[..1] == [n.blocks[node]];
    var count := CollectPartitions(n, sysname.value, devs, 1);
    var hit := ScanTable(n, t.mtab, devs, count);
    if !hit {
      hit := ScanTable(n, t.mounts, devs, count);
    }
    v := if hit then SystemDrive else GuardOk;
  }

  /** What the first entry of a table whose source is this very path comes to. */
  function ByName(table: seq<MountEntry>, node: string): (v: Verdict)
    ensures v == SystemDrive ==> exists e :: e in table && e.source == node && Protected(e.dir)
    ensures v == NotFound <==> forall e :: e in table ==> e.source != node
  {
    if table == [] then NotFound
    else if table[0].source == node then (if Protected(table[0].dir) then SystemDrive else GuardOk)
    else ByName(table[1..], node)
  }

  function InTables(t: Tables, node: string): Verdict {
    var v := if t.mtab.None? then NotFound else ByName(t.mtab.value, node);
    if v != NotFound then v else if t.mounts.None? then NotFound else ByName(t.mounts.value, node)
  }

  method ScanByName(table: Option<seq<MountEntry>>, node: string) returns (v: Verdict)
    ensures v == if table.None? then NotFound else ByName(table.value, node)
  {
    if table.None? {
      return NotFound;
    }
    var entries := table.value;
    for i := 0 to |entries|
      invariant ByName(entries[i..], node) == ByName(entries, node)
    {
      if entries[i].source == node {
        return if Protected(entries[i].dir) then SystemDrive else GuardOk;
      }
      assert entries[i..][1..] == entries[i + 1..];
    }
    return NotFound;
  }

  /** What validate_not_system_drive takes for a system drive. */
  ghost predicate SystemDisk(n: Naming, t: Tables, node: string) {
    if Sysname(n, node).None? then InTables(t, node) == SystemDrive
    else
      var sysname := Sysname(n, node).value;
      || Guarded(n, t, node)
      || (!SwapOverruns(n, sysname) && SwapOn(n, t.swaps, AsSet(SwapNumbers(n, sysname))))
  }

  lemma PassesIsValid(n: Naming, t: Tables, node: string)
    requires Passes(n, t, node)
    ensures IsBlock(n, node) && !SystemDisk(n, t, node)
  {
  }

  /**
    validate_not_system_drive. On a known disk SYSTEM_DRIVE comes exactly from the scans by device
    number; what the scans by name add is only whether the disk is mounted at all.
   */
  method ValidateNotSystemDrive(n: Naming, t: Tables, node: string) returns (v: Verdict)
    ensures v == if Sysname(n, node).None? then InTables(t, node)
                 else if Guarded(n, t, node) then SystemDrive
                 else if SwapOverruns(n, Sysname(n, node).value) then Overrun
                 else if SwapOn(n, t.swaps, AsSet(SwapNumbers(n, Sysname(n, node).value))) then SystemDrive
                 else InTables(t, node)
    ensures v == SystemDrive <==> SystemDisk(n, t, node)
  {
    hide Guarded, SwapOn, SwapNumbers, SwapOverruns, ByName;
    var child := MountedAtProtected(n, t, node);
    if child == SystemDrive {
      return child;
    }
    var sysname := Sysname(n, node);
    if sysname.Some? {
      var swap := HasSwap(n, t, sysname.value);
      if swap != GuardOk {
        return swap;
      }
      NamesAddNothing(n, t, node);
    }
    v := ScanByName(t.mtab, node);
    if v == NotFound {
      v := ScanByName(t.mounts, node);
    }
  }

  /** A protected mount under the disk's own path is one under its device number. */
  lemma NamesAddNothing(n: Naming, t: Tables, node: string)
    requires Sysname(n, node).Some? && !Guarded(n, t, node)
    ensures InTables(t, node) != SystemDrive
  {
    hide ByName, PartitionNumbers, Protected;
    var numbers := DiskNumbers(n, node, Sysname(n, node).value);
    assert numbers[0] == n.blocks[node];
    assert LeadsTo(n, node, AsSet(numbers));
  }

  /** The nested scan: is any partition of the disk mounted? */
  method ScanPartitions(n: Naming, t: Tables, names: seq<string>) returns (found: bool)
    ensures found == PartitionMounted(n, t, names)
  {
    hide Mounted;
    for i := 0 to |names|
      invariant forall k :: 0 <= k < i && IsPartition(n, names[k]) ==> !Mounted(t, "/dev/" + names[k])
    {
      if IsPartition(n, names[i]) {
        found := ScanMounts(t, "/dev/" + names[i]);
        if found {
          return;
        }
      }
    }
    found := false;
  }

  /** final_wipe_guard */
  method FinalWipeGuard(n: Naming, t: Tables, node: string) returns (v: Verdict)
    ensures v == GuardOk <==> Passes(n, t, node)
    ensures VirtualNode(node) || "/dev/mapper/" <= node ==> v == SystemDrive
    ensures !VirtualNode(node) && !("/dev/mapper/" <= node) ==>
              && (v == DeviceLocked <==> InUse(n, t, node))
              && (v == NotFound <==> !InUse(n, t, node) && Sysname(n, node).None?)
              && (v == Overrun <==> !InUse(n, t, node) && Sysname(n, node).Some?
                                    && SwapOverruns(n, Sysname(n, node).value))
  {
    hide Mounted, PartitionMounted, SwapOn, Guarded, SwapNumbers, SwapOverruns, VirtualNode, InTables;
    if VirtualNode(node) || "/dev/mapper/" <= node {
      return SystemDrive;
    }
    if !IsBlock(n, node) {
      return NotFound;
    }
    var mounted := ScanMounts(t, node);
    if mounted {
      return DeviceLocked;
    }
    var sysname := Sysname(n, node);
    if sysname.None? {
      return NotFound;
    }
    mounted := ScanPartitions(n, t, Entries(n, sysname.value));
    if mounted {
      return DeviceLocked;
    }
    var swap := HasSwap(n, t, sysname.value);
    if swap != GuardOk {
      return swap;
    }
    var system := ValidateNotSystemDrive(n, t, node);
    v := if system == SystemDrive then SystemDrive else GuardOk;
  }

  // ---------- three ways to look for a mount ----------

  /** device_is_mounted's test: the line may also end right behind the node. */
  predicate MountLineOrEnd(line: string, node: string) {
    node <= line && (|line| == |node| || line[|node|] == ' ' || line[|node|] == '\t')
  }

  ghost predicate LineFound(t: Tables, node: string) {
    t.procMounts.Some? && exists line :: line in t.procMounts.value && MountLineOrEnd(line, node)
  }

  /** device_is_mounted */
  method DeviceIsMounted(t: Tables, node: string) returns (found: bool)
    ensures found == LineFound(t, node)
  {
    if t.procMounts.None? {
      return false;
    }
    var lines := t.procMounts.value;
    for i := 0 to |lines|
      invariant forall k :: 0 <= k < i ==> !MountLineOrEnd(lines[k], node)
    {
      if MountLineOrEnd(lines[i], node) {
        return true;
      }
    }
    return false;
  }

  /** proc_device_is_mounted's test: everything before the first space is the node. */
  predicate SpaceField(line: string, node: string) {
    IndexOf(line, ' ') < |line| && line[..IndexOf(line, ' ')] == node
  }

  lemma NoSpaceAt(s: string, k: nat)
    requires k < |s| && forall c :: c in s ==> !IsSpace(c)
    ensures !IsSpace(s[k])
  {
  }

  /** On kernel lines the three tests are one: the first field is the node. */
  lemma TestsAgree(line: string, node: string)
    requires KernelLine(line)
    requires OneWord(node)
    ensures MountLine(line, node) <==> Word(line) == node
    ensures MountLineOrEnd(line, node) <==> Word(line) == node
    ensures SpaceField(line, node) <==> Word(line) == node
  {
    var k :| 0 < k < |line| && line[k] == ' ' && Word(line) == line[..k];
    assert ' ' !in line[..k];
    IndexOfIs(line, ' ', k);
    if |node| > k {
      NoSpaceAt(node, k);
    }
    if |node| < k {
      NoSpaceAt(Word(line), |node|);
    }
  }
}
