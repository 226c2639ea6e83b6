/** The list of block devices a session offers, and the partition names derived from one. */
module Devices {
  import opened CStrings

  const U64 := 0x1_0000_0000_0000_0000

  datatype Device = Device(devnode: string, capacity: nat)

  /** A udev block device: its node and the sector count read from sysfs (0 when unreadable). */
  datatype RawDevice = RawDevice(devnode: Option<string>, sectors: nat)

  /** The node names of loop, RAM, mapped, compressed and network devices. */
  predicate VirtualNode(node: string) {
    || "/dev/loop" <= node || "/dev/ram" <= node || "/dev/dm-" <= node
    || "/dev/zram" <= node || "/dev/nbd" <= node
  }

  /** Bytes from sectors, in 64 bits. */
  function Capacity(sectors: nat): (bytes: nat)
    ensures bytes % 512 == 0
  {
    sectors * 512 % U64
  }

  /** As long as it fits, the capacity is 512 bytes a sector. */
  lemma CapacityIs(sectors: nat)
    requires sectors < 0x80_0000_0000_0000
    ensures Capacity(sectors) == 512 * sectors
  {
  }

  predicate Begins(node: string, name: string) {
    name <= node
  }

  /** What is never offered: nodes with one of these names in front. */
  lemma VirtualExactly(node: string)
    ensures VirtualNode(node) <==>
            exists name :: name in {"/dev/loop", "/dev/ram", "/dev/dm-", "/dev/zram", "/dev/nbd"} && Begins(node, name)
  {
    assert Begins(node, "/dev/loop") ==> "/dev/loop" <= node;
    assert Begins(node, "/dev/ram") ==> "/dev/ram" <= node;
    assert Begins(node, "/dev/dm-") ==> "/dev/dm-" <= node;
    assert Begins(node, "/dev/zram") ==> "/dev/zram" <= node;
    assert Begins(node, "/dev/nbd") ==> "/dev/nbd" <= node;
  }

  predicate Offered(raw: RawDevice) {
    raw.devnode.Some? && !VirtualNode(raw.devnode.value) && Capacity(raw.sectors) > 0
  }

  /** What every listed device satisfies. */
  predicate WellListed(d: Device) {
    |d.devnode| <= 63 && d.capacity >= 512 && d.capacity % 512 == 0 && !VirtualNode(d.devnode)
  }

  function Listing(raws: seq<RawDevice>): seq<Device> {
    if raws == [] then []
    else
      var rest := Listing(raws[..|raws| - 1]);
      var last := raws[|raws| - 1];
      if Offered(last) then rest + [Device(Truncate(last.devnode.value, 63), Capacity(last.sectors))] else rest
  }

  function Count(raws: seq<RawDevice>): nat {
    if raws == [] then 0 else Count(raws[..|raws| - 1]) + (if Offered(raws[|raws| - 1]) then 1 else 0)
  }

  function Min(a: nat, b: nat): nat {
    if a < b then a else b
  }

  /**
    device_enumerate: one pass to size the array, a second to fill it. The devices may have
    changed in between; the second pass never overruns the array sized by the first.
   */
  method Enumerate(first: seq<RawDevice>, second: seq<RawDevice>) returns (devices: seq<Device>)
    ensures |devices| == Min(Count(first), |Listing(second)|)
    ensures devices == Listing(second)[..|devices|]
    ensures forall d :: d in devices ==> WellListed(d)
  {
    var count := 0;
    for i := 0 to |first|
      invariant count == Count(first[..i])
    {
      assert first[..i + 1][..i] == first[..i];
      if Offered(first[i]) {
        count := count + 1;
      }
    }
    assert first[..|first|] == first;
    devices := [];
    var i := 0;
    while i < |second| && |devices| < count
      invariant i <= |second| && |devices| <= count
      invariant devices == Listing(second[..i])
      invariant forall d :: d in devices ==> WellListed(d)
    {
      assert second[..i + 1][..i] == second[..i];
      if Offered(second[i]) {
        TruncateStaysReal(second[i].devnode.value);
        devices := devices + [Device(Truncate(second[i].devnode.value, 63), Capacity(second[i].sectors))];
      }
      i := i + 1;
    }
    ListingPrefix(second, i);
    assert second[..|second|] == second;
  }

  lemma TruncateStaysReal(node: string)
    requires !VirtualNode(node)
    ensures !VirtualNode(Truncate(node, 63))
  {
  }

  lemma {:induction false} ListingPrefix(raws: seq<RawDevice>, i: nat)
    requires i <= |raws|
    ensures Listing(raws[..i]) <= Listing(raws)
  {
    if i < |raws| {
      assert raws[..|raws| - 1][..i] == raws[..i];
      ListingPrefix(raws[..|raws| - 1], i);
    } else {
      assert raws[..i] == raws;
    }
  }

  /** A disk with a node of its own and some sectors is listed, under its name and with its size; any other is not. */
  lemma ListsRealDisks(raw: RawDevice)
    requires raw.sectors < 0x80_0000_0000_0000
    ensures Listing([raw]) ==
            if raw.devnode.Some? && !VirtualNode(raw.devnode.value) && raw.sectors > 0
            then [Device(Truncate(raw.devnode.value, 63), 512 * raw.sectors)] else []
  {
    CapacityIs(raw.sectors);
    assert [raw][..0] == [] && Listing([]) == [];
  }

  lemma {:induction false} ListingAppend(a: seq<RawDevice>, b: seq<RawDevice>)
    ensures Listing(a + b) == Listing(a) + Listing(b)
  {
    hide Offered;
    if b == [] {
      assert a + b == a;
    } else {
      var front := b[..|b| - 1];
      assert (a + b)[..|a + b| - 1] == a + front;
      ListingAppend(a, front);
    }
  }

  /** The capacity of the first listed device with this node, or 0. */
  function CapacityOf(devices: seq<Device>, node: string): (c: nat)
    ensures c > 0 ==> exists d :: d in devices && d.devnode == node && d.capacity == c
  {
    if devices == [] then 0
    else if devices[0].devnode == node then devices[0].capacity
    else CapacityOf(devices[1..], node)
  }

  predicate Listed(devices: seq<Device>, node: string) {
    exists i | 0 <= i < |devices| :: devices[i].devnode == node
  }

  lemma {:induction false} ListedHasCapacity(devices: seq<Device>, node: string)
    requires forall d :: d in devices ==> WellListed(d)
    requires Listed(devices, node)
    ensures CapacityOf(devices, node) >= 512
  {
    if devices[0].devnode != node {
      var i :| 0 <= i < |devices| && devices[i].devnode == node;
      assert devices[1..][i - 1].devnode == node;
      ListedHasCapacity(devices[1..], node);
    } else {
      assert WellListed(devices[0]);
    }
  }

  /** The search loop shared by select, prepare and execute. */
  method FindCapacity(devices: seq<Device>, node: string) returns (found: bool, capacity: nat)
    ensures found == Listed(devices, node) && capacity == CapacityOf(devices, node)
  {
    var i := 0;
    while i < |devices|
      invariant i <= |devices| && forall k :: 0 <= k < i ==> devices[k].devnode != node
      invariant CapacityOf(devices, node) == CapacityOf(devices[i..], node)
    {
      if devices[i].devnode == node {
        return true, devices[i].capacity;
      }
      i := i + 1;
    }
    return false, 0;
  }

  /** What stands between a disk's name and its partition number. */
  function Infix(device: string): (p: string)
    ensures p == "p" || p == ""
  {
    var base := device[LastIndexOf(device, '/') + 1..];
    if "nvme" <= base || "mmcblk" <= base || "loop" <= base then "p" else ""
  }

  /** build_partition_devnode into a buffer of `size`; None is its -1. */
  function PartitionNode(device: string, number: int, size: nat): Option<string> {
    if number < 1 || size == 0 then None
    else
      var name := device + Infix(device) + PrintInt(number);
      if |name| >= size then None else Some(name)
  }

  /** Both partition names of a selectable device fit, and they differ. */
  lemma PartitionNodesFit(device: string)
    requires |device| <= 63
    ensures PartitionNode(device, 1, 128).Some? && PartitionNode(device, 2, 128).Some?
    ensures PartitionNode(device, 1, 128) != PartitionNode(device, 2, 128)
  {
    hide Infix;
    var stem := device + Infix(device);
    assert PrintInt(1) == "1" && PrintInt(2) == "2";
    assert (stem + "1")[|stem|] != (stem + "2")[|stem|];
  }

  /** Disks whose names end in a digit have a "p" in front of the number, others have not. */
  lemma PartitionNodesAre(name: string, number: nat)
    requires '/' !in name && 1 <= number <= 9 && |name| <= 100
    ensures PartitionNode("/dev/" + name, number, 128)
            == Some("/dev/" + name + (if Begins(name, "nvme") || Begins(name, "mmcblk") || Begins(name, "loop") then "p" else "")
                    + [['0', '1', '2', '3', '4', '5', '6', '7', '8', '9'][number]])
  {
    LastSlash(name);
    OneDigit(number);
  }

  lemma OneDigit(number: nat)
    requires number <= 9
    ensures PrintInt(number) == [['0', '1', '2', '3', '4', '5', '6', '7', '8', '9'][number]]
  {
  }

  lemma LastSlash(name: string)
    requires '/' !in name
    ensures LastIndexOf("/dev/" + name, '/') == 4 && ("/dev/" + name)[5..] == name
  {
    var node := "/dev/" + name;
    assert node[4] == '/';
    assert forall i :: 4 < i < |node| ==> node[i] in name;
  }
}
