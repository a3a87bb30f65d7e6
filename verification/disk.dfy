/**
 * `get_disk_info`: one entry per mounted partition whose usage can be read,
 * keyed "Device <device>". A partition whose usage query raises is skipped
 * and the loop goes on with the next one. Two readable partitions with the
 * same device share one key: the later one's entry replaces the earlier
 * one's, in the earlier one's position.
 */
module DiskInspector {

  import opened Wrappers
  import opened OrderedDict
  import opened HumanSize

  /** What the usage query reports for a mountpoint. */
  datatype DiskUsage = DiskUsage(total: int, used: int, free: int, percent: real)

  /**
   * A listed partition; `usage` is `None` when querying its mountpoint
   * raises an exception.
   */
  datatype Partition = Partition(device: string, mountpoint: string, fstype: string, usage: Option<DiskUsage>)

  /**
   * The per-partition table: Mountpoint, File System, Total Size, Used,
   * Free and Usage (the percentage, whose text rendering is not modelled).
   */
  datatype DiskEntry = DiskEntry(
    mountpoint: string,
    fileSystem: string,
    totalSize: Option<Size>,
    used: Option<Size>,
    free: Option<Size>,
    usagePercent: real)

  function DeviceKey(device: string): string {
    "Device " + device
  }

  predicate Readable(p: Partition) {
    p.usage.Some?
  }

  function EntryOf(p: Partition): DiskEntry
    requires Readable(p)
  {
    var u := p.usage.value;
    DiskEntry(p.mountpoint, p.fstype, SizeOf(u.total), SizeOf(u.used), SizeOf(u.free), u.percent)
  }

  /** The dict after the loop has processed the partitions `ps`, in order. */
  function DiskInfo(ps: seq<Partition>): (d: Dict<string, DiskEntry>)
    ensures Valid(d)
  {
    if ps == [] then Empty()
    else
      var before := DiskInfo(ps[..|ps| - 1]);
      var p := ps[|ps| - 1];
      if Readable(p) then Put(before, DeviceKey(p.device), EntryOf(p)) else before
  }

  /** The readable partitions, in their listed order. */
  function ReadableOnly(ps: seq<Partition>): (r: seq<Partition>)
    ensures |r| <= |ps|
    ensures forall i :: 0 <= i < |r| ==> Readable(r[i])
  {
    if ps == [] then []
    else
      var p := ps[|ps| - 1];
      ReadableOnly(ps[..|ps| - 1]) + if Readable(p) then [p] else []
  }

  /** The loop of `get_disk_info` over the partitions the OS lists. */
  method GetDiskInfo(partitions: seq<Partition>) returns (d: Dict<string, DiskEntry>)
    ensures d == DiskInfo(partitions)
  {
    d := Empty();
    for i := 0 to |partitions|
      invariant d == DiskInfo(partitions[..i])
    {
      var p := partitions[i];
      assert partitions[..i + 1][..i] == partitions[..i];
      match p.usage {
        case None =>
          continue;
        case Some(u) =>
          var total := GetSize(u.total);
          var used := GetSize(u.used);
          var free := GetSize(u.free);
          d := Put(d, DeviceKey(p.device), DiskEntry(p.mountpoint, p.fstype, total, used, free, u.percent));
      }
    }
    assert partitions[..|partitions|] == partitions;
  }

  /** There is an entry for a key iff some readable partition has that device. */
  lemma {:induction false} DiskKeys(ps: seq<Partition>, k: string)
    ensures k in DiskInfo(ps).items <==> exists i :: 0 <= i < |ps| && Readable(ps[i]) && DeviceKey(ps[i].device) == k
  {
    if ps != [] {
      var init := ps[..|ps| - 1];
      DiskKeys(init, k);
      if exists i :: 0 <= i < |init| && Readable(init[i]) && DeviceKey(init[i].device) == k {
        var i :| 0 <= i < |init| && Readable(init[i]) && DeviceKey(init[i].device) == k;
        assert ps[i] == init[i];
      }
      if exists i :: 0 <= i < |ps| && Readable(ps[i]) && DeviceKey(ps[i].device) == k {
        var i :| 0 <= i < |ps| && Readable(ps[i]) && DeviceKey(ps[i].device) == k;
        if i < |init| {
          assert init[i] == ps[i];
        }
      }
    }
  }

  /**
   * The entry under a device's key is built from the last readable partition
   * with that device.
   */
  lemma {:induction false} DiskLastWins(ps: seq<Partition>, i: nat)
    requires i < |ps| && Readable(ps[i])
    requires forall j :: i < j < |ps| && Readable(ps[j]) ==> ps[j].device != ps[i].device
    ensures DeviceKey(ps[i].device) in DiskInfo(ps).items
    ensures DiskInfo(ps).items[DeviceKey(ps[i].device)] == EntryOf(ps[i])
  {
    var init := ps[..|ps| - 1];
    var last := ps[|ps| - 1];
    if i < |ps| - 1 {
      forall j | i < j < |init| && Readable(init[j])
        ensures init[j].device != init[i].device
      {
        assert init[j] == ps[j];
      }
      DiskLastWins(init, i);
      if Readable(last) {
        assert last.device != ps[i].device;
        assert DeviceKey(last.device)[7..] == last.device;
        assert DeviceKey(ps[i].device)[7..] == ps[i].device;
      }
    }
  }

  /** Unreadable partitions leave no trace: only the readable ones matter. */
  lemma {:induction false} DiskSkipsUnreadable(ps: seq<Partition>)
    ensures DiskInfo(ps) == DiskInfo(ReadableOnly(ps))
  {
    if ps != [] {
      var init := ps[..|ps| - 1];
      var last := ps[|ps| - 1];
      DiskSkipsUnreadable(init);
      var r := ReadableOnly(init);
      if Readable(last) {
        assert ReadableOnly(ps) == r + [last];
        assert (r + [last])[..|r|] == r;
        assert DiskInfo(r + [last]) == Put(DiskInfo(r), DeviceKey(last.device), EntryOf(last));
      } else {
        assert ReadableOnly(ps) == r;
      }
    }
  }

  /** The key of each partition of `ps`, in order. */
  function DeviceKeys(ps: seq<Partition>): (ks: seq<string>)
    ensures |ks| == |ps|
  {
    seq(|ps|, i requires 0 <= i < |ps| => DeviceKey(ps[i].device))
  }

  predicate DistinctDevices(ps: seq<Partition>) {
    forall i, j :: 0 <= i < j < |ps| ==> ps[i].device != ps[j].device
  }

  /**
   * With no device listed twice, the result has exactly one entry per
   * readable partition, in the order the partitions were listed.
   */
  lemma {:induction false} DiskOneEntryPerReadable(ps: seq<Partition>)
    requires DistinctDevices(ReadableOnly(ps))
    ensures DiskInfo(ps).keys == DeviceKeys(ReadableOnly(ps))
    ensures |DiskInfo(ps).items| == |ReadableOnly(ps)|
  {
    var rs := ReadableOnly(ps);
    DiskKeyOrder(ps);
    forall i, j | 0 <= i < j < |rs| ensures DeviceKeys(rs)[i] != DeviceKeys(rs)[j] {
      if DeviceKeys(rs)[i] == DeviceKeys(rs)[j] {
        DeviceKeyInjective(rs[i].device, rs[j].device);
      }
    }
    FirstOccurrencesOfDistinct(DeviceKeys(rs));
    SizeIsKeyCount(DiskInfo(ps));
  }

  lemma DeviceKeyInjective(a: string, b: string)
    requires DeviceKey(a) == DeviceKey(b)
    ensures a == b
  {
    assert DeviceKey(a)[7..] == a;
    assert DeviceKey(b)[7..] == b;
  }

  /** The elements of `ks` that do not occur earlier in `ks`, in order. */
  function FirstOccurrences(ks: seq<string>): (r: seq<string>)
    ensures |r| <= |ks|
  {
    if ks == [] then []
    else
      var init := ks[..|ks| - 1];
      FirstOccurrences(init) + if ks[|ks| - 1] in init then [] else [ks[|ks| - 1]]
  }

  /**
   * The order of the result, for every list of partitions: one key per
   * device, at the position of that device's first readable partition,
   * even when later readable partitions of the same device replace its
   * entry.
   */
  lemma {:induction false} DiskKeyOrder(ps: seq<Partition>)
    ensures DiskInfo(ps).keys == FirstOccurrences(DeviceKeys(ReadableOnly(ps)))
  {
    DiskSkipsUnreadable(ps);
    ReadableKeyOrder(ReadableOnly(ps));
  }

  lemma {:induction false} DeviceKeysSnoc(init: seq<Partition>, last: Partition)
    ensures DeviceKeys(init + [last]) == DeviceKeys(init) + [DeviceKey(last.device)]
  {
  }

  /** Among readable partitions, the result's keys are exactly their keys. */
  lemma {:induction false} ReadableKeys(rs: seq<Partition>, k: string)
    requires forall i :: 0 <= i < |rs| ==> Readable(rs[i])
    ensures k in DiskInfo(rs).items <==> k in DeviceKeys(rs)
  {
    DiskKeys(rs, k);
    var ks := DeviceKeys(rs);
    if k in ks {
      var i :| 0 <= i < |ks| && ks[i] == k;
      assert Readable(rs[i]) && DeviceKey(rs[i].device) == k;
    }
    if k in DiskInfo(rs).items {
      var i :| 0 <= i < |rs| && Readable(rs[i]) && DeviceKey(rs[i].device) == k;
      assert ks[i] == k;
    }
  }

  lemma {:induction false} ReadableKeyOrder(rs: seq<Partition>)
    requires forall i :: 0 <= i < |rs| ==> Readable(rs[i])
    ensures DiskInfo(rs).keys == FirstOccurrences(DeviceKeys(rs))
  {
    if rs != [] {
      var init, last := rs[..|rs| - 1], rs[|rs| - 1];
      assert rs == init + [last];
      ReadableKeyOrder(init);
      DeviceKeysSnoc(init, last);
      ReadableKeys(init, DeviceKey(last.device));
      assert DeviceKeys(rs)[..|rs| - 1] == DeviceKeys(init);
    }
  }

  lemma {:induction false} FirstOccurrencesOfDistinct(ks: seq<string>)
    requires Distinct(ks)
    ensures FirstOccurrences(ks) == ks
  {
    if ks != [] {
      var init := ks[..|ks| - 1];
      assert Distinct(init);
      FirstOccurrencesOfDistinct(init);
      assert ks == init + [ks[|ks| - 1]];
    }
  }
}
