/**
 * `get_cpu_info`: a dict with five fixed keys, then one "Core i Usage" key
 * per per-core utilisation sample, i = 0 .. n-1, in sample order.
 */
module CpuInspector {

  import opened Wrappers
  import opened OrderedDict
  import opened DecimalText

  /** The clock frequencies (MHz) the OS reports, when it reports them. */
  datatype CpuFrequency = CpuFrequency(current: real, max: real)

  /** Everything the function reads from the OS, as plain values. */
  datatype CpuReading = CpuReading(
    physicalCores: Option<int>,
    totalCores: Option<int>,
    frequency: Option<CpuFrequency>,
    usage: real,
    perCore: seq<real>)

  /**
   * A value of the CPU dict: a core count (the OS may report none), a
   * frequency (`None` is rendered "N/A") or a utilisation percentage.
   */
  datatype CpuValue = Cores(count: Option<int>) | Frequency(mhz: Option<real>) | Percent(value: real)

  const FixedKeys: seq<string> := ["Physical Cores", "Total Cores", "Max Frequency", "Current Frequency", "CPU Usage"]

  function CoreKey(i: nat): (k: string)
    ensures k !in FixedKeys
  {
    assert ("Core " + Decimal(i) + " Usage")[1] == 'o';
    "Core " + Decimal(i) + " Usage"
  }

  lemma CoreKeyInjective(i: nat, j: nat)
    requires i != j
    ensures CoreKey(i) != CoreKey(j)
  {
    DecimalInjective(i, j);
    if CoreKey(i) == CoreKey(j) {
      InfixCancel("Core ", Decimal(i), Decimal(j), " Usage");
    }
  }

  lemma InfixCancel(p: string, a: string, b: string, q: string)
    requires p + a + q == p + b + q
    ensures a == b
  {
    assert |a| == |b|;
    assert (p + a + q)[|p|..|p| + |a|] == a;
    assert (p + b + q)[|p|..|p| + |b|] == b;
  }

  /** "Core i Usage" is neither a fixed key nor among the keys of the first i cores. */
  lemma CoreKeyFresh(i: nat)
    ensures CoreKey(i) !in FixedKeys + CoreKeys(i)
  {
    if CoreKey(i) in CoreKeys(i) {
      var j :| 0 <= j < i && CoreKeys(i)[j] == CoreKey(i);
      CoreKeyInjective(i, j);
    }
  }

  /** "Core 0 Usage" .. "Core n-1 Usage". */
  function CoreKeys(n: nat): (ks: seq<string>)
    ensures |ks| == n
  {
    seq(n, i requires 0 <= i < n => CoreKey(i))
  }

  function MaxFrequency(r: CpuReading): Option<real> {
    if r.frequency.Some? then Some(r.frequency.value.max) else None
  }

  function CurrentFrequency(r: CpuReading): Option<real> {
    if r.frequency.Some? then Some(r.frequency.value.current) else None
  }

  /** The dict literal that opens `get_cpu_info`. */
  function FixedPart(r: CpuReading): (d: Dict<string, CpuValue>)
    ensures Valid(d) && d.keys == FixedKeys
  {
    assert FixedKeys[3][1] != FixedKeys[4][1];
    Dict(FixedKeys, map[
      "Physical Cores" := Cores(r.physicalCores),
      "Total Cores" := Cores(r.totalCores),
      "Max Frequency" := Frequency(MaxFrequency(r)),
      "Current Frequency" := Frequency(CurrentFrequency(r)),
      "CPU Usage" := Percent(r.usage)])
  }

  /** The dict `get_cpu_info` returns for a given reading. */
  ghost predicate IsCpuInfo(r: CpuReading, d: Dict<string, CpuValue>) {
    && Valid(d)
    && d.keys == FixedKeys + CoreKeys(|r.perCore|)
    && "Physical Cores" in d.items && d.items["Physical Cores"] == Cores(r.physicalCores)
    && "Total Cores" in d.items && d.items["Total Cores"] == Cores(r.totalCores)
    && "Max Frequency" in d.items && d.items["Max Frequency"] == Frequency(MaxFrequency(r))
    && "Current Frequency" in d.items && d.items["Current Frequency"] == Frequency(CurrentFrequency(r))
    && "CPU Usage" in d.items && d.items["CPU Usage"] == Percent(r.usage)
    && forall i :: 0 <= i < |r.perCore| ==> CoreKey(i) in d.items && d.items[CoreKey(i)] == Percent(r.perCore[i])
  }

  /** The dict after the loop has entered the samples of the first i cores. */
  ghost predicate FirstCores(r: CpuReading, i: nat, d: Dict<string, CpuValue>)
    requires i <= |r.perCore|
  {
    && Valid(d)
    && d.keys == FixedKeys + CoreKeys(i)
    && (forall k :: k in FixedKeys ==> k in d.items && d.items[k] == FixedPart(r).items[k])
    && forall j :: 0 <= j < i ==> CoreKey(j) in d.items && d.items[CoreKey(j)] == Percent(r.perCore[j])
  }

  /** Entering core i appends "Core i Usage" and leaves every earlier entry alone. */
  lemma {:induction false} CoreStep(r: CpuReading, i: nat, d: Dict<string, CpuValue>)
    requires i < |r.perCore| && FirstCores(r, i, d)
    ensures FirstCores(r, i + 1, Put(d, CoreKey(i), Percent(r.perCore[i])))
  {
    CoreKeyFresh(i);
    var k := CoreKey(i);
    var d' := Put(d, k, Percent(r.perCore[i]));
    assert d'.items == d.items[k := Percent(r.perCore[i])];
    assert CoreKeys(i + 1) == CoreKeys(i) + [k];
    assert d'.keys == FixedKeys + CoreKeys(i + 1);
    forall f | f in FixedKeys
      ensures f in d'.items && d'.items[f] == FixedPart(r).items[f]
    {
      assert f != k;
    }
    forall j | 0 <= j < i
      ensures CoreKey(j) in d'.items && d'.items[CoreKey(j)] == Percent(r.perCore[j])
    {
      CoreKeyInjective(i, j);
    }
  }

  lemma CoreStart(r: CpuReading)
    ensures FirstCores(r, 0, FixedPart(r))
  {

  }

  lemma CoreDone(r: CpuReading, d: Dict<string, CpuValue>)
    requires FirstCores(r, |r.perCore|, d)
    ensures IsCpuInfo(r, d)
  {
    var f := FixedPart(r);
    assert FixedKeys[0] in FixedKeys && FixedKeys[1] in FixedKeys && FixedKeys[2] in FixedKeys;
    assert FixedKeys[3] in FixedKeys && FixedKeys[4] in FixedKeys;
  }

  method GetCpuInfo(r: CpuReading) returns (d: Dict<string, CpuValue>)
    ensures IsCpuInfo(r, d)
  {
    d := FixedPart(r);
    CoreStart(r);
    for i := 0 to |r.perCore|
      invariant FirstCores(r, i, d)
    {
      CoreStep(r, i, d);
      d := Put(d, CoreKey(i), Percent(r.perCore[i]));
    }
    CoreDone(r, d);
  }

  /** Every key past the five fixed ones names a core and holds that core's sample. */
  lemma CpuCoreEntries(r: CpuReading, d: Dict<string, CpuValue>, k: string)
    requires IsCpuInfo(r, d)
    requires k in d.items && k !in FixedKeys
    ensures exists i :: 0 <= i < |r.perCore| && k == CoreKey(i) && d.items[k] == Percent(r.perCore[i])
  {
    var n :| 0 <= n < |d.keys| && d.keys[n] == k;
    assert n >= 5;
    assert k == CoreKey(n - 5);
  }

  /** There are exactly five entries plus one per per-core sample. */
  lemma CpuEntryCount(r: CpuReading, d: Dict<string, CpuValue>)
    requires IsCpuInfo(r, d)
    ensures |d.items| == 5 + |r.perCore|
  {
    SizeIsKeyCount(d);
  }
}
