/**
 * `try_get_gpu_info`: three mutually exclusive outcomes. The GPU library
 * cannot be imported: the single key "Status". Anything else raises: the
 * single key "Error" carrying the exception's text. Otherwise one entry per
 * GPU, keyed "GPU 0", "GPU 1", ... in enumeration order.
 */
module GpuInspector {

  import opened OrderedDict
  import opened DecimalText

  /** What the GPU library reports for one device. */
  datatype Gpu = Gpu(
    name: string,
    id: int,
    load: real,
    memoryFree: real,
    memoryUsed: real,
    memoryTotal: real,
    temperature: real,
    uuid: string)

  /**
   * How the attempt to query the GPU library ends: the import fails, some
   * other exception is raised (with its text), or the devices are listed.
   */
  datatype GpuQuery = ImportFailed | Raised(message: string) | Listed(gpus: seq<Gpu>)

  /**
   * The per-GPU table: Name, ID, Load (as a percentage), Free/Used/Total
   * Memory (MB), Temperature (degrees Celsius) and UUID.
   */
  datatype GpuEntry = GpuEntry(
    name: string,
    id: int,
    loadPercent: real,
    freeMemoryMb: real,
    usedMemoryMb: real,
    totalMemoryMb: real,
    temperatureC: real,
    uuid: string)

  /** A value of the GPU dict: a device's table or a status/error line. */
  datatype GpuValue = Table(entry: GpuEntry) | Message(text: string)

  const StatusKey := "Status"
  const ErrorKey := "Error"
  const StatusText := "GPU information unavailable - GPUtil module not installed or supported"

  function ErrorText(message: string): string {
    "Failed to get GPU information: " + message
  }

  function GpuKey(i: nat): (k: string)
    ensures k != StatusKey && k != ErrorKey
  {
    var k := "GPU " + Decimal(i);
    assert k[0] == 'G';
    k
  }

  lemma GpuKeyInjective(i: nat, j: nat)
    requires i != j
    ensures GpuKey(i) != GpuKey(j)
  {
    DecimalInjective(i, j);
    assert GpuKey(i)[4..] == Decimal(i);
    assert GpuKey(j)[4..] == Decimal(j);
  }

  function EntryOf(g: Gpu): GpuEntry {
    GpuEntry(g.name, g.id, g.load * 100.0, g.memoryFree, g.memoryUsed, g.memoryTotal, g.temperature, g.uuid)
  }

  /** "GPU 0" .. "GPU n-1". */
  function GpuKeys(n: nat): (ks: seq<string>)
    ensures |ks| == n
  {
    seq(n, i requires 0 <= i < n => GpuKey(i))
  }

  /** No "GPU i" key collides with a sentinel key. */
  lemma NoSentinelKeys(n: nat)
    ensures StatusKey !in GpuKeys(n) && ErrorKey !in GpuKeys(n)
  {
  }

  /** The dict `try_get_gpu_info` returns for a given outcome of the query. */
  ghost predicate IsGpuInfo(q: GpuQuery, d: Dict<string, GpuValue>) {
    && Valid(d)
    && (q.ImportFailed? ==> d == Single(StatusKey, Message(StatusText)))
    && (q.Raised? ==> d == Single(ErrorKey, Message(ErrorText(q.message))))
    && (q.Listed? ==>
          && d.keys == GpuKeys(|q.gpus|)
          && forall i :: 0 <= i < |q.gpus| ==> GpuKey(i) in d.items && d.items[GpuKey(i)] == Table(EntryOf(q.gpus[i])))
  }

  /** "GPU i" is not among the keys of the first i GPUs. */
  lemma GpuKeyFresh(i: nat)
    ensures GpuKey(i) !in GpuKeys(i)
  {
    if GpuKey(i) in GpuKeys(i) {
      var j :| 0 <= j < i && GpuKeys(i)[j] == GpuKey(i);
      GpuKeyInjective(i, j);
    }
  }

  /** The dict after the loop has entered the first i GPUs. */
  ghost predicate FirstGpus(gpus: seq<Gpu>, i: nat, d: Dict<string, GpuValue>)
    requires i <= |gpus|
  {
    && Valid(d)
    && d.keys == GpuKeys(i)
    && forall j :: 0 <= j < i ==> GpuKey(j) in d.items && d.items[GpuKey(j)] == Table(EntryOf(gpus[j]))
  }

  /** Entering GPU i extends the dict by "GPU i" and leaves earlier entries alone. */
  lemma GpuStep(gpus: seq<Gpu>, i: nat, d: Dict<string, GpuValue>)
    requires i < |gpus| && FirstGpus(gpus, i, d)
    ensures FirstGpus(gpus, i + 1, Put(d, GpuKey(i), Table(EntryOf(gpus[i]))))
  {
    GpuKeyFresh(i);
    var d' := Put(d, GpuKey(i), Table(EntryOf(gpus[i])));
    assert d'.keys == GpuKeys(i + 1);
    forall j | 0 <= j < i
      ensures GpuKey(j) in d'.items && d'.items[GpuKey(j)] == Table(EntryOf(gpus[j]))
    {
      GpuKeyInjective(i, j);
    }
  }

  method TryGetGpuInfo(q: GpuQuery) returns (d: Dict<string, GpuValue>)
    ensures IsGpuInfo(q, d)
  {
    match q {
      case ImportFailed =>
        d := Single(StatusKey, Message(StatusText));
      case Raised(message) =>
        d := Single(ErrorKey, Message(ErrorText(message)));
      case Listed(gpus) =>
        d := Empty();
        for i := 0 to |gpus|
          invariant FirstGpus(gpus, i, d)
        {
          GpuStep(gpus, i, d);
          d := Put(d, GpuKey(i), Table(EntryOf(gpus[i])));
        }
    }
  }

  /** The number of entries matches the outcome: one message, or one per GPU. */
  lemma GpuInfoSize(q: GpuQuery, d: Dict<string, GpuValue>)
    requires IsGpuInfo(q, d)
    ensures |d.items| == if q.Listed? then |q.gpus| else 1
  {
    SizeIsKeyCount(d);
  }
}
