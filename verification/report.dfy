/**
 * The GPU section of `main`: the renderer probes the GPU dict for the
 * sentinel keys. A dict with exactly one key that is "Status" or "Error"
 * is printed as a single line (the "Status" value is preferred over the
 * "Error" one); any other dict is printed as one table per entry, in key
 * order.
 */
module Report {

  import opened OrderedDict
  import opened GpuInspector
  import opened DiskInspector

  /** What the GPU section prints: one message, or the tables under these keys. */
  datatype GpuSection = Notice(value: GpuValue) | Tables(keys: seq<string>)

  /** The one-key-and-a-sentinel test. */
  predicate IsNotice(d: Dict<string, GpuValue>) {
    |d.items| == 1 && (StatusKey in d.items || ErrorKey in d.items)
  }

  function RenderGpu(d: Dict<string, GpuValue>): (s: GpuSection)
    requires Valid(d)
    ensures s.Notice? <==> IsNotice(d)
    ensures s.Notice? ==> s.value in d.items.Values
    ensures s.Tables? ==> s.keys == d.keys
  {
    if IsNotice(d) then
      Notice(d.items[if StatusKey in d.items then StatusKey else ErrorKey])
    else Tables(d.keys)
  }

  /**
   * On the dicts `try_get_gpu_info` builds, the sentinel test recovers the
   * outcome: a missing library prints the status line, a failure prints the
   * error line, and listed GPUs, however many, print one table each.
   */
  lemma RenderRecoversOutcome(q: GpuQuery, d: Dict<string, GpuValue>)
    requires IsGpuInfo(q, d)
    ensures q.ImportFailed? ==> RenderGpu(d) == Notice(Message(StatusText))
    ensures q.Raised? ==> RenderGpu(d) == Notice(Message(ErrorText(q.message)))
    ensures q.Listed? ==> RenderGpu(d) == Tables(GpuKeys(|q.gpus|))
  {

  }

  /**
   * A machine with a single readable partition and no GPU library: the disk
   * section has exactly one sub-table and the GPU section shows the status line.
   */
  lemma OnePartitionNoGpu(p: Partition, gpu: Dict<string, GpuValue>)
    requires Readable(p) && IsGpuInfo(ImportFailed, gpu)
    ensures DiskInfo([p]).keys == [DeviceKey(p.device)]
    ensures RenderGpu(gpu) == Notice(Message(StatusText))
  {

  }
}
