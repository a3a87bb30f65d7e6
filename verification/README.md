# Hardware diagnostic tool: a Dafny model of its logic

The tool (`HardwareDiagnosticTool/hardware_info.py`) reads system, CPU,
memory, disk and GPU figures from the operating system and prints them as
tables. Most of it passes OS readings straight through to the printer. This
project models the parts that make decisions, with every OS reading given as
an input value:

- `get_size` (module `HumanSize`). It converts a byte count into a magnitude
  and a binary unit prefix ("", K, M, G, T, P). The count is an `int`. The
  magnitude is the exact `real` b / 1024^k. The result is an `Option`, because
  the loop falls through and returns `None` once b reaches 1024^6 (in exact
  arithmetic).
- `get_disk_info` (module `DiskInspector`). It builds an insertion-ordered
  dict keyed `"Device " + device`. A partition whose usage query raises is
  skipped.
- `try_get_gpu_info` (module `GpuInspector`). It has three outcomes: import
  failure (key `Status`), any other exception (key `Error`), or one entry per
  GPU keyed `"GPU i"`.
- `get_cpu_info` (module `CpuInspector`). It builds five fixed keys, then one
  `"Core i Usage"` key per per-core sample.
- The GPU section of `main` (module `Report`). It chooses between a single
  message and one table per entry by probing the dict for the sentinel keys.

Python's `dict` is modelled in `OrderedDict` as keys in insertion order plus
a map. Assigning to an existing key replaces its value and keeps its
position. `str(i)` for the loop counters is `DecimalText.Decimal`. That
module also has a parser and a round-trip lemma, so the generated keys are
provably distinct.

The unit formatter accepts negative counts (they get the empty prefix and
are not divided). From 1024^6 bytes up to the range of a double it returns
`None`; there is no clamp to "P". The model computes that boundary in exact
arithmetic and does not model counts beyond the range of a double; see the
`HumanSize.SizeOf` lines under "## Left out".

## Model

| member | source | states |
|---|---|---|
| `HumanSize.FirstFit` | HardwareDiagnosticTool/hardware_info.py:12-15 | The search from prefix k on, with all smaller units already ruled out. In exact arithmetic, it gives `None` exactly when b >= 1024^6. Otherwise the unit it picks is at least k, fits, and the magnitude is b / 1024^unit. |
| `HumanSize.SizeOf` | HardwareDiagnosticTool/hardware_info.py:12-15 | In exact arithmetic, the result is `None` iff b >= 1024^6. Otherwise it picks a unit k < 6 with b < 1024^(k+1) and b >= 1024^j for every 0 < j <= k, and the magnitude is b / 1024^k. |
| `HumanSize.GetSize` | HardwareDiagnosticTool/hardware_info.py:8-15 | The loop of repeated `/= 1024` returns exactly what `SizeOf` specifies: the first fitting prefix, or `None` after six prefixes. |
| `HumanSize.UnitIsUnique` | HardwareDiagnosticTool/hardware_info.py:12-15 | At most one unit satisfies the fitting rule, so the chosen unit is the least k with b < 1024^(k+1). |
| `HumanSize.SmallCountUnscaled` | HardwareDiagnosticTool/hardware_info.py:12-14 | Any b < 1024, negatives included, is shown with the empty prefix and without division. |
| `HumanSize.MagnitudeReconstructs` | HardwareDiagnosticTool/hardware_info.py:13-15 | Magnitude times 1024^unit equals the byte count. |
| `HumanSize.MagnitudeInRange` | HardwareDiagnosticTool/hardware_info.py:13-15 | For b >= 0 the magnitude is in [0, 1024). It is at least 1 whenever a non-empty prefix is chosen. |
| `HumanSize.UnitMonotone` | HardwareDiagnosticTool/hardware_info.py:12-15 | If b <= b' and b' has a unit, then b has one too and it is no larger. A larger count never gets a smaller unit. |
| `HumanSize.Examples` | HardwareDiagnosticTool/hardware_info.py:12-15 | 0 gives (0, ""). 1024 gives (1, K). 1536 gives (1.5, K). 1024^3 gives (1, G). 1024^6 gives `None`. |
| `HumanSize.Text` | HardwareDiagnosticTool/hardware_info.py:14 | The text ends in 'B'. Before that 'B' come the magnitude's digits followed by the unit prefix. |
| `HumanSize.TextRoundTrip` | HardwareDiagnosticTool/hardware_info.py:14 | When the magnitude's text ends in a digit, the unit can be read back from the text's tail. Together with `MagnitudeReconstructs`, text and magnitude give b back. |
| `DiskInspector.DiskInfo` | HardwareDiagnosticTool/hardware_info.py:70-87 | The dict after processing the partitions in order is well formed: each key appears once in the insertion order. |
| `DiskInspector.GetDiskInfo` | HardwareDiagnosticTool/hardware_info.py:70-87 | The loop, with `get_size` called on total, used and free, builds exactly `DiskInfo(partitions)`. |
| `DiskInspector.DiskKeys` | HardwareDiagnosticTool/hardware_info.py:73-85 | A key is present iff some partition with a readable usage has `"Device " + device` equal to it. |
| `DiskInspector.DiskLastWins` | HardwareDiagnosticTool/hardware_info.py:76-83 | The entry under a device's key is built from the last readable partition with that device: its mountpoint, fstype, sizes and usage percentage. |
| `DiskInspector.DiskSkipsUnreadable` | HardwareDiagnosticTool/hardware_info.py:73-85 | The result equals the result for the readable partitions alone. Failed partitions leave no trace, and the partitions after them are still processed. |
| `DiskInspector.DiskKeyOrder` | HardwareDiagnosticTool/hardware_info.py:73-83 | For every list of partitions, the keys are the readable partitions' device keys with repeats dropped, in listed order. A repeated device keeps the position of its first readable partition, even when a later one replaces its entry. |
| `DiskInspector.DiskOneEntryPerReadable` | HardwareDiagnosticTool/hardware_info.py:70-87 | If no device repeats among the readable partitions, the keys are theirs in listed order, and there are exactly as many entries as readable partitions. |
| `GpuInspector.GpuKeyInjective` | HardwareDiagnosticTool/hardware_info.py:97-98 | Different indices give different `"GPU i"` keys. |
| `GpuInspector.NoSentinelKeys` | HardwareDiagnosticTool/hardware_info.py:98-112 | No `"GPU i"` key is `Status` or `Error`. |
| `GpuInspector.TryGetGpuInfo` | HardwareDiagnosticTool/hardware_info.py:93-112 | Import failure gives exactly {`Status`: the unavailable text}. Any other exception gives exactly {`Error`: "Failed to get GPU information: " + message}. Otherwise the keys are "GPU 0".."GPU n-1" in enumeration order, each holding that GPU's entry with load times 100. |
| `GpuInspector.GpuInfoSize` | HardwareDiagnosticTool/hardware_info.py:93-112 | The result has one entry per GPU, or exactly one entry for either failure. |
| `CpuInspector.CoreKeyInjective` | HardwareDiagnosticTool/hardware_info.py:43-44 | Different core indices give different `"Core i Usage"` keys. |
| `CpuInspector.GetCpuInfo` | HardwareDiagnosticTool/hardware_info.py:33-46 | The keys are the five fixed ones, then "Core 0 Usage".."Core n-1 Usage". The fixed keys hold the core counts, max/current frequency (`None` for "N/A") and total usage. Core i holds sample i. |
| `CpuInspector.CpuCoreEntries` | HardwareDiagnosticTool/hardware_info.py:34-44 | Every non-fixed key is some "Core i Usage" holding sample i. |
| `CpuInspector.CpuEntryCount` | HardwareDiagnosticTool/hardware_info.py:34-44 | For every reading, including one with no per-core samples, there are exactly 5 + n entries. |
| `Report.RenderGpu` | HardwareDiagnosticTool/hardware_info.py:156-165 | It prints a single message iff the dict has exactly one key and that key is `Status` or `Error`. The message is a value of the dict. Otherwise it prints one table per key, in key order. |
| `Report.RenderRecoversOutcome` | HardwareDiagnosticTool/hardware_info.py:156-165 | On dicts built by `try_get_gpu_info`, the sentinel test recovers the outcome. A missing library prints the status line and a failure prints the error line. Listed GPUs, even exactly one, print one table each. |
| `Report.OnePartitionNoGpu` | HardwareDiagnosticTool/hardware_info.py:148-159 | With one readable partition and no GPU library, there is exactly one disk sub-table and the GPU section shows the status line. |
| `DecimalText.Decimal` | HardwareDiagnosticTool/hardware_info.py:44 | `str(i)` for a counter i >= 0 is non-empty and all decimal digits. It is one character long exactly when i < 10. |
| `DecimalText.ValueOfDecimal` | HardwareDiagnosticTool/hardware_info.py:44 | Reading back the decimal rendering of a counter gives the counter. |
| `OrderedDict.Put` | HardwareDiagnosticTool/hardware_info.py:76 | `d[k] = v` keeps each key once in the insertion order and maps k to v. An existing key keeps its position. A new key is appended at the end. |
| `OrderedDict.SizeIsKeyCount` | HardwareDiagnosticTool/hardware_info.py:156 | `len()` of a well-formed dict is the length of its key order. |

## Left out

- `get_system_info` and `get_memory_info` are not modelled. They are dict literals over OS readings, and the memory one only applies `get_size`, which is modelled.
- Every `psutil`, `platform` and `GPUtil` call is not modelled. Their results are inputs: partitions carry an optional usage reading, the GPU query is the `GpuQuery` outcome, and the CPU reading is a `CpuReading` value.
- The one-second blocking per-core sample (`cpu_percent(interval=1)`) is not modelled. It is timing and OS sampling.
- HumanSize.SizeOf: the boundary where the result becomes `None` is exact (b >= 1024^6). The source divides in floating point, which rounds. For b in [2^60 - 64, 2^60) the first division already rounds up to 2^50, the value reaches 1024.0 at prefix P, and the source returns `None`. In that range the model gives a magnitude just below 1024 with prefix P.
- HumanSize.SizeOf: counts too large for a double are not modelled. From roughly 2^1034 bytes up, the first `bytes /= 1024` cannot produce a float and raises OverflowError instead of returning `None`; the model returns `None` for them.
- DiskInspector.DiskKeys: that OverflowError is raised inside the `try` of `get_disk_info`, so the source skips such a partition. The model keeps it with `None` sizes. "Present iff readable" therefore holds of the source only for usage counts within the range of a double.
- Floating point is not modelled. Magnitudes, percentages, frequencies and `load * 100` are exact reals.
- HumanSize.Text: the `:.2f` two-decimal rendering is not modelled. The digits are a parameter, so the text is only described by its unit suffix.
- CpuInspector.GetCpuInfo: percentages and frequencies are kept as numbers; their text forms (`"{x}%"`, `"{x:.2f}Mhz"`) are not modelled.
- DiskInspector.GetDiskInfo: the usage text `"{percent}%"` is kept as a number.
- GpuInspector.TryGetGpuInfo: the value texts ("MB", "°C", "%") are kept as numbers.
- GpuInspector.TryGetGpuInfo: the text of an exception is an input string, since `str(e)` is not modelled.
- `tabulate`, `print`, the title lines and the `datetime.now()` timestamp are not modelled. Only the GPU dispatch decision is modelled, as a value (`GpuSection`).
- A device listed twice with readable usage (as with bind mounts) gets one entry, not two. So the number of disk entries equals the number of readable partitions only when no device repeats; `DiskOneEntryPerReadable` states the count under that condition.
- The per-device tables are records with one field per row label, rather than nested dicts.
- The OS's own guarantees (usage percentages in [0, 100], per-core count equal to the logical core count) are not modelled. They are not enforced by the code.
