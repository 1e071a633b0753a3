/**
 * The serial flasher's configuration values: a receiver profile is an ordered
 * list of flash segments and a chip name; a flash configuration adds the
 * port, the two baud rates, the timing knobs, the retry count and the
 * per-segment file chosen by the operator.
 */
module TtlModels {
  import opened Wrappers
  import opened Strings

  /**
   * One flash region of a receiver: its `Label` (here `name`, as `label` is a
   * Dafny keyword), where it starts, how big it is, and whether a file is mandatory.
   */
  datatype ReceiverSegment = ReceiverSegment(name: string, offset: string, size: string, required: bool)

  /** `new ReceiverSegment()`: empty texts, and a segment is required unless the profile says otherwise. */
  function NewSegment(): (seg: ReceiverSegment)
    ensures seg.required
    ensures seg.name == [] && seg.offset == [] && seg.size == []
  {
    ReceiverSegment("", "", "", true)
  }

  /** `ReceiverSegment.ToString()`, the text shown in the segment list: `label @ offset (size)`. */
  function SegmentToString(seg: ReceiverSegment): (r: string)
    ensures |r| == |seg.name| + |seg.offset| + |seg.size| + 6
    ensures StartsWith(r, seg.name + " @ " + seg.offset + " (")
    ensures r[|seg.name| + |seg.offset| + 5..|r| - 1] == seg.size
    ensures r[|r| - 1] == ')'
  {
    var head := seg.name + " @ " + seg.offset + " (";
    var r := head + seg.size + ")";
    assert r[..|head|] == head;
    assert r[|head|..|r| - 1] == seg.size;
    r
  }

  /** A receiver type: its display name, the esptool chip name and its segments in flash order. */
  datatype ReceiverProfile = ReceiverProfile(name: string, chip: string, segments: seq<ReceiverSegment>)

  /** `new ReceiverProfile()`: chip detection left to esptool and no segments. */
  function NewProfile(): (p: ReceiverProfile)
    ensures p.chip == "auto" && p.segments == [] && p.name == []
  {
    ReceiverProfile("", "auto", [])
  }

  /** `ReceiverProfile.ToString()`: a profile is shown by its name. */
  function ProfileToString(p: ReceiverProfile): (r: string)
    ensures r == p.name
  {
    p.name
  }

  /**
   * A dictionary built with `StringComparer.OrdinalIgnoreCase`, mapping a
   * segment label to a file path. Entries are kept under the case-folded
   * label, so two labels that differ only in case name the same entry.
   */
  datatype LabelMap = LabelMap(entries: map<string, string>)

  const EmptyLabelMap: LabelMap := LabelMap(map[])

  /** `TryGetValue(key, out path)`. */
  function TryGetValue(m: LabelMap, key: string): (r: Option<string>)
  {
    if Fold(key) in m.entries then Some(m.entries[Fold(key)]) else None
  }

  /** The indexer assignment `m[key] = path`. */
  function SetPath(m: LabelMap, key: string, path: string): (r: LabelMap)
    ensures TryGetValue(r, key) == Some(path)
    ensures forall l :: !EqualsIgnoreCase(l, key) ==> TryGetValue(r, l) == TryGetValue(m, l)
  {
    LabelMap(m.entries[Fold(key) := path])
  }

  /** Labels are looked up without regard to case. */
  lemma LookupIgnoresCase(m: LabelMap, a: string, b: string)
    requires EqualsIgnoreCase(a, b)
    ensures TryGetValue(m, a) == TryGetValue(m, b)
  {
  }

  const DefaultBaud: int := 921600
  const DefaultDetectBaud: int := 115200
  const DefaultBetweenDevicesDelayMs: int := 1500
  const DefaultBootWaitTimeoutMs: int := 30000
  const DefaultRetryFlashCount: int := 1

  /**
   * `FlashConfig`. `retryFlashCount` counts the attempts made after a first
   * failed one; `binPaths` is `BinPathsByLabel`.
   */
  datatype FlashConfig = FlashConfig(
    esptoolPath: string,
    port: string,
    baud: int,
    detectBaud: int,
    profile: ReceiverProfile,
    binPaths: LabelMap,
    betweenDevicesDelayMs: int,
    bootWaitTimeoutMs: int,
    retryFlashCount: int)

  /** `new FlashConfig { Profile = profile }`: every other property at its declared default. */
  function NewFlashConfig(profile: ReceiverProfile): (c: FlashConfig)
    ensures c.esptoolPath == "esptool" && c.port == []
    ensures c.baud == 921600 && c.detectBaud == 115200
    ensures c.betweenDevicesDelayMs == 1500 && c.bootWaitTimeoutMs == 30000
    ensures c.retryFlashCount == 1
    ensures forall l :: TryGetValue(c.binPaths, l) == None
    ensures c.profile == profile
  {
    FlashConfig("esptool", "", DefaultBaud, DefaultDetectBaud, profile, EmptyLabelMap,
                DefaultBetweenDevicesDelayMs, DefaultBootWaitTimeoutMs, DefaultRetryFlashCount)
  }
}
