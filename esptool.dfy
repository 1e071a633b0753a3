/**
 * The esptool command lines of the serial flasher and what each call's
 * outcome means: chip identification, writing every segment of a profile in
 * one `write_flash`, reading each segment back with `read_flash`, and
 * reading the MAC address.
 */
module Esptool {
  import opened Wrappers
  import opened Strings
  import opened TtlModels
  import opened Process
  import WinPath

  /** Neither reset line is toggled: the operator holds the receiver in its bootloader. */
  const NoReset: string := " --before no_reset --after no_reset "

  /** One `offset "path"` pair of a `write_flash` command. */
  datatype FlashPair = FlashPair(offset: string, path: string)

  /** The esptool operations the flasher issues. */
  datatype Operation =
    | ChipId
    | ReadMacAddress
    | WriteFlash(pairs: seq<FlashPair>)
    | ReadFlash(offset: string, size: string, file: string)

  /** One esptool invocation: the baud rate it talks at and what it does. */
  datatype Invocation = Invocation(baud: int, op: Operation)

  /** `BaseArgs(baud)`: chip, port and baud rate. */
  function BaseArgs(cfg: FlashConfig, baud: int): string {
    "--chip " + cfg.profile.chip + " --port " + cfg.port + " --baud " + IntToString(baud)
  }

  /** The `write_flash` tail: `offset "path" ` for every pair, in order. */
  function PairsText(pairs: seq<FlashPair>): string {
    if pairs == [] then ""
    else
      var p := pairs[|pairs| - 1];
      PairsText(pairs[..|pairs| - 1]) + p.offset + " \"" + p.path + "\" "
  }

  /** The operation's part of the argument string. */
  function OpText(op: Operation): string {
    match op
    case ChipId => "chip_id"
    case ReadMacAddress => "read_mac"
    case WriteFlash(pairs) => "write_flash " + PairsText(pairs)
    case ReadFlash(offset, size, file) => "read_flash " + offset + " " + size + " \"" + file + "\""
  }

  /** The argument string esptool is started with. */
  function Args(cfg: FlashConfig, inv: Invocation): string {
    BaseArgs(cfg, inv.baud) + NoReset + OpText(inv.op)
  }

  /** The identification probe talks at the detection baud rate. */
  function ChipIdCall(cfg: FlashConfig): (r: Invocation)
    ensures r.baud == cfg.detectBaud && r.op.ChipId?
  {
    Invocation(cfg.detectBaud, ChipId)
  }

  /** The MAC query talks at the detection baud rate. */
  function ReadMacCall(cfg: FlashConfig): (r: Invocation)
    ensures r.baud == cfg.detectBaud && r.op.ReadMacAddress?
  {
    Invocation(cfg.detectBaud, ReadMacAddress)
  }

  /**
   * Every command line starts with the chip, the port and the call's baud
   * rate, whose number reads back as that rate, followed by the no-reset options.
   */
  lemma ArgsLayout(cfg: FlashConfig, inv: Invocation)
    requires Int32Min <= inv.baud <= Int32Max
    ensures var head := "--chip " + cfg.profile.chip + " --port " + cfg.port + " --baud ";
      var rate := IntToString(inv.baud);
      var a := Args(cfg, inv);
      var n := |head| + |rate|;
      n + |NoReset| <= |a| && a[..|head|] == head &&
      ParseInt32(a[|head|..n]) == Some(inv.baud) && a[n..n + |NoReset|] == NoReset
  {
    var head := "--chip " + cfg.profile.chip + " --port " + cfg.port + " --baud ";
    var rate := IntToString(inv.baud);
    var a := Args(cfg, inv);
    assert a == head + rate + (NoReset + OpText(inv.op));
    assert a[|head|..|head| + |rate|] == rate by {
      assert a[|head|..] == rate + (NoReset + OpText(inv.op));
    }
    ParseInt32OfIntToString(inv.baud);
  }

  /** The file chosen for a segment, when there is one and it is not blank. */
  predicate HasPath(m: LabelMap, seg: ReceiverSegment) {
    var p := TryGetValue(m, seg.name);
    p.Some? && !IsBlank(p.value)
  }

  /** The pair a segment contributes: its offset and its chosen file. */
  function PairOf(m: LabelMap, seg: ReceiverSegment): FlashPair {
    FlashPair(seg.offset, TryGetValue(m, seg.name).GetOr(""))
  }

  /** The pairs `write_flash` is given for `segs`, built as the segment loop appends them. */
  function KeptPairs(m: LabelMap, segs: seq<ReceiverSegment>): (r: seq<FlashPair>)
    ensures |r| <= |segs|
  {
    if segs == [] then []
    else
      var init := KeptPairs(m, segs[..|segs| - 1]);
      var last := segs[|segs| - 1];
      if HasPath(m, last) then init + [PairOf(m, last)] else init
  }

  function WithPath(m: LabelMap): ReceiverSegment -> bool {
    s => HasPath(m, s)
  }

  /**
   * One pair per segment that has a file, and only those, in profile order:
   * the pairs are exactly the segments with a file, each with its own offset and file.
   */
  lemma {:induction false} KeptPairsAreSegmentsWithFiles(m: LabelMap, segs: seq<ReceiverSegment>)
    ensures var f := Filter(segs, WithPath(m));
      |KeptPairs(m, segs)| == |f| &&
      forall j :: 0 <= j < |f| ==> KeptPairs(m, segs)[j] == PairOf(m, f[j]) && HasPath(m, f[j])
  {
    if segs != [] {
      var init := segs[..|segs| - 1];
      var last := segs[|segs| - 1];
      KeptPairsAreSegmentsWithFiles(m, init);
      assert init + [last] == segs;
      FilterSnoc(init, last, WithPath(m));
    }
  }

  /** The read of one segment into `{outputDir}\{label}.bin`, at the flashing baud rate. */
  function ReadFlashCall(cfg: FlashConfig, outputDir: string, seg: ReceiverSegment): (r: Invocation)
    ensures r.baud == cfg.baud && r.op.ReadFlash?
    ensures r.op.offset == seg.offset && r.op.size == seg.size
  {
    Invocation(cfg.baud, ReadFlash(seg.offset, seg.size, WinPath.Combine(outputDir, seg.name + ".bin")))
  }

  /** `(stdout + "\n" + stderr).Trim()`. */
  function Combined(stdout: string, stderr: string): string {
    Trim(stdout + "\n" + stderr)
  }

  /** The exit-code rule of write and read_mac: exit 0 returns the output, anything else throws with it. */
  function CheckedOutput(p: ProcOutcome): (r: Result<string, string>)
    ensures r.Ok? <==> p.Exited? && p.code == 0
    ensures p.Exited? ==> r.Ok? || r.error == Combined(p.stdout, p.stderr)
    ensures p.Exited? && r.Ok? ==> r.value == Combined(p.stdout, p.stderr)
    ensures p.Faulted? ==> r == Err(p.message)
  {
    match p
    case Exited(code, out, err) =>
      if code != 0 then Err(Combined(out, err)) else Ok(Combined(out, err))
    case Faulted(m) => Err(m)
  }

  /** `TryChipIdAsync`'s answer: whether a chip was seen, and the combined output. */
  datatype ChipIdAnswer = ChipIdAnswer(ok: bool, output: string)

  /** A probe succeeds exactly when esptool exits 0 and names the chip ("Chip is", any case). */
  function TryChipId(p: ProcOutcome): (r: Result<ChipIdAnswer, string>)
    ensures r.Err? <==> p.Faulted?
    ensures r.Err? ==> r.error == p.message
    ensures r.Ok? ==> r.value.output == Combined(p.stdout, p.stderr)
    ensures r.Ok? ==> (r.value.ok <==> p.code == 0 && ContainsIgnoreCase(r.value.output, "Chip is"))
  {
    match p
    case Exited(code, out, err) =>
      var all := Combined(out, err);
      Ok(ChipIdAnswer(code == 0 && ContainsIgnoreCase(all, "Chip is"), all))
    case Faulted(m) => Err(m)
  }

  /** A required segment without a file. */
  function MissingIn(m: LabelMap): ReceiverSegment -> bool {
    (s: ReceiverSegment) => s.required && !HasPath(m, s)
  }

  /** The position of the first required segment that has no file, if any. */
  function FirstMissingRequired(m: LabelMap, segs: seq<ReceiverSegment>): Option<nat> {
    FirstWhere(segs, MissingIn(m), 0)
  }

  /**
   * `FirstMissingRequired` names a required segment without a file, every
   * earlier segment being optional or having one; it names none exactly when
   * every required segment has a file.
   */
  lemma FirstMissingRequiredIsFirst(m: LabelMap, segs: seq<ReceiverSegment>)
    ensures var r := FirstMissingRequired(m, segs);
      (r.Some? ==> r.value < |segs| && segs[r.value].required && !HasPath(m, segs[r.value]) &&
                   forall k :: 0 <= k < r.value ==> !segs[k].required || HasPath(m, segs[k])) &&
      (r.None? <==> forall k :: 0 <= k < |segs| ==> !segs[k].required || HasPath(m, segs[k]))
  {
    FirstWhereIsFirst(segs, MissingIn(m), 0);
    var r := FirstMissingRequired(m, segs);
    if r.Some? {
      assert MissingIn(m)(segs[r.value]);
    } else {
      assert forall k :: 0 <= k < |segs| ==> !MissingIn(m)(segs[k]);
    }
  }

  /** The message `WriteCloneAsync` throws for a required segment without a file. */
  function MissingSegmentMessage(seg: ReceiverSegment): string {
    "Missing file for required segment: " + seg.name
  }

  /** What `WriteCloneAsync` returns or throws, as a value. */
  function WriteResult(cfg: FlashConfig, run: ProcOutcome): Result<string, string> {
    match FirstMissingRequired(cfg.binPaths, cfg.profile.segments)
    case Some(k) => Err(MissingSegmentMessage(cfg.profile.segments[k]))
    case None => CheckedOutput(run)
  }

  /**
   * The segment loop of `WriteCloneAsync`: the segments are walked in order;
   * one with a file adds its pair, an optional one without a file is
   * skipped, and a required one without a file stops the walk (`missing`
   * names it).
   */
  method CollectPairs(m: LabelMap, segs: seq<ReceiverSegment>) returns (pairs: seq<FlashPair>, missing: Option<nat>)
    ensures missing == FirstMissingRequired(m, segs)
    ensures missing.None? ==> pairs == KeptPairs(m, segs)
  {
    pairs := [];
    var i := 0;
    while i < |segs|
      invariant 0 <= i <= |segs|
      invariant pairs == KeptPairs(m, segs[..i])
      invariant FirstMissingRequired(m, segs) == FirstWhere(segs, MissingIn(m), i)
    {
      var seg := segs[i];
      assert segs[..i + 1][..i] == segs[..i];
      var path := TryGetValue(m, seg.name);
      if path.None? || IsBlank(path.value) {
        if seg.required {
          return pairs, Some(i);
        }
      } else {
        pairs := pairs + [FlashPair(seg.offset, path.value)];
      }
      i := i + 1;
    }
    assert segs[..i] == segs;
    missing := None;
  }

  /**
   * `WriteCloneAsync`. A required segment without a file throws before
   * esptool is started (`call` is then `None`). Otherwise esptool runs once,
   * writing every kept pair at the flashing baud rate, and its outcome `run`
   * decides the result.
   */
  method WriteClone(cfg: FlashConfig, run: ProcOutcome) returns (r: Result<string, string>, call: Option<Invocation>)
    ensures call.None? <==> FirstMissingRequired(cfg.binPaths, cfg.profile.segments).Some?
    ensures call.Some? ==> call.value == Invocation(cfg.baud, WriteFlash(KeptPairs(cfg.binPaths, cfg.profile.segments)))
    ensures r == WriteResult(cfg, run)
  {
    var pairs, missing := CollectPairs(cfg.binPaths, cfg.profile.segments);
    if missing.Some? {
      return Err(MissingSegmentMessage(cfg.profile.segments[missing.value])), None;
    }
    r := CheckedOutput(run);
    call := Some(Invocation(cfg.baud, WriteFlash(pairs)));
  }

  /** The read calls for `segs`, as the segment loop issues them. */
  function ReadFlashCalls(cfg: FlashConfig, outputDir: string, segs: seq<ReceiverSegment>): (r: seq<Invocation>)
    ensures |r| == |segs|
  {
    if segs == [] then []
    else ReadFlashCalls(cfg, outputDir, segs[..|segs| - 1]) + [ReadFlashCall(cfg, outputDir, segs[|segs| - 1])]
  }

  /**
   * The k-th read is of the k-th segment, at the flashing baud rate, into a
   * file of the output folder named after that segment's label.
   */
  lemma {:induction false} ReadFlashCallsPerSegment(cfg: FlashConfig, outputDir: string, segs: seq<ReceiverSegment>, k: nat)
    requires k < |segs|
    ensures ReadFlashCalls(cfg, outputDir, segs)[k] == ReadFlashCall(cfg, outputDir, segs[k])
    ensures var c := ReadFlashCalls(cfg, outputDir, segs)[k];
      c.baud == cfg.baud && c.op == ReadFlash(segs[k].offset, segs[k].size, WinPath.Combine(outputDir, segs[k].name + ".bin"))
  {
    if k < |segs| - 1 {
      ReadFlashCallsPerSegment(cfg, outputDir, segs[..|segs| - 1], k);
    }
  }

  /** The message `ReadCloneAsync` returns once every segment is saved. */
  function CloneSaved(outputDir: string): string {
    "Clone saved to: " + outputDir
  }

  /** The message `ReadCloneAsync` throws for a segment whose read failed. */
  function ReadFailure(seg: ReceiverSegment, p: ProcOutcome): string {
    match p
    case Exited(_, out, err) => "Read " + seg.name + " failed:\n" + Combined(out, err)
    case Faulted(m) => m
  }

  predicate ExitedZero(p: ProcOutcome) {
    p.Exited? && p.code == 0
  }

  /**
   * `ReadCloneAsync`: one `read_flash` per segment, in profile order, each to
   * `{outputDir}\{label}.bin`; `run(k)` is the outcome of the k-th call.
   * The walk stops at the first read that fails, whose error names the
   * segment; when all succeed the result names the folder.
   */
  method ReadClone(cfg: FlashConfig, outputDir: string, run: nat -> ProcOutcome)
    returns (r: Result<string, string>, calls: seq<Invocation>)
    ensures |calls| <= |cfg.profile.segments|
    ensures calls == ReadFlashCalls(cfg, outputDir, cfg.profile.segments[..|calls|])
    ensures forall k :: 0 <= k < |calls| - 1 ==> ExitedZero(run(k))
    ensures r.Ok? <==> |calls| == |cfg.profile.segments| && forall k :: 0 <= k < |calls| ==> ExitedZero(run(k))
    ensures r.Ok? ==> r.value == CloneSaved(outputDir)
    ensures r.Err? ==> |calls| > 0 && !ExitedZero(run(|calls| - 1))
    ensures r.Err? ==> r.error == ReadFailure(cfg.profile.segments[|calls| - 1], run(|calls| - 1))
  {
    var segs := cfg.profile.segments;
    calls := [];
    var i := 0;
    while i < |segs|
      invariant 0 <= i <= |segs| && |calls| == i
      invariant calls == ReadFlashCalls(cfg, outputDir, segs[..i])
      invariant forall k :: 0 <= k < i ==> ExitedZero(run(k))
    {
      var seg := segs[i];
      assert segs[..i + 1][..i] == segs[..i];
      assert ReadFlashCalls(cfg, outputDir, segs[..i + 1]) ==
        ReadFlashCalls(cfg, outputDir, segs[..i]) + [ReadFlashCall(cfg, outputDir, seg)];
      calls := calls + [ReadFlashCall(cfg, outputDir, seg)];
      var p := run(i);
      if !ExitedZero(p) {
        return Err(ReadFailure(seg, p)), calls;
      }
      i := i + 1;
    }
    r := Ok(CloneSaved(outputDir));
  }

  /** `ReadMacAsync`: the MAC query and its checked output. */
  function ReadMac(cfg: FlashConfig, p: ProcOutcome): (r: (Invocation, Result<string, string>))
    ensures r.0 == ReadMacCall(cfg)
    ensures r.1.Ok? <==> ExitedZero(p)
    ensures r.1.Ok? ==> r.1.value == Combined(p.stdout, p.stderr)
  {
    (ReadMacCall(cfg), CheckedOutput(p))
  }
}
