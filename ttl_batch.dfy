/**
 * The serial flasher's batch engine: the required-file check before a run,
 * the boot-wait poll with its de-duplicated reason log, the retried flash of
 * one receiver, and the run over the receivers the operator connects one
 * after the other, with its OK counter.
 *
 * Elapsed time and cancellation are replaced by finite inputs: a receiver's
 * `polls` are the answers of the identification probes that fit before the
 * boot-wait deadline, its `writes` the results of the successive write
 * attempts, and the run ends (cancelled) after the last receiver of
 * `devices`. How esptool's process outcome becomes such an answer or result
 * is the `Esptool` module's `TryChipId` and `WriteResult`.
 */
module TtlBatch {
  import opened Wrappers
  import opened Strings
  import opened TtlModels
  import opened Process
  import opened Esptool

  // ---------------------------------------------------------------------------
  // ExtractShortReason
  // ---------------------------------------------------------------------------

  const LineBreaks: set<char> := {'\r', '\n'}

  predicate NonEmpty(s: string) {
    s != []
  }

  /**
   * The lines of an esptool output: split at CR and LF with the empty pieces
   * removed, then each trimmed (a piece of only spaces becomes "" and stays).
   */
  function ReasonLines(output: string): seq<string> {
    TrimAll(Filter(SplitBy(output, LineBreaks), NonEmpty))
  }

  /** Every reason line is trimmed and holds no line break. */
  lemma ReasonLineShape(output: string, k: int)
    requires 0 <= k < |ReasonLines(output)|
    ensures forall i :: 0 <= i < |ReasonLines(output)[k]| ==> ReasonLines(output)[k][i] !in LineBreaks
    ensures Trim(ReasonLines(output)[k]) == ReasonLines(output)[k]
  {
    var pieces := SplitBy(output, LineBreaks);
    var kept := Filter(pieces, NonEmpty);
    SplitByNoSeparator(output, LineBreaks);
    FilterMembers(pieces, NonEmpty);
    var j :| 0 <= j < |pieces| && pieces[j] == kept[k];
    var line := ReasonLines(output)[k];
    assert line == TrimAll(kept)[k] == Trim(kept[k]);
    forall i | 0 <= i < |line| ensures line[i] !in LineBreaks {
      TrimKeepsOnlyInputChars(kept[k], i);
    }
    TrimIdempotent(kept[k]);
  }

  /** The six esptool failure phrases. */
  const KeyPhrases: seq<string> := ["Failed to connect", "No serial data", "Could not open port",
                                    "Access is denied", "Invalid head of packet", "Timed out"]

  /** A line holding one of the failure phrases from position `j` on, in any case. */
  predicate HasPhraseFrom(l: string, j: nat)
    decreases |KeyPhrases| - j
  {
    j < |KeyPhrases| && (ContainsIgnoreCase(l, KeyPhrases[j]) || HasPhraseFrom(l, j + 1))
  }

  /** A line naming a known failure: it holds one of the six phrases, in any case. */
  predicate IsKeyLine(l: string) {
    HasPhraseFrom(l, 0)
  }

  lemma {:induction false} HasPhraseFromIff(l: string, j: nat)
    ensures HasPhraseFrom(l, j) <==> exists k :: j <= k < |KeyPhrases| && ContainsIgnoreCase(l, KeyPhrases[k])
    decreases |KeyPhrases| - j
  {
    if j < |KeyPhrases| {
      HasPhraseFromIff(l, j + 1);
    }
  }

  /** `IsKeyLine` holds exactly for the lines that contain some failure phrase, ignoring case. */
  lemma IsKeyLineIff(l: string)
    ensures IsKeyLine(l) <==> exists k :: 0 <= k < |KeyPhrases| && ContainsIgnoreCase(l, KeyPhrases[k])
  {
    HasPhraseFromIff(l, 0);
  }

  /**
   * `ExtractShortReason`: the first line naming a known failure, else the
   * last line, else "".
   */
  function ExtractShortReason(output: string): string {
    var lines := ReasonLines(output);
    match FirstWhere(lines, IsKeyLine, 0)
    case Some(k) => lines[k]
    case None => if lines == [] then "" else lines[|lines| - 1]
  }

  /**
   * When some line names a known failure, the reason is the first such line;
   * otherwise it is the last line, or "" for an output with no line.
   */
  lemma ShortReasonChoice(output: string)
    ensures var lines := ReasonLines(output);
      (exists k :: 0 <= k < |lines| && IsKeyLine(lines[k])) ==>
        var r := ExtractShortReason(output);
        IsKeyLine(r) && (exists k :: 0 <= k < |lines| && r == lines[k] && forall j :: 0 <= j < k ==> !IsKeyLine(lines[j]))
    ensures var lines := ReasonLines(output);
      (forall k :: 0 <= k < |lines| ==> !IsKeyLine(lines[k])) ==>
        ExtractShortReason(output) == (if lines == [] then "" else lines[|lines| - 1])
  {
    var lines := ReasonLines(output);
    var f := FirstWhere(lines, IsKeyLine, 0);
    FirstWhereIsFirst(lines, IsKeyLine, 0);
    if f.Some? {
      assert ExtractShortReason(output) == lines[f.value];
    }
  }

  /** The short reason is a single trimmed line. */
  lemma ShortReasonIsOneLine(output: string)
    ensures forall i :: 0 <= i < |ExtractShortReason(output)| ==> ExtractShortReason(output)[i] !in LineBreaks
    ensures Trim(ExtractShortReason(output)) == ExtractShortReason(output)
  {
    var lines := ReasonLines(output);
    match FirstWhere(lines, IsKeyLine, 0)
    case Some(k) => ReasonLineShape(output, k);
    case None =>
      if lines != [] {
        ReasonLineShape(output, |lines| - 1);
      }
  }

  // ---------------------------------------------------------------------------
  // ValidateFiles
  // ---------------------------------------------------------------------------

  /** A segment's file is chosen, not blank, and exists on disk. */
  predicate FileOk(m: LabelMap, fileExists: string -> bool, seg: ReceiverSegment) {
    var p := TryGetValue(m, seg.name);
    p.Some? && !IsBlank(p.value) && fileExists(p.value)
  }

  /** The message of the `FileNotFoundException` for a segment. */
  function FileNotFoundMessage(seg: ReceiverSegment): string {
    "Required file for segment '" + seg.name + "' not found."
  }

  /**
   * `ValidateFiles`: the required segments are checked in profile order and
   * the first whose file is missing, blank or absent is reported (its
   * position); optional segments are never checked.
   */
  method ValidateFiles(cfg: FlashConfig, fileExists: string -> bool) returns (missing: Option<nat>)
    ensures missing.Some? ==>
      var k := missing.value;
      k < |cfg.profile.segments| && cfg.profile.segments[k].required &&
      !FileOk(cfg.binPaths, fileExists, cfg.profile.segments[k]) &&
      forall j :: 0 <= j < k && cfg.profile.segments[j].required ==> FileOk(cfg.binPaths, fileExists, cfg.profile.segments[j])
    ensures missing.None? ==>
      forall j :: 0 <= j < |cfg.profile.segments| && cfg.profile.segments[j].required ==>
        FileOk(cfg.binPaths, fileExists, cfg.profile.segments[j])
  {
    var segs := cfg.profile.segments;
    var i := 0;
    while i < |segs|
      invariant 0 <= i <= |segs|
      invariant forall j :: 0 <= j < i && segs[j].required ==> FileOk(cfg.binPaths, fileExists, segs[j])
    {
      if segs[i].required {
        var path := TryGetValue(cfg.binPaths, segs[i].name);
        if path.None? || IsBlank(path.value) || !fileExists(path.value) {
          return Some(i);
        }
      }
      i := i + 1;
    }
    return None;
  }

  /** After the file check passes, the write never stops for a missing required file. */
  lemma ValidatedWriteNeverMisses(cfg: FlashConfig, fileExists: string -> bool, run: ProcOutcome)
    requires forall j :: 0 <= j < |cfg.profile.segments| && cfg.profile.segments[j].required ==>
               FileOk(cfg.binPaths, fileExists, cfg.profile.segments[j])
    ensures FirstMissingRequired(cfg.binPaths, cfg.profile.segments).None?
    ensures WriteResult(cfg, run) == CheckedOutput(run)
  {
    var segs := cfg.profile.segments;
    forall j | 0 <= j < |segs| && segs[j].required ensures HasPath(cfg.binPaths, segs[j]) {
      assert FileOk(cfg.binPaths, fileExists, segs[j]);
    }
    FirstMissingRequiredIsFirst(cfg.binPaths, segs);
  }

  // ---------------------------------------------------------------------------
  // WaitForBootAsync
  // ---------------------------------------------------------------------------

  /** What one `TryChipIdAsync` call gave the boot wait: its answer, or the message it threw. */
  type ChipProbe = Result<ChipIdAnswer, string>

  /** A probe saw the chip. A probe that threw saw nothing. */
  predicate ChipFound(a: ChipProbe) {
    a.Ok? && a.value.ok
  }

  /** A probe of esptool's process sees the chip exactly when it exits 0 and its output names the chip. */
  lemma ChipFoundOfProcess(p: ProcOutcome)
    ensures ChipFound(TryChipId(p)) <==>
      p.Exited? && p.code == 0 && ContainsIgnoreCase(Combined(p.stdout, p.stderr), "Chip is")
  {
  }

  /** A boot-wait log entry: `chip_id: {reason}` or `chip_id error: {message}`. */
  datatype BootNote = Reason(text: string) | ProbeError(text: string)

  function NoteLine(n: BootNote): string {
    match n
    case Reason(t) => "chip_id: " + t
    case ProbeError(t) => "chip_id error: " + t
  }

  /**
   * What a probe that did not see the chip would log, before the comparison
   * with the last message: its short reason unless blank, or the clipped
   * exception message.
   */
  function Candidate(p: ChipProbe): (r: Option<BootNote>)
    ensures r.Some? && r.value.Reason? ==> !IsBlank(r.value.text)
  {
    match p
    case Ok(a) =>
      var short := ExtractShortReason(a.output);
      if IsBlank(short) then None else Some(Reason(short))
    case Err(m) => Some(ProbeError(Truncate(m, 140)))
  }

  /** The entry a probe that did not see the chip logs, given the last message logged. */
  function Logged(p: ChipProbe, last: Option<string>): Option<BootNote> {
    var c := Candidate(p);
    if c.Some? && Some(c.value.text) != last then c else None
  }

  /** The last message logged after such a probe. */
  function LastAfter(p: ChipProbe, last: Option<string>): Option<string> {
    var l := Logged(p, last);
    if l.Some? then Some(l.value.text) else last
  }

  function OptionToSeq<T>(o: Option<T>): seq<T> {
    if o.Some? then [o.value] else []
  }

  /**
   * The entries logged while probing `polls` in order from position `i`,
   * `last` being the last message logged; nothing is probed after the chip
   * is seen.
   */
  function BootNotes(polls: seq<ChipProbe>, i: nat, last: Option<string>): seq<BootNote>
    decreases |polls| - i
  {
    if i >= |polls| || ChipFound(polls[i]) then []
    else OptionToSeq(Logged(polls[i], last)) + BootNotes(polls, i + 1, LastAfter(polls[i], last))
  }

  /** The same message is never logged twice in a row, starting from the last one logged. */
  lemma {:induction false} BootNotesNeverRepeat(polls: seq<ChipProbe>, i: nat, last: Option<string>)
    ensures var ns := BootNotes(polls, i, last);
      (ns != [] ==> Some(ns[0].text) != last) &&
      forall j :: 0 <= j < |ns| - 1 ==> ns[j].text != ns[j + 1].text
    decreases |polls| - i
  {
    if i < |polls| && !ChipFound(polls[i]) {
      var l := Logged(polls[i], last);
      var next := LastAfter(polls[i], last);
      BootNotesNeverRepeat(polls, i + 1, next);
      var rest := BootNotes(polls, i + 1, next);
      var ns := BootNotes(polls, i, last);
      assert ns == OptionToSeq(l) + rest;
      if l.Some? {
        assert ns == [l.value] + rest;
        assert forall j :: 1 <= j < |ns| ==> ns[j] == rest[j - 1];
      }
    }
  }

  /** No logged short reason is blank. */
  predicate NoBlankReason(ns: seq<BootNote>) {
    forall j :: 0 <= j < |ns| && ns[j].Reason? ==> !IsBlank(ns[j].text)
  }

  /** A short reason is logged only when it is not blank. */
  lemma {:induction false} BootNotesNoBlankReason(polls: seq<ChipProbe>, i: nat, last: Option<string>)
    ensures NoBlankReason(BootNotes(polls, i, last))
    decreases |polls| - i
  {
    if i < |polls| && !ChipFound(polls[i]) {
      var l := Logged(polls[i], last);
      var next := LastAfter(polls[i], last);
      BootNotesNoBlankReason(polls, i + 1, next);
      var rest := BootNotes(polls, i + 1, next);
      assert BootNotes(polls, i, last) == OptionToSeq(l) + rest;
      if l.Some? {
        assert l == Candidate(polls[i]);
        NoBlankReasonCons(l.value, rest);
      }
    }
  }

  lemma NoBlankReasonCons(n: BootNote, rest: seq<BootNote>)
    requires n.Reason? ==> !IsBlank(n.text)
    requires NoBlankReason(rest)
    ensures NoBlankReason([n] + rest)
  {
    var ns := [n] + rest;
    forall j | 1 <= j < |ns| ensures ns[j] == rest[j - 1] { }
  }

  /** The chip is seen by a probe of `polls` from position `i` on. */
  predicate Detected(polls: seq<ChipProbe>, i: nat)
    decreases |polls| - i
  {
    i < |polls| && (ChipFound(polls[i]) || Detected(polls, i + 1))
  }

  /** `Detected(polls, i)`: some probe at position `i` or later sees the chip. */
  lemma {:induction false} DetectedIff(polls: seq<ChipProbe>, i: nat)
    ensures Detected(polls, i) <==> exists k :: i <= k < |polls| && ChipFound(polls[k])
    decreases |polls| - i
  {
    if i < |polls| {
      DetectedIff(polls, i + 1);
    }
  }

  /**
   * One pass of the boot-wait loop body: the probe, and when it does not see
   * the chip, the entry it logs (its reason or error, unless blank or equal
   * to the last message) and the last message afterwards.
   */
  method Probe(p: ChipProbe, lastMsg: Option<string>) returns (found: bool, entry: Option<BootNote>, next: Option<string>)
    ensures found == ChipFound(p)
    ensures !found ==> entry == Logged(p, lastMsg) && next == LastAfter(p, lastMsg)
  {
    entry := None;
    next := lastMsg;
    match p {
      case Ok(a) =>
        if a.ok {
          return true, None, lastMsg;
        }
        var shortMsg := ExtractShortReason(a.output);
        if !IsBlank(shortMsg) && Some(shortMsg) != lastMsg {
          entry := Some(Reason(shortMsg));
          next := Some(shortMsg);
        }
      case Err(message) =>
        var m := Truncate(message, 140);
        if Some(m) != lastMsg {
          entry := Some(ProbeError(m));
          next := Some(m);
        }
    }
    found := false;
  }

  /** A probe that does not see the chip adds its entry to the log and goes on with the next probe. */
  lemma BootNotesStep(polls: seq<ChipProbe>, i: nat, last: Option<string>, notes: seq<BootNote>)
    requires i < |polls| && !ChipFound(polls[i])
    ensures notes + BootNotes(polls, i, last) ==
      (notes + OptionToSeq(Logged(polls[i], last))) + BootNotes(polls, i + 1, LastAfter(polls[i], last))
  {
    AppendAssoc(notes, OptionToSeq(Logged(polls[i], last)), BootNotes(polls, i + 1, LastAfter(polls[i], last)));
  }

  /**
   * `WaitForBootAsync`: probes in order until one sees the chip (true) or the
   * probes run out (false); `notes` is what it logs on the way.
   */
  method WaitForBoot(polls: seq<ChipProbe>) returns (detected: bool, notes: seq<BootNote>)
    ensures detected == Detected(polls, 0)
    ensures notes == BootNotes(polls, 0, None)
  {
    var lastMsg: Option<string> := None;
    notes := [];
    var i := 0;
    while i < |polls|
      invariant 0 <= i <= |polls|
      invariant notes + BootNotes(polls, i, lastMsg) == BootNotes(polls, 0, None)
      invariant Detected(polls, 0) == Detected(polls, i)
    {
      var found, entry, next := Probe(polls[i], lastMsg);
      if found {
        return true, notes;
      }
      BootNotesStep(polls, i, lastMsg, notes);
      notes := notes + OptionToSeq(entry);
      lastMsg := next;
      i := i + 1;
    }
    return false, notes;
  }

  // ---------------------------------------------------------------------------
  // The attempt loop of one receiver
  // ---------------------------------------------------------------------------

  /** What one `WriteCloneAsync` call gave: esptool's output, or the message it threw. */
  type WriteOutcome = Result<string, string>

  /** A write attempt and the clipped text it logged, or the 800 ms pause before a retry. */
  datatype FlashStep = Write(attempt: nat, ok: bool, text: string) | Backoff

  /** The steps of attempts `attempt`..`RetryFlashCount`, `outcome(k)` being the k-th write's result. */
  function FlashSteps(cfg: FlashConfig, outcome: nat -> WriteOutcome, attempt: nat): seq<FlashStep>
    decreases cfg.retryFlashCount + 1 - attempt
  {
    if attempt > cfg.retryFlashCount then []
    else
      match outcome(attempt)
      case Ok(output) => [Write(attempt, true, Truncate(output, 500))]
      case Err(message) =>
        [Write(attempt, false, Truncate(message, 600))]
        + (if attempt < cfg.retryFlashCount then [Backoff] else [])
        + FlashSteps(cfg, outcome, attempt + 1)
  }

  /** Some attempt from `attempt` to `RetryFlashCount` writes successfully. */
  predicate AnyWriteOk(cfg: FlashConfig, outcome: nat -> WriteOutcome, attempt: nat)
    decreases cfg.retryFlashCount + 1 - attempt
  {
    attempt as int <= cfg.retryFlashCount &&
    (outcome(attempt).Ok? || AnyWriteOk(cfg, outcome, attempt + 1))
  }

  /** `AnyWriteOk(cfg, outcome, a)`: some attempt from `a` to `RetryFlashCount` writes successfully. */
  lemma {:induction false} AnyWriteOkIff(cfg: FlashConfig, outcome: nat -> WriteOutcome, attempt: nat)
    ensures AnyWriteOk(cfg, outcome, attempt) <==>
      exists k: nat :: attempt <= k && k as int <= cfg.retryFlashCount && outcome(k).Ok?
    decreases cfg.retryFlashCount + 1 - attempt
  {
    if attempt as int <= cfg.retryFlashCount {
      AnyWriteOkIff(cfg, outcome, attempt + 1);
    }
  }

  function WriteCount(steps: seq<FlashStep>): nat {
    if steps == [] then 0 else (if steps[0].Write? then 1 else 0) + WriteCount(steps[1..])
  }

  /**
   * When every attempt fails, the write runs once per attempt from
   * `attempt` to `RetryFlashCount`: `RetryFlashCount + 1` times from the start.
   */
  lemma {:induction false} AllFailWritesEveryAttempt(cfg: FlashConfig, outcome: nat -> WriteOutcome, attempt: nat)
    requires forall k: nat :: k <= cfg.retryFlashCount ==> outcome(k).Err?
    ensures WriteCount(FlashSteps(cfg, outcome, attempt)) == if attempt > cfg.retryFlashCount then 0 else cfg.retryFlashCount + 1 - attempt
    decreases cfg.retryFlashCount + 1 - attempt
  {
    if attempt <= cfg.retryFlashCount {
      AllFailWritesEveryAttempt(cfg, outcome, attempt + 1);
      var rest := FlashSteps(cfg, outcome, attempt + 1);
      var r := outcome(attempt);
      var head := [Write(attempt, false, Truncate(r.error, 600))] + (if attempt < cfg.retryFlashCount then [Backoff] else []);
      WriteCountAppend(head, rest);
      if attempt < cfg.retryFlashCount {
        assert head[1..] == [Backoff];
        assert WriteCount(head[1..][1..]) == 0;
      }
    }
  }

  lemma {:induction false} WriteCountAppend(a: seq<FlashStep>, b: seq<FlashStep>)
    ensures WriteCount(a + b) == WriteCount(a) + WriteCount(b)
  {
    if a != [] {
      assert (a + b)[0] == a[0] && (a + b)[1..] == a[1..] + b;
      WriteCountAppend(a[1..], b);
    } else {
      assert a + b == b;
    }
  }

  /**
   * A pause is always between two attempts: it follows a failed write and is
   * followed by the next write, so none comes after the final attempt.
   */
  lemma {:induction false} BackoffOnlyBetweenAttempts(cfg: FlashConfig, outcome: nat -> WriteOutcome, attempt: nat)
    ensures var s := FlashSteps(cfg, outcome, attempt);
      forall j :: 0 <= j < |s| && s[j].Backoff? ==>
        0 < j < |s| - 1 && s[j - 1].Write? && !s[j - 1].ok && s[j + 1].Write? && s[j + 1].attempt == s[j - 1].attempt + 1
    ensures var s := FlashSteps(cfg, outcome, attempt);
      s != [] ==> s[0].Write? && s[0].attempt == attempt
    decreases cfg.retryFlashCount + 1 - attempt
  {
    if attempt <= cfg.retryFlashCount {
      var r := outcome(attempt);
      if r.Err? {
        BackoffOnlyBetweenAttempts(cfg, outcome, attempt + 1);
        var rest := FlashSteps(cfg, outcome, attempt + 1);
        var w := Write(attempt, false, Truncate(r.error, 600));
        var s := FlashSteps(cfg, outcome, attempt);
        if attempt < cfg.retryFlashCount {
          assert s == [w, Backoff] + rest;
          assert rest != [];
          forall j | 0 <= j < |s| && s[j].Backoff?
            ensures 0 < j < |s| - 1 && s[j - 1].Write? && !s[j - 1].ok && s[j + 1].Write? && s[j + 1].attempt == s[j - 1].attempt + 1
          {
            if j >= 2 {
              assert s[j] == rest[j - 2];
              assert s[j - 1] == rest[j - 3] && s[j + 1] == rest[j - 1];
            }
          }
        } else {
          assert rest == [];
          assert s == [w];
        }
      }
    }
  }

  /**
   * The attempt loop of `RunAsync` for one receiver: writes until one
   * succeeds or `RetryFlashCount + 1` attempts have failed, pausing before
   * each retry. `lastError` is what `lastErr` holds after the loop.
   */
  method FlashAttempts(cfg: FlashConfig, outcome: nat -> WriteOutcome)
    returns (flashed: bool, lastError: Option<string>, steps: seq<FlashStep>)
    ensures steps == FlashSteps(cfg, outcome, 0)
    ensures flashed <==> AnyWriteOk(cfg, outcome, 0)
    ensures lastError.None? <==> flashed || cfg.retryFlashCount < 0
  {
    lastError := None;
    steps := [];
    var attempt: nat := 0;
    while attempt as int <= cfg.retryFlashCount
      invariant attempt == 0 || attempt as int <= cfg.retryFlashCount + 1
      invariant steps + FlashSteps(cfg, outcome, attempt) == FlashSteps(cfg, outcome, 0)
      invariant AnyWriteOk(cfg, outcome, 0) == AnyWriteOk(cfg, outcome, attempt)
      invariant lastError.Some? <==> attempt > 0
      decreases cfg.retryFlashCount + 1 - attempt
    {
      var r := outcome(attempt);
      if r.Ok? {
        steps := steps + [Write(attempt, true, Truncate(r.value, 500))];
        return true, None, steps;
      }
      ghost var pause := if attempt as int < cfg.retryFlashCount then [Backoff] else [];
      ghost var tail := FlashSteps(cfg, outcome, attempt + 1);
      var write := Write(attempt, false, Truncate(r.error, 600));
      assert FlashSteps(cfg, outcome, attempt) == [write] + pause + tail;
      ghost var before := steps;
      lastError := Some(r.error);
      steps := steps + [write];
      if attempt as int < cfg.retryFlashCount {
        steps := steps + [Backoff];
      }
      assert steps == before + ([write] + pause);
      AppendAssoc(before, [write] + pause, tail);
      attempt := attempt + 1;
    }
    assert FlashSteps(cfg, outcome, attempt) == [];
    flashed := false;
  }

  // ---------------------------------------------------------------------------
  // RunAsync
  // ---------------------------------------------------------------------------

  /** A receiver as the run meets it: the answers of its probes before the deadline and the results of its writes. */
  datatype Device = Device(polls: seq<ChipProbe>, writes: nat -> WriteOutcome)

  /** What the run did with one receiver. */
  datatype Round = Round(detected: bool, notes: seq<BootNote>, steps: seq<FlashStep>, flashed: bool, waitedAgain: bool)

  /** How a run ends: cancelled by the operator, a receiver not seen in time, or a required file missing. */
  datatype RunEnd = Cancelled | BootTimeout | MissingFile(message: string)

  /** The round a receiver gets: the boot wait, and the attempts only once the chip is seen. */
  function RoundOf(cfg: FlashConfig, d: Device): Round {
    if !Detected(d.polls, 0) then Round(false, BootNotes(d.polls, 0, None), [], false, false)
    else
      var flashed := AnyWriteOk(cfg, d.writes, 0);
      Round(true, BootNotes(d.polls, 0, None), FlashSteps(cfg, d.writes, 0), flashed, !flashed && cfg.retryFlashCount >= 0)
  }

  /** The round each receiver would get, in order. */
  function RoundsFor(cfg: FlashConfig, ds: seq<Device>): (r: seq<Round>)
    ensures |r| == |ds|
  {
    seq(|ds|, j requires 0 <= j < |ds| => RoundOf(cfg, ds[j]))
  }

  predicate Seen(r: Round) {
    r.detected
  }

  function FlashedCount(rounds: seq<Round>): nat {
    if rounds == [] then 0
    else FlashedCount(rounds[..|rounds| - 1]) + (if rounds[|rounds| - 1].flashed then 1 else 0)
  }

  lemma FlashedCountSnoc(rounds: seq<Round>, round: Round)
    ensures FlashedCount(rounds + [round]) == FlashedCount(rounds) + (if round.flashed then 1 else 0)
  {
    assert (rounds + [round])[..|rounds|] == rounds;
  }

  /** One pass of the `RunAsync` loop: the boot wait, then the attempts once the chip is seen. */
  method HandleDevice(cfg: FlashConfig, d: Device) returns (round: Round)
    ensures round == RoundOf(cfg, d)
  {
    var detected, notes := WaitForBoot(d.polls);
    if !detected {
      return Round(false, notes, [], false, false);
    }
    var flashed, lastError, steps := FlashAttempts(cfg, d.writes);
    round := Round(true, notes, steps, flashed, lastError.Some?);
  }

  /**
   * The `RunAsync` loop once the files are checked: the receivers are handled
   * in order; a receiver not seen before its deadline ends the run (the
   * timeout is thrown, there is no loop-back), otherwise it is flashed with
   * retries, each success raising `ok` by one and reporting the new value
   * (`okReports` holds the values reported, in order). The operator cancels
   * after the last receiver.
   */
  method RunRounds(cfg: FlashConfig, devices: seq<Device>)
    returns (timedOut: bool, ok: nat, okReports: seq<nat>, rounds: seq<Round>)
    ensures rounds == ThroughFirstMiss(RoundsFor(cfg, devices), Seen, 0)
    ensures timedOut <==> rounds != [] && !rounds[|rounds| - 1].detected
    ensures ok == FlashedCount(rounds)
    ensures okReports == CountUp(ok)
  {
    ghost var all := RoundsFor(cfg, devices);
    ok := 0;
    okReports := [];
    rounds := [];
    timedOut := false;
    var i := 0;
    while i < |devices| && !timedOut
      invariant 0 <= i <= |devices| && |rounds| == i
      invariant rounds + (if timedOut then [] else ThroughFirstMiss(all, Seen, i)) == ThroughFirstMiss(all, Seen, 0)
      invariant timedOut <==> i > 0 && !rounds[i - 1].detected
      invariant ok == FlashedCount(rounds)
      invariant okReports == CountUp(ok)
    {
      var round := HandleDevice(cfg, devices[i]);
      assert round == all[i];
      ThroughFirstMissStep(all, Seen, i, rounds);
      FlashedCountSnoc(rounds, round);
      rounds := rounds + [round];
      if round.flashed {
        ok := ok + 1;
        okReports := okReports + [ok];
      }
      timedOut := !round.detected;
      i := i + 1;
    }
  }

  /**
   * `RunAsync`: the files are checked first, and a missing one ends the run
   * before any receiver is probed; then the receivers are handled as
   * `RunRounds` states.
   */
  method RunBatch(cfg: FlashConfig, fileExists: string -> bool, devices: seq<Device>)
    returns (end: RunEnd, ok: nat, okReports: seq<nat>, rounds: seq<Round>)
    ensures end.MissingFile? <==>
      exists j :: 0 <= j < |cfg.profile.segments| && cfg.profile.segments[j].required &&
        !FileOk(cfg.binPaths, fileExists, cfg.profile.segments[j])
    ensures end.MissingFile? ==> rounds == [] && ok == 0 && okReports == []
    ensures !end.MissingFile? ==> rounds == ThroughFirstMiss(RoundsFor(cfg, devices), Seen, 0)
    ensures end == BootTimeout <==> rounds != [] && !rounds[|rounds| - 1].detected
    ensures ok == FlashedCount(rounds)
    ensures okReports == CountUp(ok)
  {
    var missing := ValidateFiles(cfg, fileExists);
    if missing.Some? {
      return MissingFile(FileNotFoundMessage(cfg.profile.segments[missing.value])), 0, [], [];
    }
    var timedOut;
    timedOut, ok, okReports, rounds := RunRounds(cfg, devices);
    end := if timedOut then BootTimeout else Cancelled;
  }
}
