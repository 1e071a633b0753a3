/**
 * The OTA batch run: receivers are put into Wi-Fi mode one after another;
 * each pass of the loop looks for a receiver's access point, joins it,
 * uploads the firmware over HTTP, counts the upload and goes back to the
 * operator's own network.
 *
 * What a pass meets (the `netsh` answers, the HTTP answers and whether a
 * cancellation cut one of its pauses) is a `RoundInput` supplied by the
 * caller; the operator's cancellation seen at the loop test ends the run
 * after the last one.
 */
module OtaBatch {
  import opened Wrappers
  import opened Strings
  import opened Process
  import opened NetshWifi
  import opened ElrsOta
  import opened OtaModels

  /** The firmware file: its name and its length in bytes. */
  datatype Firmware = Firmware(name: string, length: nat)

  /** The answers one `ConnectAsync` call gets: the connect request, the polls before the deadline, a cancellation in the last pause. */
  datatype ConnectAnswers = ConnectAnswers(request: ProcOutcome, polls: seq<ProcOutcome>, cutInPause: bool)

  /** The answers `WaitWebAsync` gets: the polls before the deadline, a cancellation in the last pause. */
  datatype WebAnswers = WebAnswers(polls: seq<WebPoll>, cutInPause: bool)

  /**
   * What one pass of the loop meets: the networks listing; whether a
   * cancellation cuts the pause it makes (the one-second wait when no access
   * point is found, or the reboot wait after an upload); the three profile
   * calls; joining the access point; waiting for the page; the page fetched
   * for the log and the one fetched again by the upload; the upload's answer;
   * and going back to the operator's network.
   */
  datatype RoundInput = RoundInput(
    networks: ProcOutcome,
    pauseCut: bool,
    delete: ProcOutcome, current: ProcOutcome, all: ProcOutcome,
    connect: ConnectAnswers,
    web: WebAnswers,
    page: Result<string, string>,
    uploadPage: Result<string, string>,
    reply: Result<HttpReply, string>,
    reconnect: ConnectAnswers)

  /**
   * What one pass did: the access point it picked, the profile calls it
   * made, whether it tried to join, the upload it posted, the response text
   * it logged (clipped to 180 characters) when the upload went through,
   * whether it tried to go back to the operator's network, and the
   * exception that ended the run, if any.
   */
  datatype Round = Round(
    picked: Option<string>,
    profileCalls: seq<ProfileCall>,
    joinTried: bool,
    upload: Option<UploadRequest>,
    responseLogged: Option<string>,
    reconnectTried: bool,
    error: Option<string>)

  /** How a run ends: the firmware file is missing, the operator cancelled at the loop test, or an exception escaped. */
  datatype RunEnd = FirmwareMissing(message: string) | Stopped | Threw(message: string)

  const FirmwareNotFoundMessage := "Firmware .bin not found"
  const WebTimeoutMessage := "10.0.0.1 did not respond in time"

  /** The access point name test: an ordinal prefix or an ordinal equality with `RxSsid`. */
  function MatchesRx(cfg: BatchConfig): string -> bool {
    (s: string) => if cfg.ssidIsPrefix then StartsWith(s, cfg.rxSsid) else s == cfg.rxSsid
  }

  /** `FirstOrDefault` over the visible names with that test. */
  function PickRx(cfg: BatchConfig, ssids: seq<string>): Option<string> {
    match FirstWhere(ssids, MatchesRx(cfg), 0)
    case None => None
    case Some(k) => Some(ssids[k])
  }

  /**
   * The name picked is the first visible one that starts with `RxSsid` in
   * prefix mode, or equals it otherwise; none is picked only when no visible
   * name passes.
   */
  lemma PickRxRule(cfg: BatchConfig, ssids: seq<string>)
    ensures PickRx(cfg, ssids).None? <==>
      forall k :: 0 <= k < |ssids| ==> !(if cfg.ssidIsPrefix then StartsWith(ssids[k], cfg.rxSsid) else ssids[k] == cfg.rxSsid)
    ensures PickRx(cfg, ssids).Some? ==>
      exists k :: 0 <= k < |ssids| && ssids[k] == PickRx(cfg, ssids).value &&
        (if cfg.ssidIsPrefix then StartsWith(ssids[k], cfg.rxSsid) else ssids[k] == cfg.rxSsid) &&
        forall j :: 0 <= j < k ==> !(if cfg.ssidIsPrefix then StartsWith(ssids[j], cfg.rxSsid) else ssids[j] == cfg.rxSsid)
  {
    FirstWhereIsFirst(ssids, MatchesRx(cfg), 0);
    match FirstWhere(ssids, MatchesRx(cfg), 0)
    case None =>
      forall k | 0 <= k < |ssids| ensures !MatchesRx(cfg)(ssids[k]) { }
    case Some(k) =>
      assert MatchesRx(cfg)(ssids[k]);
      forall j | 0 <= j < k ensures !MatchesRx(cfg)(ssids[j]) { }
  }

  /** The pass once the access point `ssid` is picked and its profile is in place. */
  function JoinedRound(cfg: BatchConfig, fw: Firmware, original: Option<string>, input: RoundInput, ssid: string, calls: seq<ProfileCall>): Round {
    var cerr := ConnectOutcome(ssid, input.connect.request, input.connect.polls, input.connect.cutInPause);
    if cerr.Some? then Round(Some(ssid), calls, true, None, None, false, cerr)
    else match WaitWebOutcome(input.web.polls, input.web.cutInPause)
      case NotUp => Round(Some(ssid), calls, true, None, None, false, Some(WebTimeoutMessage))
      case WaitCanceled => Round(Some(ssid), calls, true, None, None, false, Some(TaskCanceledMessage))
      case Up =>
        match DetectUploadForm(input.page)
        case Err(m) => Round(Some(ssid), calls, true, None, None, false, Some(m))
        case Ok(_) =>
          var up := UploadFirmware(fw.name, fw.length, input.uploadPage, input.reply);
          match up.result
          case Err(m) => Round(Some(ssid), calls, true, up.request, None, false, Some(m))
          case Ok(body) =>
            var logged := Some(Truncate(body, 180));
            if input.pauseCut then Round(Some(ssid), calls, true, up.request, logged, false, Some(TaskCanceledMessage))
            else Round(Some(ssid), calls, true, up.request, logged, !IsNullOrWhiteSpace(original), None)
  }

  /** The pass a `RoundInput` gets, `original` being the network the machine was on when the run started. */
  function RoundOf(cfg: BatchConfig, fw: Firmware, original: Option<string>, input: RoundInput): Round {
    match input.networks
    case Faulted(m) => Round(None, [], false, None, None, false, Some(m))
    case Exited(_, out, _) =>
      var picked := PickRx(cfg, VisibleSsids(out));
      if picked.None? then Round(None, [], false, None, None, false, if input.pauseCut then Some(TaskCanceledMessage) else None)
      else
        var prof := EnsureProfile(picked.value, cfg.rxPassword, input.delete, input.current, input.all);
        if prof.err.Some? then Round(picked, prof.calls, false, None, None, false, prof.err)
        else JoinedRound(cfg, fw, original, input, picked.value, prof.calls)
  }

  /**
   * A pass that finds no access point makes no profile call, does not try to
   * join, uploads nothing and counts nothing; it ends the run only when a
   * cancellation cuts its one-second pause.
   */
  lemma NotFoundRoundIsQuiet(cfg: BatchConfig, fw: Firmware, original: Option<string>, input: RoundInput)
    requires input.networks.Exited? && PickRx(cfg, VisibleSsids(input.networks.stdout)).None?
    ensures var r := RoundOf(cfg, fw, original, input);
      r.picked.None? && r.profileCalls == [] && !r.joinTried && r.upload.None? && r.responseLogged.None? &&
      (r.error.Some? <==> input.pauseCut)
  {
  }

  /**
   * Once the access point is picked and its profile is in place: the pass
   * tries to join; it counts an upload only after the join, the page
   * answering and the device accepting the POST to `http://10.0.0.1` plus
   * the detected path; a page that never answers ends the run with the web
   * timeout; going back to the operator's network is tried exactly after a
   * counted upload whose reboot wait was not cancelled, when that network is
   * known and not blank, and nothing it meets changes the pass.
   */
  lemma JoinedRoundRule(cfg: BatchConfig, fw: Firmware, original: Option<string>, input: RoundInput, ssid: string, calls: seq<ProfileCall>, other: ConnectAnswers)
    ensures var r := JoinedRound(cfg, fw, original, input, ssid, calls);
      r.picked == Some(ssid) && r.profileCalls == calls && r.joinTried &&
      (r.responseLogged.Some? ==>
        ConnectOutcome(ssid, input.connect.request, input.connect.polls, input.connect.cutInPause).None? &&
        WaitWebOutcome(input.web.polls, input.web.cutInPause) == Up &&
        r.upload.Some? && StartsWith(r.upload.value.url, DeviceBase + "/") &&
        ReplyResult(input.reply).Ok? && r.responseLogged == Some(Truncate(ReplyResult(input.reply).value, 180)))
    ensures var r := JoinedRound(cfg, fw, original, input, ssid, calls);
      (WaitWebOutcome(input.web.polls, input.web.cutInPause) != Up ==> r.upload.None? && r.responseLogged.None?) &&
      ((ConnectOutcome(ssid, input.connect.request, input.connect.polls, input.connect.cutInPause).None? &&
        WaitWebOutcome(input.web.polls, input.web.cutInPause) == NotUp) ==> r.error == Some(WebTimeoutMessage))
    ensures var r := JoinedRound(cfg, fw, original, input, ssid, calls);
      r.reconnectTried <==> r.responseLogged.Some? && !input.pauseCut && !IsNullOrWhiteSpace(original)
    ensures JoinedRound(cfg, fw, original, input.(reconnect := other), ssid, calls) == JoinedRound(cfg, fw, original, input, ssid, calls)
  {
    var cerr := ConnectOutcome(ssid, input.connect.request, input.connect.polls, input.connect.cutInPause);
    if cerr.None? && WaitWebOutcome(input.web.polls, input.web.cutInPause) == Up && DetectUploadForm(input.page).Ok? {
      UploadFirmwareRule(fw.name, fw.length, input.uploadPage, input.reply);
    }
  }

  /**
   * An upload is counted only after the picked access point's profile was
   * added, the machine joined it, the page answered and the device accepted
   * the firmware posted to `http://10.0.0.1` plus the detected path.
   */
  lemma UploadedRoundRule(cfg: BatchConfig, fw: Firmware, original: Option<string>, input: RoundInput)
    requires RoundOf(cfg, fw, original, input).responseLogged.Some?
    ensures input.networks.Exited?
    ensures var r := RoundOf(cfg, fw, original, input);
      r.picked.Some? && r.picked == PickRx(cfg, VisibleSsids(input.networks.stdout)) &&
      EnsureProfile(r.picked.value, cfg.rxPassword, input.delete, input.current, input.all).err.None? &&
      r.joinTried && ConnectOutcome(r.picked.value, input.connect.request, input.connect.polls, input.connect.cutInPause).None? &&
      WaitWebOutcome(input.web.polls, input.web.cutInPause) == Up &&
      r.upload.Some? && StartsWith(r.upload.value.url, DeviceBase + "/") &&
      ReplyResult(input.reply).Ok? && r.responseLogged == Some(Truncate(ReplyResult(input.reply).value, 180))
  {
    var picked := PickRx(cfg, VisibleSsids(input.networks.stdout));
    var prof := EnsureProfile(picked.value, cfg.rxPassword, input.delete, input.current, input.all);
    JoinedRoundRule(cfg, fw, original, input, picked.value, prof.calls, input.reconnect);
  }

  /**
   * When the device's page never answers, the run ends with the web timeout
   * after the join, and nothing is uploaded.
   */
  lemma WebTimeoutEndsRun(cfg: BatchConfig, fw: Firmware, original: Option<string>, input: RoundInput)
    requires RoundOf(cfg, fw, original, input).joinTried
    requires forall k :: 0 <= k < |input.web.polls| ==> !Responds(input.web.polls[k])
    requires !(input.web.cutInPause && input.web.polls != [])
    ensures input.networks.Exited? && RoundOf(cfg, fw, original, input).picked.Some?
    ensures var r := RoundOf(cfg, fw, original, input);
      r.upload.None? && r.responseLogged.None? &&
      (ConnectOutcome(r.picked.value, input.connect.request, input.connect.polls, input.connect.cutInPause).None? ==>
        r.error == Some(WebTimeoutMessage))
  {
    WaitWebRule(input.web.polls, input.web.cutInPause);
    var picked := PickRx(cfg, VisibleSsids(input.networks.stdout));
    var prof := EnsureProfile(picked.value, cfg.rxPassword, input.delete, input.current, input.all);
    JoinedRoundRule(cfg, fw, original, input, picked.value, prof.calls, input.reconnect);
  }

  /**
   * Going back to the operator's network is tried exactly after a counted
   * upload whose reboot wait was not cancelled, when that network is known
   * and not blank; whatever that attempt meets, the pass comes out the same.
   */
  lemma ReconnectRule(cfg: BatchConfig, fw: Firmware, original: Option<string>, input: RoundInput, other: ConnectAnswers)
    ensures var r := RoundOf(cfg, fw, original, input);
      r.reconnectTried <==> r.responseLogged.Some? && !input.pauseCut && !IsNullOrWhiteSpace(original)
    ensures RoundOf(cfg, fw, original, input.(reconnect := other)) == RoundOf(cfg, fw, original, input)
  {
    if input.networks.Exited? {
      var picked := PickRx(cfg, VisibleSsids(input.networks.stdout));
      if picked.Some? {
        var prof := EnsureProfile(picked.value, cfg.rxPassword, input.delete, input.current, input.all);
        JoinedRoundRule(cfg, fw, original, input, picked.value, prof.calls, other);
      }
    }
  }

  /**
   * One pass of the `RunAsync` loop: list the networks, pick the access
   * point, put its profile in place and join it, wait for the page, detect
   * the form and upload, wait for the reboot and go back to `original`.
   */
  method HandleRound(cfg: BatchConfig, fw: Firmware, original: Option<string>, input: RoundInput) returns (r: Round)
    ensures r == RoundOf(cfg, fw, original, input)
  {
    if input.networks.Faulted? {
      return Round(None, [], false, None, None, false, Some(input.networks.message));
    }
    var ssids := VisibleSsids(input.networks.stdout);
    var rxSsid := PickRx(cfg, ssids);
    if rxSsid.None? {
      return Round(None, [], false, None, None, false, if input.pauseCut then Some(TaskCanceledMessage) else None);
    }
    var ssid := rxSsid.value;
    var prof := EnsureProfile(ssid, cfg.rxPassword, input.delete, input.current, input.all);
    if prof.err.Some? {
      return Round(rxSsid, prof.calls, false, None, None, false, prof.err);
    }
    var cerr, _ := Connect(ssid, input.connect.request, input.connect.polls, input.connect.cutInPause);
    if cerr.Some? {
      return Round(rxSsid, prof.calls, true, None, None, false, cerr);
    }
    var web, _ := WaitWeb(input.web.polls, input.web.cutInPause);
    if web == NotUp {
      return Round(rxSsid, prof.calls, true, None, None, false, Some(WebTimeoutMessage));
    }
    if web == WaitCanceled {
      return Round(rxSsid, prof.calls, true, None, None, false, Some(TaskCanceledMessage));
    }
    var form := DetectUploadForm(input.page);
    if form.Err? {
      return Round(rxSsid, prof.calls, true, None, None, false, Some(form.error));
    }
    var up := UploadFirmware(fw.name, fw.length, input.uploadPage, input.reply);
    if up.result.Err? {
      return Round(rxSsid, prof.calls, true, up.request, None, false, Some(up.result.error));
    }
    var logged := Some(Truncate(up.result.value, 180));
    if input.pauseCut {
      return Round(rxSsid, prof.calls, true, up.request, logged, false, Some(TaskCanceledMessage));
    }
    var reconnect := false;
    if !IsNullOrWhiteSpace(original) {
      reconnect := true;
      var ignored, _ := Connect(original.value, input.reconnect.request, input.reconnect.polls, input.reconnect.cutInPause);
    }
    r := Round(rxSsid, prof.calls, true, up.request, logged, reconnect, None);
  }

  /** The pass each input would get, in order. */
  function RoundsFor(cfg: BatchConfig, fw: Firmware, original: Option<string>, ins: seq<RoundInput>): (r: seq<Round>)
    ensures |r| == |ins|
  {
    seq(|ins|, j requires 0 <= j < |ins| => RoundOf(cfg, fw, original, ins[j]))
  }

  /** A pass after which the loop goes on. */
  predicate Continues(r: Round) {
    r.error.None?
  }

  /** The number of passes whose upload went through. */
  function UploadedCount(rounds: seq<Round>): nat {
    if rounds == [] then 0
    else UploadedCount(rounds[..|rounds| - 1]) + (if rounds[|rounds| - 1].responseLogged.Some? then 1 else 0)
  }

  lemma UploadedCountSnoc(rounds: seq<Round>, round: Round)
    ensures UploadedCount(rounds + [round]) == UploadedCount(rounds) + (if round.responseLogged.Some? then 1 else 0)
  {
    assert (rounds + [round])[..|rounds|] == rounds;
  }

  /** Recording one pass: it joins the list, and an upload that went through is counted and reported. */
  method Tally(rounds: seq<Round>, ok: nat, okReports: seq<nat>, round: Round)
    returns (rounds': seq<Round>, ok': nat, okReports': seq<nat>)
    requires ok == UploadedCount(rounds) && okReports == CountUp(ok)
    ensures rounds' == rounds + [round]
    ensures ok' == UploadedCount(rounds') && okReports' == CountUp(ok')
  {
    UploadedCountSnoc(rounds, round);
    rounds', ok', okReports' := rounds + [round], ok, okReports;
    if round.responseLogged.Some? {
      ok' := ok + 1;
      okReports' := okReports + [ok'];
    }
  }

  /**
   * The loop of `RunAsync`: the passes are made in order until one throws;
   * each upload that goes through raises `ok` by one and reports it
   * (`okReports` holds the values reported, in order).
   */
  method RunRounds(cfg: BatchConfig, fw: Firmware, original: Option<string>, ins: seq<RoundInput>)
    returns (failed: bool, ok: nat, okReports: seq<nat>, rounds: seq<Round>)
    ensures rounds == ThroughFirstMiss(RoundsFor(cfg, fw, original, ins), Continues, 0)
    ensures failed <==> rounds != [] && rounds[|rounds| - 1].error.Some?
    ensures ok == UploadedCount(rounds)
    ensures okReports == CountUp(ok)
  {
    ghost var all := RoundsFor(cfg, fw, original, ins);
    ok := 0;
    okReports := [];
    rounds := [];
    failed := false;
    var i := 0;
    while i < |ins| && !failed
      invariant 0 <= i <= |ins| && |rounds| == i
      invariant rounds + (if failed then [] else ThroughFirstMiss(all, Continues, i)) == ThroughFirstMiss(all, Continues, 0)
      invariant failed <==> i > 0 && rounds[i - 1].error.Some?
      invariant ok == UploadedCount(rounds)
      invariant okReports == CountUp(ok)
    {
      var round := HandleRound(cfg, fw, original, ins[i]);
      assert round == all[i];
      ThroughFirstMissStep(all, Continues, i, rounds);
      rounds, ok, okReports := Tally(rounds, ok, okReports, round);
      failed := round.error.Some?;
      i := i + 1;
    }
  }

  /**
   * `RunAsync`: a blank or missing firmware path ends the run before any
   * Wi-Fi call; then the connected network is read (`start` answers that
   * `netsh` call) and the passes are made as `RunRounds` states.
   */
  method RunBatch(cfg: BatchConfig, fileExists: string -> bool, fw: Firmware, start: ProcOutcome, ins: seq<RoundInput>)
    returns (end: RunEnd, ok: nat, okReports: seq<nat>, rounds: seq<Round>)
    ensures end.FirmwareMissing? <==> IsBlank(cfg.firmwarePath) || !fileExists(cfg.firmwarePath)
    ensures end.FirmwareMissing? ==> end.message == FirmwareNotFoundMessage
    ensures end.FirmwareMissing? || start.Faulted? ==> rounds == [] && ok == 0 && okReports == []
    ensures !end.FirmwareMissing? && start.Faulted? ==> end == Threw(start.message)
    ensures !end.FirmwareMissing? && start.Exited? ==>
      rounds == ThroughFirstMiss(RoundsFor(cfg, fw, ConnectedSsid(start.stdout), ins), Continues, 0) &&
      (end.Threw? <==> rounds != [] && rounds[|rounds| - 1].error.Some?) &&
      (end.Threw? ==> Some(end.message) == rounds[|rounds| - 1].error)
    ensures ok == UploadedCount(rounds)
    ensures okReports == CountUp(ok)
  {
    if IsBlank(cfg.firmwarePath) || !fileExists(cfg.firmwarePath) {
      return FirmwareMissing(FirmwareNotFoundMessage), 0, [], [];
    }
    if start.Faulted? {
      return Threw(start.message), 0, [], [];
    }
    var originalSsid := ConnectedSsid(start.stdout);
    var failed;
    failed, ok, okReports, rounds := RunRounds(cfg, fw, originalSsid, ins);
    end := if failed then Threw(rounds[|rounds| - 1].error.value) else Stopped;
  }
}
