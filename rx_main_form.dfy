/**
 * The RX tool's main window without its layout: the selections read from the
 * four lists, the domain request body, the UID guard, and the two button
 * handlers. "Flash" joins the receiver's access point, checks that it answers
 * and uploads the firmware; "Set" does the same join and check and then posts
 * the bind phrase, the frequencies and, when configured, a reboot.
 *
 * The network is a set of answers given to the handlers: the passes of the
 * Wi-Fi wait, the answer of the ping, and one answer per request.
 */
module RxMainForm {
  import opened Wrappers
  import opened Strings
  import opened Process
  import opened RxConfig
  import opened RxApi
  import opened RxWifi
  import opened JsonTemplate

  // ---------------------------------------------------------------------------
  // The texts the handlers log
  // ---------------------------------------------------------------------------

  const NoFirmwareText := "ERROR: прошивка не выбрана"
  const PickFileText := "ERROR: выбери firmware.bin"
  const NoReceiverText := "ERROR: приемник не выбран"
  const NoBindText := "ERROR: Bind Phrase не выбран"
  const NoFrequencyText := "ERROR: Частота не выбрана"
  const BadUidText := "ERROR: UID в конфиге должен быть массивом 6 чисел 0..255"
  const WaitingText := "Жду сеть Wi-Fi по прошивке и подключаюсь..."
  const NoWifiText := "Не дождался Wi-Fi сети / не смог подключиться"
  const CheckingText := "Проверяю доступность http://10.0.0.1 ..."
  const NoAnswerText := "RX не отвечает на http://10.0.0.1 (проверь, что подключение реально к RX)"
  const UploadingText := "Заливаю прошивку (только firmware)..."
  const FlashDoneText := "DONE: Прошивка залита."
  const RebootText := "Reboot..."
  const RebootWaitText := "Жду перезагрузку 15 сек..."
  const SetDoneText := "DONE: Bind Phrase + частота применены."
  const StoppedText := "STOP: отменено."

  /** The line logged before the bind phrase is posted. */
  function BindLine(b: BindPhrase): string {
    "Устанавливаю Bind Phrase: " + b.name + " ..."
  }

  /** The line logged before the frequencies are posted. */
  function FrequencyLine(f: FrequencyPreset): string {
    "Устанавливаю частоту: " + f.name + " ..."
  }

  // ---------------------------------------------------------------------------
  // GetFirmware, GetReceiver, GetBindPhrase, GetFrequency
  // ---------------------------------------------------------------------------

  /** The element a list's selected index points at, or null when the index is outside the list. */
  function ElementAt<T>(xs: seq<T>, idx: int): (r: Option<T>)
    ensures r.Some? <==> 0 <= idx < |xs|
    ensures r.Some? ==> r.value == xs[idx]
  {
    if idx < 0 || idx >= |xs| then None else Some(xs[idx])
  }

  // ---------------------------------------------------------------------------
  // BuildDomainJson
  // ---------------------------------------------------------------------------

  /** The body of the domain request: a copy of the base body with `freq1` and `freq2` set to the preset's values that are present. */
  function DomainBody(base: map<string, JsonValue>, f: FrequencyPreset): map<string, JsonValue> {
    var withFirst := if f.freq1.Some? then base["freq1" := JsonNumber(f.freq1.value)] else base;
    if f.freq2.Some? then withFirst["freq2" := JsonNumber(f.freq2.value)] else withFirst
  }

  /**
   * The body has the base body's keys plus `freq1` and `freq2` exactly when
   * the preset has those values, holds the values under them, and keeps every
   * other entry of the base body.
   */
  lemma DomainBodyRule(base: map<string, JsonValue>, f: FrequencyPreset)
    ensures DomainBody(base, f).Keys ==
      base.Keys + (if f.freq1.Some? then {"freq1"} else {}) + (if f.freq2.Some? then {"freq2"} else {})
    ensures f.freq1.Some? ==> DomainBody(base, f)["freq1"] == JsonNumber(f.freq1.value)
    ensures f.freq2.Some? ==> DomainBody(base, f)["freq2"] == JsonNumber(f.freq2.value)
    ensures forall k :: k in base && (k != "freq1" || f.freq1.None?) && (k != "freq2" || f.freq2.None?) ==>
      DomainBody(base, f)[k] == base[k]
  {
  }

  /** A preset without values posts the base body as it is. */
  lemma DomainBodyOfEmptyPreset(base: map<string, JsonValue>, name: string)
    ensures DomainBody(base, FrequencyPreset(name, None, None)) == base
  {
  }

  /** `BuildDomainJson`: the body as JSON text; `serialize` is `JsonSerializer.Serialize`. */
  function DomainJson(fw: FirmwareConfig, f: FrequencyPreset, serialize: map<string, JsonValue> -> string): string {
    serialize(DomainBody(fw.domainRequest.baseBody, f))
  }

  // ---------------------------------------------------------------------------
  // The UID guard
  // ---------------------------------------------------------------------------

  /** A UID the handler accepts: present, six values, each in 0..255. */
  predicate ValidUid(uid: Option<seq<int>>) {
    uid.Some? && |uid.value| == 6 && UidInRange(uid.value)
  }

  /**
   * The guard lets through exactly the UIDs the bind body builder accepts;
   * past it, building the body fails only for a missing template.
   */
  lemma ValidUidMatchesBuilder(template: Option<string>, uid: Option<seq<int>>)
    ensures !ValidUid(uid) <==> BuildBindJson(template, uid) == Err(UidLength) || BuildBindJson(template, uid) == Err(UidRange)
    ensures ValidUid(uid) ==> (BuildBindJson(template, uid).Ok? <==> template.Some?)
    ensures ValidUid(uid) && template.None? ==> BuildBindJson(template, uid) == Err(TemplateUndefined)
  {
    BuildBindJsonErrors(template, uid);
  }

  // ---------------------------------------------------------------------------
  // What a handler does after its guards
  // ---------------------------------------------------------------------------

  /** How a handler's `try` ends: it runs through, is cancelled, or throws with a message. */
  datatype Outcome = Done | Stopped | Error(message: string)

  /** An exception of a request as the handler's `catch` sees it: cancellation is a stop, anything else an error with its message. */
  function OutcomeOf(e: ApiError): (o: Outcome)
    ensures o == Stopped <==> e == RequestCanceled
  {
    if e.RequestCanceled? then Stopped else Error(ErrorMessage(e))
  }

  /** The last line a handler logs. */
  function EndLine(o: Outcome, doneText: string): string {
    match o
    case Done => doneText
    case Stopped => StoppedText
    case Error(m) => "ERROR: " + m
  }

  /** What `EnsureWifiAndPing` logs: the wait, and the check when a network was joined. */
  function WifiLog(joined: Option<string>): seq<string> {
    [WaitingText] + (if joined.Some? then [CheckingText] else [])
  }

  /** How `EnsureWifiAndPing` throws: no network joined, or no answer from the receiver; none when both went well. */
  function WifiFailure(joined: Option<string>, ping: HttpAnswer): Option<Outcome> {
    if joined.None? then Some(Error(NoWifiText))
    else if !Ping(ping) then Some(Error(NoAnswerText))
    else None
  }

  /** Whether the domain request asks for a reboot: the flag set and a URL that is not blank. */
  predicate RebootWanted(d: DomainRequest) {
    d.needReboot && !IsNullOrWhiteSpace(d.rebootUrl)
  }

  /** The answers to the three posts of "Set", in order. */
  datatype PostAnswers = PostAnswers(bind: HttpAnswer, domain: HttpAnswer, reboot: HttpAnswer)

  /** A stretch of a handler: the lines logged, the posts sent, and how it ended (none while it carries on). */
  datatype Stretch = Stretch(log: seq<string>, posts: seq<JsonPost>, end: Option<Outcome>)

  /** The posts "Set" means to send, in order: bind, domain, and the reboot when it is wanted. */
  function PlannedPosts(fw: FirmwareConfig, bindJson: string, domainJson: string): seq<JsonPost> {
    [JsonPost(fw.bindRequest.url, bindJson), JsonPost(fw.domainRequest.url, domainJson)] +
    (if RebootWanted(fw.domainRequest) then [JsonPost(fw.domainRequest.rebootUrl.value, "")] else [])
  }

  /** The reboot post and the 15-second wait after it; `waitCanceled` is STOP pressed during the wait. */
  function RebootStretch(url: string, answer: HttpAnswer, waitCanceled: bool): Stretch {
    var p := PostJson(url, "", "POST reboot", answer);
    if p.result.Err? then Stretch([RebootText] + p.log, [p.request], Some(OutcomeOf(p.result.error)))
    else Stretch([RebootText] + p.log + [RebootWaitText], [p.request], if waitCanceled then Some(Stopped) else None)
  }

  /** The domain post, then the reboot when it is wanted and the domain post succeeded. */
  function DomainStretch(fw: FirmwareConfig, domainJson: string, answers: PostAnswers, waitCanceled: bool): Stretch {
    var p := PostJson(fw.domainRequest.url, domainJson, "POST domain", answers.domain);
    if p.result.Err? then Stretch(p.log, [p.request], Some(OutcomeOf(p.result.error)))
    else if !RebootWanted(fw.domainRequest) then Stretch(p.log, [p.request], None)
    else
      var r := RebootStretch(fw.domainRequest.rebootUrl.value, answers.reboot, waitCanceled);
      Stretch(p.log + r.log, [p.request] + r.posts, r.end)
  }

  /**
   * The `try` of "Set" after the receiver answered: build the bind body, post
   * it, then the frequencies; each post that fails ends the stretch.
   */
  function ApplyStretch(fw: FirmwareConfig, b: BindPhrase, f: FrequencyPreset, answers: PostAnswers, waitCanceled: bool,
                        serialize: map<string, JsonValue> -> string): Stretch {
    var bind := BuildBindJson(fw.bindRequest.template, b.uid);
    if bind.Err? then Stretch([], [], Some(Error(ErrorText(bind.error))))
    else
      var p := PostJson(fw.bindRequest.url, bind.value, "POST bind", answers.bind);
      if p.result.Err? then Stretch([BindLine(b)] + p.log, [p.request], Some(OutcomeOf(p.result.error)))
      else
        var d := DomainStretch(fw, DomainJson(fw, f, serialize), answers, waitCanceled);
        Stretch([BindLine(b)] + p.log + [FrequencyLine(f)] + d.log, [p.request] + d.posts, d.end)
  }

  /** A whole run of "Set" past its guards: Wi-Fi and ping, the posts, and the closing line. */
  function SetRun(fw: FirmwareConfig, b: BindPhrase, f: FrequencyPreset, joined: Option<string>, ping: HttpAnswer,
                  answers: PostAnswers, waitCanceled: bool, serialize: map<string, JsonValue> -> string): Stretch {
    var fail := WifiFailure(joined, ping);
    var body := if fail.Some? then Stretch(WifiLog(joined), [], fail)
                else var a := ApplyStretch(fw, b, f, answers, waitCanceled, serialize);
                     Stretch(WifiLog(joined) + a.log, a.posts, a.end);
    var o := body.end.GetOr(Done);
    Stretch(body.log + [EndLine(o, SetDoneText)], body.posts, Some(o))
  }

  /**
   * The domain post goes first; the reboot follows exactly when it is wanted
   * and the domain post succeeded; and the stretch carries on to the DONE
   * line exactly when every post it sends succeeds and the wait is not
   * cancelled.
   */
  lemma DomainStretchRule(fw: FirmwareConfig, domainJson: string, answers: PostAnswers, waitCanceled: bool)
    ensures var d := DomainStretch(fw, domainJson, answers, waitCanceled);
      1 <= |d.posts| <= 2 && d.posts[0] == JsonPost(fw.domainRequest.url, domainJson) &&
      (|d.posts| == 2 <==> RebootWanted(fw.domainRequest) && EnsureSuccess(answers.domain).Ok?) &&
      (|d.posts| == 2 ==> d.posts[1] == JsonPost(fw.domainRequest.rebootUrl.value, "")) &&
      (d.end.None? <==> EnsureSuccess(answers.domain).Ok? &&
                        (RebootWanted(fw.domainRequest) ==> EnsureSuccess(answers.reboot).Ok? && !waitCanceled))
  {
  }

  /**
   * "Set" posts nothing unless a network was joined and the receiver
   * answered; what it posts is always a prefix of bind, domain and (when
   * wanted) reboot, the bind body being the one built from the template and
   * the UID and the domain body the serialised `DomainBody`; the reboot is
   * posted only when it is wanted, and a post is sent only after the one
   * before it succeeded.
   */
  lemma SetRunPosts(fw: FirmwareConfig, b: BindPhrase, f: FrequencyPreset, joined: Option<string>, ping: HttpAnswer,
                    answers: PostAnswers, waitCanceled: bool, serialize: map<string, JsonValue> -> string)
    ensures var run := SetRun(fw, b, f, joined, ping, answers, waitCanceled, serialize);
      var bind := BuildBindJson(fw.bindRequest.template, b.uid);
      (run.posts != [] ==> joined.Some? && Ping(ping) && bind.Ok?) &&
      (run.posts != [] ==>
        |run.posts| <= |PlannedPosts(fw, bind.value, DomainJson(fw, f, serialize))| &&
        run.posts == PlannedPosts(fw, bind.value, DomainJson(fw, f, serialize))[..|run.posts|]) &&
      (|run.posts| >= 2 ==> EnsureSuccess(answers.bind).Ok?) &&
      (|run.posts| == 3 ==> RebootWanted(fw.domainRequest) && EnsureSuccess(answers.domain).Ok?)
  {
    var run := SetRun(fw, b, f, joined, ping, answers, waitCanceled, serialize);
    var bind := BuildBindJson(fw.bindRequest.template, b.uid);
    if WifiFailure(joined, ping).None? && bind.Ok? {
      var p := PostJson(fw.bindRequest.url, bind.value, "POST bind", answers.bind);
      var dj := DomainJson(fw, f, serialize);
      var plan := PlannedPosts(fw, bind.value, dj);
      if p.result.Ok? {
        var d := DomainStretch(fw, dj, answers, waitCanceled);
        DomainStretchRule(fw, dj, answers, waitCanceled);
        assert run.posts == [p.request] + d.posts;
        assert plan == [p.request] + [d.posts[0]] + (if RebootWanted(fw.domainRequest) then [JsonPost(fw.domainRequest.rebootUrl.value, "")] else []);
      } else {
        assert run.posts == [p.request] == plan[..1];
      }
    }
  }

  /**
   * "Set" ends with its DONE line exactly when the network was joined, the
   * receiver answered, the body was built, every post it sends succeeds and
   * the reboot wait was not cancelled; its last line always tells how it ended.
   */
  lemma SetRunDone(fw: FirmwareConfig, b: BindPhrase, f: FrequencyPreset, joined: Option<string>, ping: HttpAnswer,
                   answers: PostAnswers, waitCanceled: bool, serialize: map<string, JsonValue> -> string)
    ensures var run := SetRun(fw, b, f, joined, ping, answers, waitCanceled, serialize);
      run.end.Some? && run.log != [] && run.log[|run.log| - 1] == EndLine(run.end.value, SetDoneText) &&
      (run.end == Some(Done) <==>
        joined.Some? && Ping(ping) && BuildBindJson(fw.bindRequest.template, b.uid).Ok? &&
        EnsureSuccess(answers.bind).Ok? && EnsureSuccess(answers.domain).Ok? &&
        (RebootWanted(fw.domainRequest) ==> EnsureSuccess(answers.reboot).Ok? && !waitCanceled))
  {
    var bind := BuildBindJson(fw.bindRequest.template, b.uid);
    if WifiFailure(joined, ping).None? && bind.Ok? {
      DomainStretchRule(fw, DomainJson(fw, f, serialize), answers, waitCanceled);
    }
  }

  /** A template missing from the configuration stops "Set" with .NET's invalid-operation message, before any post. */
  lemma SetRunWithoutTemplate(fw: FirmwareConfig, b: BindPhrase, f: FrequencyPreset, joined: Option<string>, ping: HttpAnswer,
                              answers: PostAnswers, waitCanceled: bool, serialize: map<string, JsonValue> -> string)
    requires ValidUid(b.uid) && fw.bindRequest.template.None? && joined.Some? && Ping(ping)
    ensures var run := SetRun(fw, b, f, joined, ping, answers, waitCanceled, serialize);
      run.posts == [] && run.end == Some(Error(ErrorText(TemplateUndefined)))
  {
    ValidUidMatchesBuilder(fw.bindRequest.template, b.uid);
  }

  // ---------------------------------------------------------------------------
  // Flash
  // ---------------------------------------------------------------------------

  /** `Math.Clamp(v, 0, 100)`. */
  function Clamp(v: int, lo: int, hi: int): (r: int)
    requires lo <= hi
    ensures lo <= r <= hi
    ensures lo <= v <= hi ==> r == v
  {
    if v < lo then lo else if v > hi then hi else v
  }

  /** The values the bar takes for a run of progress reports. */
  function BarValues(reports: seq<int>): seq<int> {
    if reports == [] then []
    else BarValues(reports[..|reports| - 1]) + [Clamp(reports[|reports| - 1], 0, 100)]
  }

  /** The bar shows one value per report, each the report clamped to 0..100. */
  lemma {:induction false} BarValuesRule(reports: seq<int>)
    ensures |BarValues(reports)| == |reports|
    ensures forall i :: 0 <= i < |reports| ==> BarValues(reports)[i] == Clamp(reports[i], 0, 100)
    ensures forall i :: 0 <= i < |reports| ==> 0 <= BarValues(reports)[i] <= 100
  {
    if reports != [] {
      var init := reports[..|reports| - 1];
      BarValuesRule(init);
      forall i | 0 <= i < |reports| ensures BarValues(reports)[i] == Clamp(reports[i], 0, 100) {
        if i < |init| {
          assert reports[i] == init[i];
        }
      }
    }
  }

  /** A run of "Flash" past its guards: the log, the upload sent if any, the progress reports and how it ended. */
  datatype FlashRun = FlashRun(log: seq<string>, upload: Option<UploadRequest>, reports: seq<int>, end: Outcome)

  /** A whole run of "Flash": Wi-Fi and ping, then the upload with a progress sink, and the closing line. */
  function FlashOutcome(fw: FirmwareConfig, path: string, file: Option<FirmwareFile>, joined: Option<string>,
                        ping: HttpAnswer, answer: HttpAnswer): FlashRun {
    var fail := WifiFailure(joined, ping);
    if fail.Some? then FlashRun(WifiLog(joined) + [EndLine(fail.value, FlashDoneText)], None, [], fail.value)
    else
      var u := UploadOutcome(fw.upload, path, file, true, answer);
      var o := if u.result.Ok? then Done else OutcomeOf(u.result.error);
      FlashRun(WifiLog(joined) + [UploadingText] + u.log + [EndLine(o, FlashDoneText)], u.request, u.reports, o)
  }

  /**
   * "Flash" uploads only after a network was joined and the receiver
   * answered, and ends with its DONE line exactly when, past that, the file
   * is there and the upload is answered with a 2xx status.
   */
  lemma FlashOutcomeRule(fw: FirmwareConfig, path: string, file: Option<FirmwareFile>, joined: Option<string>,
                         ping: HttpAnswer, answer: HttpAnswer)
    ensures var run := FlashOutcome(fw, path, file, joined, ping, answer);
      (run.upload.Some? ==> joined.Some? && Ping(ping) && file.Some?) &&
      (run.end == Done <==> joined.Some? && Ping(ping) && file.Some? && answer.Replied? && IsSuccessStatus(answer.status)) &&
      run.log != [] && run.log[|run.log| - 1] == EndLine(run.end, FlashDoneText)
  {
    if WifiFailure(joined, ping).None? {
      UploadRule(fw.upload, path, file, true, answer);
    }
  }

  /** Once the upload has streamed the file, the bar has reached 100. */
  lemma FlashBarReachesFull(fw: FirmwareConfig, path: string, fi: FirmwareFile, joined: Option<string>,
                            ping: HttpAnswer, answer: HttpAnswer)
    requires joined.Some? && Ping(ping)
    ensures var bar := BarValues(FlashOutcome(fw, path, Some(fi), joined, ping, answer).reports);
      bar != [] && bar[|bar| - 1] == 100
  {
    UploadReportsEnd(fw.upload, path, fi, answer);
  }

  // ---------------------------------------------------------------------------
  // The awaited calls of the handlers, in order
  // ---------------------------------------------------------------------------

  /** `EnsureWifiAndPing`: the wait and connect, then the ping; the outcome of the ping is the given answer. */
  method EnsureWifiAndPing(fw: FirmwareConfig, isMatch: string -> bool, polls: seq<WaitPoll>, ping: HttpAnswer)
    returns (lines: seq<string>, fail: Option<Outcome>, calls: seq<NetshCall>)
    ensures lines == WifiLog(WaitOutcome(fw.wifi.matching, isMatch, polls))
    ensures fail == WifiFailure(WaitOutcome(fw.wifi.matching, isMatch, polls), ping)
    ensures calls == WaitCalls(fw.wifi.matching, fw.wifi.password, isMatch, polls)
  {
    lines := [WaitingText];
    var ssid;
    ssid, calls := WaitAndConnect(fw.wifi.matching, fw.wifi.password, isMatch, polls);
    if ssid.None? {
      return lines, Some(Error(NoWifiText)), calls;
    }
    lines := lines + [CheckingText];
    if !Ping(ping) {
      return lines, Some(Error(NoAnswerText)), calls;
    }
    fail := None;
  }

  /** The `try` of `DoFlashOnly`: Wi-Fi and ping, then the upload with a progress sink, and the closing line. */
  method FlashSteps(fw: FirmwareConfig, path: string, file: Option<FirmwareFile>, isMatch: string -> bool,
                    polls: seq<WaitPoll>, ping: HttpAnswer, answer: HttpAnswer)
    returns (run: FlashRun, calls: seq<NetshCall>)
    ensures run == FlashOutcome(fw, path, file, WaitOutcome(fw.wifi.matching, isMatch, polls), ping, answer)
    ensures calls == WaitCalls(fw.wifi.matching, fw.wifi.password, isMatch, polls)
  {
    var lines, fail;
    lines, fail, calls := EnsureWifiAndPing(fw, isMatch, polls, ping);
    if fail.Some? {
      return FlashRun(lines + [EndLine(fail.value, FlashDoneText)], None, [], fail.value), calls;
    }
    lines := lines + [UploadingText];
    var u := Upload(fw.upload, path, file, true, answer);
    lines := lines + u.log;
    var end := if u.result.Ok? then Done else OutcomeOf(u.result.error);
    run := FlashRun(lines + [EndLine(end, FlashDoneText)], u.request, u.reports, end);
  }

  /** The reboot post and the 15-second wait after it. */
  method RebootSteps(url: string, answer: HttpAnswer, waitCanceled: bool) returns (s: Stretch)
    ensures s == RebootStretch(url, answer, waitCanceled)
  {
    var lines := [RebootText];
    var r := PostJson(url, "", "POST reboot", answer);
    lines := lines + r.log;
    if r.result.Err? {
      return Stretch(lines, [r.request], Some(OutcomeOf(r.result.error)));
    }
    lines := lines + [RebootWaitText];
    s := Stretch(lines, [r.request], if waitCanceled then Some(Stopped) else None);
  }

  /** The domain post, then the reboot when it is wanted. */
  method DomainSteps(fw: FirmwareConfig, domainJson: string, answers: PostAnswers, waitCanceled: bool) returns (s: Stretch)
    ensures s == DomainStretch(fw, domainJson, answers, waitCanceled)
  {
    var d := PostJson(fw.domainRequest.url, domainJson, "POST domain", answers.domain);
    if d.result.Err? {
      return Stretch(d.log, [d.request], Some(OutcomeOf(d.result.error)));
    }
    if !RebootWanted(fw.domainRequest) {
      return Stretch(d.log, [d.request], None);
    }
    var r := RebootSteps(fw.domainRequest.rebootUrl.value, answers.reboot, waitCanceled);
    s := Stretch(d.log + r.log, [d.request] + r.posts, r.end);
  }

  /** The bind body, its post, then the frequencies. */
  method ApplySteps(fw: FirmwareConfig, b: BindPhrase, f: FrequencyPreset, answers: PostAnswers, waitCanceled: bool,
                    serialize: map<string, JsonValue> -> string)
    returns (s: Stretch)
    ensures s == ApplyStretch(fw, b, f, answers, waitCanceled, serialize)
  {
    var bindJson := BuildBindJson(fw.bindRequest.template, b.uid);
    if bindJson.Err? {
      return Stretch([], [], Some(Error(ErrorText(bindJson.error))));
    }
    var p := PostJson(fw.bindRequest.url, bindJson.value, "POST bind", answers.bind);
    var lines := [BindLine(b)] + p.log;
    if p.result.Err? {
      return Stretch(lines, [p.request], Some(OutcomeOf(p.result.error)));
    }
    var domainJson := DomainJson(fw, f, serialize);
    lines := lines + [FrequencyLine(f)];
    var d := DomainSteps(fw, domainJson, answers, waitCanceled);
    s := Stretch(lines + d.log, [p.request] + d.posts, d.end);
  }

  /** The `try` of `DoSetBindAndDomain`: Wi-Fi and ping, the posts, and the closing line. */
  method SetSteps(fw: FirmwareConfig, b: BindPhrase, f: FrequencyPreset, isMatch: string -> bool, polls: seq<WaitPoll>,
                  ping: HttpAnswer, answers: PostAnswers, waitCanceled: bool, serialize: map<string, JsonValue> -> string)
    returns (run: Stretch, calls: seq<NetshCall>)
    ensures run == SetRun(fw, b, f, WaitOutcome(fw.wifi.matching, isMatch, polls), ping, answers, waitCanceled, serialize)
    ensures calls == WaitCalls(fw.wifi.matching, fw.wifi.password, isMatch, polls)
  {
    var lines, fail;
    lines, fail, calls := EnsureWifiAndPing(fw, isMatch, polls, ping);
    var posts := [];
    if fail.None? {
      var a := ApplySteps(fw, b, f, answers, waitCanceled, serialize);
      lines := lines + a.log;
      posts := a.posts;
      fail := a.end;
    }
    var end := fail.GetOr(Done);
    run := Stretch(lines + [EndLine(end, SetDoneText)], posts, Some(end));
  }

  /** The progress sink of the upload: the values the bar takes, one per report, each clamped to 0..100. */
  method ShowProgress(reports: seq<int>) returns (values: seq<int>)
    ensures values == BarValues(reports)
  {
    values := [];
    var i := 0;
    while i < |reports|
      invariant 0 <= i <= |reports|
      invariant values == BarValues(reports[..i])
    {
      assert reports[..i + 1][..i] == reports[..i];
      values := values + [Clamp(reports[i], 0, 100)];
      i := i + 1;
    }
    assert reports[..i] == reports;
  }

  // ---------------------------------------------------------------------------
  // The window
  // ---------------------------------------------------------------------------

  /** What the handlers read of the window: the configuration, the selected index of each list, and the firmware path box. */
  datatype Selection = Selection(
    cfg: AppConfig,
    firmwareIndex: int,
    receiverIndex: int,
    bindIndex: int,
    domainIndex: int,
    firmwarePath: string)

  function GetFirmware(s: Selection): Option<FirmwareConfig> {
    ElementAt(s.cfg.firmwares, s.firmwareIndex)
  }

  function GetReceiver(s: Selection): Option<ReceiverConfig> {
    match GetFirmware(s)
    case None => None
    case Some(fw) => ElementAt(fw.receivers, s.receiverIndex)
  }

  function GetBindPhrase(s: Selection, r: ReceiverConfig): Option<BindPhrase> {
    ElementAt(r.bindPhrases, s.bindIndex)
  }

  function GetFrequency(s: Selection, r: ReceiverConfig): Option<FrequencyPreset> {
    ElementAt(r.frequencies, s.domainIndex)
  }

  /**
   * Each getter gives null exactly when its index is outside its list (a
   * receiver also needs a firmware), and otherwise the element at the index.
   */
  lemma GettersRule(s: Selection, r: ReceiverConfig)
    ensures GetFirmware(s).Some? <==> 0 <= s.firmwareIndex < |s.cfg.firmwares|
    ensures GetFirmware(s).Some? ==> GetFirmware(s).value == s.cfg.firmwares[s.firmwareIndex]
    ensures GetReceiver(s).Some? <==> GetFirmware(s).Some? && 0 <= s.receiverIndex < |GetFirmware(s).value.receivers|
    ensures GetReceiver(s).Some? ==> GetReceiver(s).value == GetFirmware(s).value.receivers[s.receiverIndex]
    ensures GetBindPhrase(s, r).Some? <==> 0 <= s.bindIndex < |r.bindPhrases|
    ensures GetBindPhrase(s, r).Some? ==> GetBindPhrase(s, r).value == r.bindPhrases[s.bindIndex]
    ensures GetFrequency(s, r).Some? <==> 0 <= s.domainIndex < |r.frequencies|
    ensures GetFrequency(s, r).Some? ==> GetFrequency(s, r).value == r.frequencies[s.domainIndex]
  {
  }

  /** The first index of a list, or -1 for an empty one (a combo box whose items were cleared). */
  function FirstIndex(count: nat): int {
    if count > 0 then 0 else -1
  }

  /**
   * The selection after the configuration is loaded: the first firmware,
   * which fills the receivers and selects the first, which fills the bind
   * phrases and frequencies and selects the first of each; the path box is
   * empty.
   */
  function LoadedSelection(cfg: AppConfig): Selection {
    if cfg.firmwares == [] then Selection(cfg, -1, -1, -1, -1, "")
    else
      var fw := cfg.firmwares[0];
      if fw.receivers == [] then Selection(cfg, 0, -1, -1, -1, "")
      else
        var r := fw.receivers[0];
        Selection(cfg, 0, 0, FirstIndex(|r.bindPhrases|), FirstIndex(|r.frequencies|), "")
  }

  /** After loading, every list whose parent has entries shows its first entry. */
  lemma LoadedSelectionRule(cfg: AppConfig)
    ensures var s := LoadedSelection(cfg);
      (GetFirmware(s).Some? <==> cfg.firmwares != []) &&
      (cfg.firmwares != [] ==>
        GetFirmware(s) == Some(cfg.firmwares[0]) && (GetReceiver(s).Some? <==> cfg.firmwares[0].receivers != [])) &&
      (GetReceiver(s).Some? ==>
        var r := GetReceiver(s).value;
        r == cfg.firmwares[0].receivers[0] &&
        (GetBindPhrase(s, r).Some? <==> r.bindPhrases != []) &&
        (GetFrequency(s, r).Some? <==> r.frequencies != []) &&
        (r.bindPhrases != [] ==> GetBindPhrase(s, r) == Some(r.bindPhrases[0])) &&
        (r.frequencies != [] ==> GetFrequency(s, r) == Some(r.frequencies[0])))
  {
  }

  /** The guards of "Flash": a firmware selected, then a path that is not blank and names a file. */
  function FlashGuard(s: Selection, fileExists: bool): Result<FirmwareConfig, string> {
    if GetFirmware(s).None? then Err(NoFirmwareText)
    else if IsBlank(s.firmwarePath) || !fileExists then Err(PickFileText)
    else Ok(GetFirmware(s).value)
  }

  /** The guards of "Set", in order: firmware, receiver, bind phrase, frequency, and the UID. */
  function SetGuard(s: Selection): Result<(FirmwareConfig, BindPhrase, FrequencyPreset), string> {
    if GetFirmware(s).None? then Err(NoFirmwareText)
    else if GetReceiver(s).None? then Err(NoReceiverText)
    else
      var r := GetReceiver(s).value;
      if GetBindPhrase(s, r).None? then Err(NoBindText)
      else if GetFrequency(s, r).None? then Err(NoFrequencyText)
      else if !ValidUid(GetBindPhrase(s, r).value.uid) then Err(BadUidText)
      else Ok((GetFirmware(s).value, GetBindPhrase(s, r).value, GetFrequency(s, r).value))
  }

  /**
   * "Flash" refuses, before anything starts, a missing firmware and a path
   * that is blank or names no file; it accepts every other case with the
   * selected firmware.
   */
  lemma FlashGuardRule(s: Selection, fileExists: bool)
    ensures FlashGuard(s, fileExists).Ok? <==> GetFirmware(s).Some? && !IsBlank(s.firmwarePath) && fileExists
    ensures FlashGuard(s, fileExists).Ok? ==> FlashGuard(s, fileExists).value == s.cfg.firmwares[s.firmwareIndex]
    ensures GetFirmware(s).None? ==> FlashGuard(s, fileExists) == Err(NoFirmwareText)
    ensures GetFirmware(s).Some? && (IsBlank(s.firmwarePath) || !fileExists) ==> FlashGuard(s, fileExists) == Err(PickFileText)
  {
  }

  /**
   * "Set" checks the selections in order and refuses a UID that is null, not
   * six values, or has a value outside 0..255 once the four are made; what
   * it accepts is the four selected entries with a valid UID.
   */
  lemma SetGuardRule(s: Selection)
    ensures SetGuard(s).Ok? ==> ValidUid(SetGuard(s).value.1.uid)
    ensures SetGuard(s).Ok? <==>
      (GetReceiver(s).Some? && GetBindPhrase(s, GetReceiver(s).value).Some? &&
       GetFrequency(s, GetReceiver(s).value).Some? && ValidUid(GetBindPhrase(s, GetReceiver(s).value).value.uid))
    ensures SetGuard(s).Ok? ==>
      var fw := s.cfg.firmwares[s.firmwareIndex];
      SetGuard(s).value.0 == fw &&
      SetGuard(s).value.1 == fw.receivers[s.receiverIndex].bindPhrases[s.bindIndex] &&
      SetGuard(s).value.2 == fw.receivers[s.receiverIndex].frequencies[s.domainIndex]
    ensures GetReceiver(s).Some? ==>
      var r := GetReceiver(s).value;
      (GetBindPhrase(s, r).Some? && GetFrequency(s, r).Some? && !ValidUid(GetBindPhrase(s, r).value.uid) ==>
        SetGuard(s) == Err(BadUidText))
    ensures GetFirmware(s).Some? && GetReceiver(s).None? ==> SetGuard(s) == Err(NoReceiverText)
  {
  }

  /**
   * The window's state: its selection, whether a run holds the cancellation
   * source (the buttons follow it), the progress bar with every value it
   * has shown, and the log.
   */
  class MainForm {
    var selection: Selection
    var busy: bool
    var progress: int
    var shown: seq<int>
    var log: seq<string>

    /** The window once the configuration has been loaded. */
    constructor(cfg: AppConfig)
      ensures selection == LoadedSelection(cfg) && !busy && progress == 0 && shown == [] && log == []
    {
      selection := LoadedSelection(cfg);
      busy := false;
      progress := 0;
      shown := [];
      log := [];
    }

    /**
     * `DoFlashOnly`. `file` is the firmware file the path names, if any; the
     * passes of the Wi-Fi wait, the ping and the upload answer stand for the
     * network. A refused run only logs its reason and touches nothing else.
     */
    method DoFlashOnly(file: Option<FirmwareFile>, isMatch: string -> bool, polls: seq<WaitPoll>,
                       ping: HttpAnswer, answer: HttpAnswer)
      returns (calls: seq<NetshCall>, upload: Option<UploadRequest>)
      modifies this
      ensures selection == old(selection)
      ensures FlashGuard(selection, file.Some?).Err? ==>
        log == old(log) + [FlashGuard(selection, file.Some?).error] && calls == [] && upload.None? &&
        busy == old(busy) && progress == old(progress) && shown == old(shown)
      ensures FlashGuard(selection, file.Some?).Ok? ==>
        var fw := FlashGuard(selection, file.Some?).value;
        var run := FlashOutcome(fw, selection.firmwarePath, file, WaitOutcome(fw.wifi.matching, isMatch, polls), ping, answer);
        log == old(log) + run.log && upload == run.upload &&
        calls == WaitCalls(fw.wifi.matching, fw.wifi.password, isMatch, polls) &&
        shown == old(shown) + [0] + BarValues(run.reports) + [0] &&
        !busy && progress == 0
    {
      var guard := FlashGuard(selection, file.Some?);
      if guard.Err? {
        log := log + [guard.error];
        return [], None;
      }
      calls, upload := RunFlash(guard.value, selection.firmwarePath, file, isMatch, polls, ping, answer);
    }

    /**
     * The accepted part of `DoFlashOnly`: hold the buttons and set the bar to
     * 0, run `FlashOutcome` with the bar following the upload's reports, and
     * in the `finally` give the buttons back and set the bar to 0 again.
     */
    method RunFlash(fw: FirmwareConfig, path: string, file: Option<FirmwareFile>, isMatch: string -> bool,
                    polls: seq<WaitPoll>, ping: HttpAnswer, answer: HttpAnswer)
      returns (calls: seq<NetshCall>, upload: Option<UploadRequest>)
      modifies this
      ensures selection == old(selection)
      ensures var run := FlashOutcome(fw, path, file, WaitOutcome(fw.wifi.matching, isMatch, polls), ping, answer);
        log == old(log) + run.log && upload == run.upload &&
        calls == WaitCalls(fw.wifi.matching, fw.wifi.password, isMatch, polls) &&
        shown == old(shown) + [0] + BarValues(run.reports) + [0] &&
        !busy && progress == 0
    {
      busy, progress := true, 0;
      var run;
      run, calls := FlashSteps(fw, path, file, isMatch, polls, ping, answer);
      var bar := ShowProgress(run.reports);
      log, upload := log + run.log, run.upload;
      busy, progress, shown := false, 0, shown + [0] + bar + [0];
    }

    /**
     * `DoSetBindAndDomain`. The passes of the Wi-Fi wait, the ping, the three
     * post answers and a STOP during the reboot wait stand for the network
     * and the user; `serialize` is `JsonSerializer.Serialize`. A refused run
     * only logs its reason and touches no network. The progress bar is not
     * touched.
     */
    method DoSetBindAndDomain(isMatch: string -> bool, polls: seq<WaitPoll>, ping: HttpAnswer, answers: PostAnswers,
                              waitCanceled: bool, serialize: map<string, JsonValue> -> string)
      returns (calls: seq<NetshCall>, posts: seq<JsonPost>)
      modifies this
      ensures selection == old(selection) && progress == old(progress) && shown == old(shown)
      ensures SetGuard(selection).Err? ==>
        log == old(log) + [SetGuard(selection).error] && calls == [] && posts == [] && busy == old(busy)
      ensures SetGuard(selection).Ok? ==>
        var (fw, b, f) := SetGuard(selection).value;
        var run := SetRun(fw, b, f, WaitOutcome(fw.wifi.matching, isMatch, polls), ping, answers, waitCanceled, serialize);
        log == old(log) + run.log && posts == run.posts &&
        calls == WaitCalls(fw.wifi.matching, fw.wifi.password, isMatch, polls) && !busy
    {
      var guard := SetGuard(selection);
      if guard.Err? {
        log := log + [guard.error];
        return [], [];
      }
      var (fw, b, f) := guard.value;
      calls, posts := RunSet(fw, b, f, isMatch, polls, ping, answers, waitCanceled, serialize);
    }

    /** The accepted part of `DoSetBindAndDomain`: hold the buttons, run `SetRun`, and in the `finally` give them back. */
    method RunSet(fw: FirmwareConfig, b: BindPhrase, f: FrequencyPreset, isMatch: string -> bool, polls: seq<WaitPoll>,
                  ping: HttpAnswer, answers: PostAnswers, waitCanceled: bool, serialize: map<string, JsonValue> -> string)
      returns (calls: seq<NetshCall>, posts: seq<JsonPost>)
      modifies this
      ensures selection == old(selection) && progress == old(progress) && shown == old(shown)
      ensures var run := SetRun(fw, b, f, WaitOutcome(fw.wifi.matching, isMatch, polls), ping, answers, waitCanceled, serialize);
        log == old(log) + run.log && posts == run.posts &&
        calls == WaitCalls(fw.wifi.matching, fw.wifi.password, isMatch, polls) && !busy
    {
      busy := true;
      var run;
      run, calls := SetSteps(fw, b, f, isMatch, polls, ping, answers, waitCanceled, serialize);
      log, posts, busy := log + run.log, run.posts, false;
    }
  }
}
