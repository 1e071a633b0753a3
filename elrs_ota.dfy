/**
 * The HTTP side of the OTA batch flasher, talking to an ExpressLRS receiver
 * at 10.0.0.1: waiting for its web page, finding the firmware upload form on
 * that page and posting the firmware to it.
 *
 * Every HTTP exchange is answered by a value supplied by the caller: a
 * status and a body, or the message of the exception the request threw.
 */
module ElrsOta {
  import opened Wrappers
  import opened Strings
  import opened Process

  /** The receiver's address while it is in Wi-Fi mode. */
  const DeviceBase := "http://10.0.0.1"

  // ---------------------------------------------------------------------------
  // WaitWebAsync
  // ---------------------------------------------------------------------------

  /** One `GET http://10.0.0.1/`: the status it was answered with, or an exception (which the loop swallows). */
  datatype WebPoll = Answered(status: int) | GetFailed

  /** A poll that finds the page up. */
  predicate Responds(p: WebPoll) {
    p.Answered? && IsSuccessStatus(p.status)
  }

  /** How the wait for the page ends: the page answered; twenty seconds passed; or the wait was cancelled in a pause. */
  datatype WebWait = Up | NotUp | WaitCanceled

  /**
   * The end of `WaitWebAsync` over the polls made before twenty seconds
   * passed or a cancellation was seen: up at the first success; otherwise a
   * cancellation that arrived before the pause after the last poll ended
   * (`cutInPause`) throws from that pause, and the wait gives false.
   */
  function WaitWebOutcome(polls: seq<WebPoll>, cutInPause: bool): WebWait {
    if FirstWhere(polls, Responds, 0).Some? then Up
    else if cutInPause && polls != [] then WaitCanceled
    else NotUp
  }

  /** The page is up exactly when some poll got a success status; the wait gives false only when none did. */
  lemma WaitWebRule(polls: seq<WebPoll>, cutInPause: bool)
    ensures WaitWebOutcome(polls, cutInPause) == Up <==> exists k :: 0 <= k < |polls| && Responds(polls[k])
    ensures WaitWebOutcome(polls, cutInPause) == NotUp <==>
      (forall k :: 0 <= k < |polls| ==> !Responds(polls[k])) && !(cutInPause && polls != [])
  {
    FirstWhereIsFirst(polls, Responds, 0);
  }

  /**
   * `WaitWebAsync`: polls the page, pausing half a second after each poll
   * that does not succeed, until one does; `used` is how many polls were made.
   */
  method WaitWeb(polls: seq<WebPoll>, cutInPause: bool) returns (r: WebWait, used: nat)
    ensures r == WaitWebOutcome(polls, cutInPause)
    ensures used == match FirstWhere(polls, Responds, 0)
      case None => |polls|
      case Some(k) => k + 1
  {
    var i := 0;
    while i < |polls|
      invariant 0 <= i <= |polls|
      invariant FirstWhere(polls, Responds, 0) == FirstWhere(polls, Responds, i)
      invariant cutInPause && polls != [] ==> i < |polls|
    {
      var p := polls[i];
      if p.Answered? && IsSuccessStatus(p.status) {
        return Up, i + 1;
      }
      if i == |polls| - 1 && cutInPause {
        return WaitCanceled, i + 1;
      }
      i := i + 1;
    }
    return NotUp, |polls|;
  }

  // ---------------------------------------------------------------------------
  // DetectUploadFormAsync: the two patterns, read the way the regex engine
  // reads them (leftmost start, greedy runs that back off one step at a time)
  // ---------------------------------------------------------------------------

  predicate IsQuote(c: char) {
    c == '"' || c == '\''
  }

  /** Where `[^>]*` from `i` stops: the first `>` at or after `i`, or the end. */
  function TagRunEnd(text: string, i: nat): (e: nat)
    requires i <= |text|
    ensures i <= e <= |text|
    ensures e < |text| ==> text[e] == '>'
    decreases |text| - i
  {
    if i == |text| || text[i] == '>' then i else TagRunEnd(text, i + 1)
  }

  /** Where `[^"']*` from `i` stops: the first quote at or after `i`, or the end. */
  function ValueEnd(text: string, i: nat): (e: nat)
    requires i <= |text|
    ensures i <= e <= |text|
    ensures e < |text| ==> IsQuote(text[e])
    decreases |text| - i
  {
    if i == |text| || IsQuote(text[i]) then i else ValueEnd(text, i + 1)
  }

  /** The characters `ValueEnd` steps over are no quotes. */
  lemma {:induction false} ValueEndSpan(text: string, i: nat, k: nat)
    requires i <= |text| && i <= k < ValueEnd(text, i)
    ensures !IsQuote(text[k])
    decreases |text| - i
  {
    if k > i {
      ValueEndSpan(text, i + 1, k);
    }
  }

  /** `text` holds `word` at `j`, ignoring case. */
  predicate WordAt(text: string, j: nat, word: string) {
    j + |word| <= |text| && EqualsIgnoreCase(text[j..j + |word|], word)
  }

  /** Where the opening quote of `word\s*=\s*["']` at `j` stands, if the text reads so there. */
  function QuoteAfter(text: string, j: nat, word: string): (r: Option<nat>)
    ensures r.Some? ==> j + |word| <= r.value < |text| && IsQuote(text[r.value])
  {
    if !WordAt(text, j, word) then None
    else
      var e := SkipWhite(text, j + |word|);
      if e < |text| && text[e] == '=' then
        var q := SkipWhite(text, e + 1);
        if q < |text| && IsQuote(text[q]) then Some(q) else None
      else None
  }

  /** A slice `text[start..end]`. */
  datatype Span = Span(start: nat, end: nat)

  function Group(text: string, sp: Span): string
    requires sp.start <= sp.end <= |text|
  {
    text[sp.start..sp.end]
  }

  /** A group value as `([^"']+)` takes it: not empty, and no quote in it. */
  predicate QuoteFree(v: string) {
    v != "" && forall k :: 0 <= k < |v| ==> !IsQuote(v[k])
  }

  /**
   * The group of `word\s*=\s*["']([^"']+)["']` at `j`: the longest run of
   * characters that are no quotes after the opening quote, which must be
   * non-empty and followed by a quote.
   */
  function ValueAt(text: string, j: nat, word: string): (r: Option<Span>)
    ensures r.Some? ==> j < r.value.start < r.value.end < |text| && IsQuote(text[r.value.end])
  {
    match QuoteAfter(text, j, word)
    case None => None
    case Some(q) =>
      var v := ValueEnd(text, q + 1);
      if q + 1 < v < |text| then Some(Span(q + 1, v)) else None
  }

  /** A value group of a `word` attribute ends a run of non-quotes after its opening quote: it is no empty and holds no quote. */
  lemma ValueAtShape(text: string, j: nat, word: string)
    requires ValueAt(text, j, word).Some?
    ensures var sp := ValueAt(text, j, word).value;
      IsQuote(text[sp.start - 1]) && QuoteFree(Group(text, sp))
  {
    var sp := ValueAt(text, j, word).value;
    var v := Group(text, sp);
    forall k | 0 <= k < |v| ensures !IsQuote(v[k]) {
      ValueEndSpan(text, sp.start, sp.start + k);
    }
  }

  function HasValueAt(text: string, word: string): nat -> bool {
    (j: nat) => ValueAt(text, j, word).Some?
  }

  /**
   * `<form[^>]*action\s*=\s*["']([^"']+)["']` tried at `p`: the greedy
   * `[^>]*` first runs to the tag's `>`, then backs off to the last place
   * where the action attribute reads completely.
   */
  function FormActionAt(text: string, p: nat): (r: Option<Span>)
    ensures r.Some? ==> r.value.start < r.value.end < |text|
  {
    if !WordAt(text, p, "<form") then None
    else match LastDownFrom(p + 5, HasValueAt(text, "action"), TagRunEnd(text, p + 5))
      case None => None
      case Some(j) => ValueAt(text, j, "action")
  }

  function FormStarts(text: string): nat -> bool {
    (p: nat) => FormActionAt(text, p).Some?
  }

  /** The action group of the leftmost match of the form pattern, if any. */
  function FormAction(text: string): Option<string> {
    match FirstFrom(|text|, FormStarts(text), 0)
    case None => None
    case Some(p) =>
      var sp := FormActionAt(text, p).value;
      Some(Group(text, sp))
  }

  /** Where `type\s*=\s*["']file["']` at `j` ends, if the text reads so there. */
  function FileTypeEnd(text: string, j: nat): (r: Option<nat>)
    ensures r.Some? ==> j < r.value <= |text|
  {
    match QuoteAfter(text, j, "type")
    case None => None
    case Some(q) => if WordAt(text, q + 1, "file") && q + 5 < |text| && IsQuote(text[q + 5]) then Some(q + 6) else None
  }

  /** `[^>]*name\s*=\s*["']([^"']+)["']` from `e`: the last name attribute the greedy run can back off to. */
  function NameAfter(text: string, e: nat): (r: Option<Span>)
    requires e <= |text|
    ensures r.Some? ==> r.value.start < r.value.end < |text|
  {
    match LastDownFrom(e, HasValueAt(text, "name"), TagRunEnd(text, e))
    case None => None
    case Some(j) => ValueAt(text, j, "name")
  }

  function TypeThenName(text: string): nat -> bool {
    (j: nat) => FileTypeEnd(text, j).Some? && NameAfter(text, FileTypeEnd(text, j).value).Some?
  }

  /**
   * `<input[^>]*type\s*=\s*["']file["'][^>]*name\s*=\s*["']([^"']+)["']`
   * tried at `p`: the first `[^>]*` backs off to the last file type that a
   * name attribute follows, the second to the last name attribute after it.
   */
  function FileInputAt(text: string, p: nat): (r: Option<Span>)
    ensures r.Some? ==> r.value.start < r.value.end < |text|
  {
    if !WordAt(text, p, "<input") then None
    else match LastDownFrom(p + 6, TypeThenName(text), TagRunEnd(text, p + 6))
      case None => None
      case Some(j) => NameAfter(text, FileTypeEnd(text, j).value)
  }

  function InputStarts(text: string): nat -> bool {
    (p: nat) => FileInputAt(text, p).Some?
  }

  /** The name group of the leftmost match of the file-input pattern, if any. */
  function FileField(text: string): Option<string> {
    match FirstFrom(|text|, InputStarts(text), 0)
    case None => None
    case Some(p) =>
      Some(Group(text, FileInputAt(text, p).value))
  }

  /** The form pattern matches at its leftmost start, and does not match only when it has none. */
  lemma FormActionFirst(text: string)
    ensures FormAction(text).None? <==> forall p :: 0 <= p < |text| ==> FormActionAt(text, p).None?
    ensures FormAction(text).Some? ==>
      exists p :: 0 <= p < |text| && FormActionAt(text, p).Some? &&
        FormAction(text).value == Group(text, FormActionAt(text, p).value) &&
        forall k :: 0 <= k < p ==> FormActionAt(text, k).None?
  {
    FirstFromIsFirst(|text|, FormStarts(text), 0);
    match FirstFrom(|text|, FormStarts(text), 0)
    case None =>
      forall p | 0 <= p < |text| ensures FormActionAt(text, p).None? {
        assert !FormStarts(text)(p);
      }
    case Some(p) =>
      forall k | 0 <= k < p ensures FormActionAt(text, k).None? {
        assert !FormStarts(text)(k);
      }
  }

  /**
   * A match of the form pattern at `p` is a `<form` tag whose group is the
   * value of the last complete action attribute before the tag's `>`: not
   * empty and without quotes.
   */
  lemma FormActionAtRule(text: string, p: nat)
    requires FormActionAt(text, p).Some?
    ensures WordAt(text, p, "<form") && QuoteFree(Group(text, FormActionAt(text, p).value))
    ensures exists j :: (p + 5 <= j <= TagRunEnd(text, p + 5) && FormActionAt(text, p) == ValueAt(text, j, "action") &&
      forall k :: j < k <= TagRunEnd(text, p + 5) ==> ValueAt(text, k, "action").None?)
  {
    var r := TagRunEnd(text, p + 5);
    LastDownFromIsLast(p + 5, HasValueAt(text, "action"), r);
    var j := LastDownFrom(p + 5, HasValueAt(text, "action"), r).value;
    forall k | j < k <= r ensures ValueAt(text, k, "action").None? {
      assert !HasValueAt(text, "action")(k);
    }
    ValueAtShape(text, j, "action");
  }

  /** The file-input pattern matches at its leftmost start, and does not match only when it has none. */
  lemma FileFieldFirst(text: string)
    ensures FileField(text).None? <==> forall p :: 0 <= p < |text| ==> FileInputAt(text, p).None?
    ensures FileField(text).Some? ==>
      exists p :: 0 <= p < |text| && FileInputAt(text, p).Some? &&
        FileField(text).value == Group(text, FileInputAt(text, p).value) &&
        forall k :: 0 <= k < p ==> FileInputAt(text, k).None?
  {
    FirstFromIsFirst(|text|, InputStarts(text), 0);
    match FirstFrom(|text|, InputStarts(text), 0)
    case None =>
      forall p | 0 <= p < |text| ensures FileInputAt(text, p).None? {
        assert !InputStarts(text)(p);
      }
    case Some(p) =>
      forall k | 0 <= k < p ensures FileInputAt(text, k).None? {
        assert !InputStarts(text)(k);
      }
  }

  /**
   * A match of the file-input pattern at `p` is an `<input` tag with a
   * `type="file"` attribute followed by a complete name attribute, and its
   * group is that name's value: not empty and without quotes.
   */
  lemma FileInputAtRule(text: string, p: nat)
    requires FileInputAt(text, p).Some?
    ensures WordAt(text, p, "<input") && QuoteFree(Group(text, FileInputAt(text, p).value))
    ensures exists j, j2 :: (p + 6 <= j && FileTypeEnd(text, j).Some? && FileTypeEnd(text, j).value <= j2 &&
      FileInputAt(text, p) == ValueAt(text, j2, "name"))
  {
    var j := LastDownFrom(p + 6, TypeThenName(text), TagRunEnd(text, p + 6)).value;
    var e := FileTypeEnd(text, j).value;
    var j2 := LastDownFrom(e, HasValueAt(text, "name"), TagRunEnd(text, e)).value;
    ValueAtShape(text, j2, "name");
  }

  /** The upload form's path on the device and the name of its file field. */
  datatype UploadForm = UploadForm(path: string, field: string)

  /** `action.StartsWith("/") ? action : "/" + action`. */
  function RootedPath(a: string): (r: string)
    ensures StartsWith(r, "/")
    ensures r == a || r == "/" + a
    ensures StartsWith(a, "/") <==> r == a
  {
    if StartsWith(a, "/") then a else "/" + a
  }

  /**
   * `DetectUploadFormAsync` over the page `GetStringAsync` fetched (or the
   * exception it threw): the ExpressLRS defaults `/update` and `upload`,
   * each replaced by the trimmed group of its pattern when that matches, the
   * path always rooted.
   */
  function DetectUploadForm(page: Result<string, string>): Result<UploadForm, string>
  {
    match page
    case Err(m) => Err(m)
    case Ok(html) =>
      var action := match FormAction(html)
        case None => "/update"
        case Some(a) => RootedPath(Trim(a));
      var field := match FileField(html)
        case None => "upload"
        case Some(f) => Trim(f);
      Ok(UploadForm(action, field))
  }

  /**
   * The detected path always starts with `/`: it is `/update` when no form
   * has an action, and otherwise the trimmed action, rooted when it is not
   * already; the field is `upload` when no file input has a name, and
   * otherwise the trimmed name. A page that could not be fetched ends the
   * detection with that exception.
   */
  lemma DetectUploadFormRule(page: Result<string, string>)
    ensures var r := DetectUploadForm(page);
      (page.Err? <==> r.Err?) &&
      (page.Err? ==> r.error == page.error) &&
      (r.Ok? ==> StartsWith(r.value.path, "/"))
    ensures page.Ok? ==> var form := DetectUploadForm(page).value;
      match FormAction(page.value)
      case None => form.path == "/update"
      case Some(a) => form.path == Trim(a) || form.path == "/" + Trim(a)
    ensures page.Ok? ==> var form := DetectUploadForm(page).value;
      match FileField(page.value)
      case None => form.field == "upload"
      case Some(f) => form.field == Trim(f) && (form.field == "" || !IsWhite(form.field[0]))
  {
    if page.Ok? {
      TrimShapeOf(DetectUploadForm(page).value.field, FileField(page.value));
    }
  }

  lemma TrimShapeOf(field: string, f: Option<string>)
    requires f.Some? ==> field == Trim(f.value)
    ensures f.Some? ==> field == "" || !IsWhite(field[0])
  {
    if f.Some? {
      TrimShape(f.value);
    }
  }

  // ---------------------------------------------------------------------------
  // UploadFirmwareAsync
  // ---------------------------------------------------------------------------

  /** The answer to the upload POST: its status and body. */
  datatype HttpReply = HttpReply(status: int, body: string)

  /** The upload POST: its URL, the form field the file goes in, the file's name and the `X-FileSize` header. */
  datatype UploadRequest = UploadRequest(url: string, field: string, fileName: string, fileSize: string)

  function UploadFailure(reply: HttpReply): string {
    "HTTP " + IntToString(reply.status) + ": " + reply.body
  }

  /** What the upload gives for the device's answer: its body on a success status, the status and body thrown otherwise. */
  function ReplyResult(reply: Result<HttpReply, string>): (r: Result<string, string>)
    ensures r.Ok? <==> reply.Ok? && IsSuccessStatus(reply.value.status)
    ensures r.Ok? ==> r.value == reply.value.body
    ensures reply.Ok? && !IsSuccessStatus(reply.value.status) ==> r.error == UploadFailure(reply.value)
    ensures reply.Err? ==> r.error == reply.error
  {
    match reply
    case Err(m) => Err(m)
    case Ok(a) => if IsSuccessStatus(a.status) then Ok(a.body) else Err(UploadFailure(a))
  }

  /** What `UploadFirmwareAsync` did: the POST it sent, if it got that far, and what it returned or threw. */
  datatype UploadRun = UploadRun(request: Option<UploadRequest>, result: Result<string, string>)

  /**
   * `UploadFirmwareAsync`: detects the form on the page it fetches (`page`),
   * then posts the file of `fileLength` bytes named `fileName` to the
   * detected path on the device, in the detected field, with the length as
   * `X-FileSize`.
   */
  function UploadFirmware(fileName: string, fileLength: nat, page: Result<string, string>, reply: Result<HttpReply, string>): UploadRun
  {
    match DetectUploadForm(page)
    case Err(m) => UploadRun(None, Err(m))
    case Ok(form) =>
      var url := DeviceBase + form.path;
      UploadRun(Some(UploadRequest(url, form.field, fileName, IntToString(fileLength))), ReplyResult(reply))
  }

  /**
   * A page that could not be fetched ends the upload before any POST; once
   * the form is detected, the POST goes to `http://10.0.0.1` plus the
   * detected path, in the detected field, with the file's length as
   * `X-FileSize`, and the device's answer decides the result.
   */
  lemma UploadFirmwareRule(fileName: string, fileLength: nat, page: Result<string, string>, reply: Result<HttpReply, string>)
    ensures var r := UploadFirmware(fileName, fileLength, page, reply);
      (page.Err? ==> r.request.None? && r.result == Err(page.error)) &&
      (page.Ok? ==> r.request.Some? && r.result == ReplyResult(reply))
    ensures var r := UploadFirmware(fileName, fileLength, page, reply);
      r.request.Some? ==>
        var q := r.request.value;
        var form := DetectUploadForm(page).value;
        q.url == DeviceBase + form.path && StartsWith(q.url, DeviceBase + "/") &&
        q.field == form.field && q.fileName == fileName && q.fileSize == IntToString(fileLength)
  {
    match page
    case Err(_) =>
    case Ok(html) =>
      DetectUploadFormRule(page);
      var form := DetectUploadForm(page).value;
      var q := UploadRequest(DeviceBase + form.path, form.field, fileName, IntToString(fileLength));
      assert UploadFirmware(fileName, fileLength, page, reply) == UploadRun(Some(q), ReplyResult(reply));
      assert StartsWith(form.path, "/");
      assert (DeviceBase + form.path)[..|DeviceBase| + 1] == DeviceBase + form.path[..1];
  }
}
