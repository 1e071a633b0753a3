/**
 * The RX tool's HTTP client: the reachability probe, the firmware upload
 * with its progress reports, the JSON posts, and the clipping of reply
 * texts for the log.
 *
 * Every HTTP exchange is answered by an `HttpAnswer` supplied by the caller;
 * the firmware file is its name, its length and the chunks its stream
 * delivers, one per read.
 */
module RxApi {
  import opened Wrappers
  import opened Strings
  import opened Process
  import opened RxConfig

  // ---------------------------------------------------------------------------
  // Replies and errors
  // ---------------------------------------------------------------------------

  /**
   * The answer to one request: a status line and a body, an exception of the
   * transport, or a cancellation (the token, or the client's 25-second
   * timeout, which .NET reports as a cancelled task).
   */
  datatype HttpAnswer = Replied(status: int, reason: string, body: string) | Failed(message: string) | Canceled

  /** Why an upload or a post did not succeed. */
  datatype ApiError =
    | FileNotFound(path: string)
    | StatusNotSuccess(status: int, reason: string)
    | RequestFailed(message: string)
    | RequestCanceled

  /** The message of the exception that carries the error (the status text is .NET's `EnsureSuccessStatusCode` wording). */
  function ErrorMessage(e: ApiError): string {
    match e
    case FileNotFound(_) => "Firmware not found"
    case StatusNotSuccess(code, reason) =>
      "Response status code does not indicate success: " + IntToString(code) + " (" + reason + ")."
    case RequestFailed(m) => m
    case RequestCanceled => TaskCanceledMessage
  }

  /** `EnsureSuccessStatusCode` applied to the answer, the exception of a failed exchange passed on. */
  function EnsureSuccess(answer: HttpAnswer): Result<(), ApiError> {
    match answer
    case Replied(code, reason, _) => if IsSuccessStatus(code) then Ok(()) else Err(StatusNotSuccess(code, reason))
    case Failed(m) => Err(RequestFailed(m))
    case Canceled => Err(RequestCanceled)
  }

  /** The width reply texts are clipped to in the log. */
  const LogWidth: nat := 180

  /** `RxApi.Trim`: "" for blank text; otherwise `\r` removed, `\n` turned into a space, clipped to 180 characters. */
  function ReplyText(s: string): string {
    if IsBlank(s) then ""
    else Truncate(ReplaceChar(ReplaceAll(s, "\r", ""), '\n', ' '), LogWidth)
  }

  /**
   * The logged reply is one line: it holds no line break, is at most 183
   * characters long, is empty for blank text, and is the text itself when
   * that is a short line already.
   */
  lemma ReplyTextRule(s: string)
    ensures IsBlank(s) ==> ReplyText(s) == ""
    ensures '\r' !in ReplyText(s) && '\n' !in ReplyText(s)
    ensures |ReplyText(s)| <= LogWidth + 3
    ensures !IsBlank(s) && '\r' !in s && '\n' !in s && |s| <= LogWidth ==> ReplyText(s) == s
  {
    if !IsBlank(s) {
      var flat := ReplaceChar(ReplaceAll(s, "\r", ""), '\n', ' ');
      assert '\r' !in flat;
      assert '\n' !in flat;
      var r := ReplyText(s);
      if |flat| > LogWidth {
        forall i | 0 <= i < |r| ensures r[i] != '\r' && r[i] != '\n' {
          if i < LogWidth {
            assert r[i] == r[..LogWidth][i] == flat[i];
          } else {
            assert r[i] == r[LogWidth..][i - LogWidth];
          }
        }
      }
      if '\r' !in s && '\n' !in s && |s| <= LogWidth {
        assert !Contains(s, "\r");
        ReplaceAllWithoutPattern(s, "\r", "");
        assert flat == s;
      }
    }
  }

  /** `PingAsync`: whether the page answered with a success status; an exception counts as no. */
  function Ping(answer: HttpAnswer): (up: bool) {
    answer.Replied? && IsSuccessStatus(answer.status)
  }

  /** The log line of an answered request: its tag, the status code and reason, and the clipped reply. */
  function AnswerLine(tag: string, code: int, reason: string, body: string): string {
    tag + " => " + IntToString(code) + " " + reason + " | " + ReplyText(body)
  }

  /** What is logged of an answer: its line when the request was answered, nothing otherwise. */
  function AnswerLog(tag: string, answer: HttpAnswer): seq<string> {
    match answer
    case Replied(code, reason, body) => [AnswerLine(tag, code, reason, body)]
    case _ => []
  }

  /** A post succeeds exactly when it is answered with a 2xx status, and a reachable page pings exactly then too. */
  lemma EnsureSuccessRule(answer: HttpAnswer)
    ensures EnsureSuccess(answer).Ok? <==> Ping(answer)
    ensures answer.Replied? && !IsSuccessStatus(answer.status) ==>
      EnsureSuccess(answer) == Err(StatusNotSuccess(answer.status, answer.reason))
    ensures answer.Failed? ==> EnsureSuccess(answer) == Err(RequestFailed(answer.message))
    ensures answer.Canceled? ==> EnsureSuccess(answer) == Err(RequestCanceled)
  {
  }

  // ---------------------------------------------------------------------------
  // ProgressStreamContent
  // ---------------------------------------------------------------------------

  /** The bytes of the chunks, in order. */
  function Flatten(chunks: seq<seq<bv8>>): seq<bv8> {
    if chunks == [] then [] else Flatten(chunks[..|chunks| - 1]) + chunks[|chunks| - 1]
  }

  /** A read that returns no bytes: the end of the stream. */
  predicate IsEndOfStream(chunk: seq<bv8>) {
    chunk == []
  }

  /** How many reads deliver bytes before the stream ends (a list that runs out ends it too). */
  function ReadCount(delivered: seq<seq<bv8>>): (n: nat)
    ensures n <= |delivered|
  {
    match FirstWhere(delivered, IsEndOfStream, 0)
    case None => |delivered|
    case Some(k) => k
  }

  /** The reads that deliver bytes. */
  function TakenReads(delivered: seq<seq<bv8>>): seq<seq<bv8>> {
    delivered[..ReadCount(delivered)]
  }

  /** The `(int)` cast of a `long`: the low 32 bits, read as a signed number. */
  function WrapInt32(x: int): (r: int)
    ensures Int32Min <= r <= Int32Max
    ensures Int32Min <= x <= Int32Max ==> r == x
  {
    (x - Int32Min) % 0x1_0000_0000 + Int32Min
  }

  /** The percentage reported after `sent` bytes: `(int)(sent * 100L / total)`. */
  function Percent(sent: nat, total: int): int
    requires total > 0
  {
    WrapInt32(sent * 100 / total)
  }

  /** The reports made after each chunk: one per chunk, only with a progress sink and a positive total. */
  function ChunkReports(chunks: seq<seq<bv8>>, hasProgress: bool, total: int): seq<int> {
    if chunks == [] then []
    else
      ChunkReports(chunks[..|chunks| - 1], hasProgress, total) +
      (if hasProgress && total > 0 then [Percent(|Flatten(chunks)|, total)] else [])
  }

  /** All reports of one serialisation: those after each chunk, then 100 with a progress sink. */
  function Reports(chunks: seq<seq<bv8>>, hasProgress: bool, total: int): seq<int> {
    ChunkReports(chunks, hasProgress, total) + (if hasProgress then [100] else [])
  }

  /**
   * A `ProgressStreamContent`: what its file stream delivers read by read,
   * whether a progress sink is attached, and the total announced.
   */
  datatype ProgressContent = ProgressContent(delivered: seq<seq<bv8>>, hasProgress: bool, totalBytes: int)

  /** `TryComputeLength`: the length is always known, and it is the announced total. */
  function TryComputeLength(c: ProgressContent): (bool, int) {
    (true, c.totalBytes)
  }

  /**
   * `SerializeToStreamAsync`: copy the stream to the target read by read
   * until a read returns nothing, counting the bytes sent and reporting the
   * percentage after each read; then report 100.
   */
  method SerializeToStream(c: ProgressContent) returns (written: seq<bv8>, reports: seq<int>)
    ensures written == Flatten(TakenReads(c.delivered))
    ensures reports == Reports(TakenReads(c.delivered), c.hasProgress, c.totalBytes)
  {
    ghost var stop := IsEndOfStream;
    var sent := 0;
    written := [];
    reports := [];
    var i := 0;
    while i < |c.delivered| && |c.delivered[i]| > 0
      invariant 0 <= i <= |c.delivered|
      invariant FirstWhere(c.delivered, stop, 0) == FirstWhere(c.delivered, stop, i)
      invariant written == Flatten(c.delivered[..i]) && sent == |written|
      invariant reports == ChunkReports(c.delivered[..i], c.hasProgress, c.totalBytes)
    {
      var read := c.delivered[i];
      written := written + read;
      sent := sent + |read|;
      assert c.delivered[..i + 1][..i] == c.delivered[..i];
      if c.hasProgress && c.totalBytes > 0 {
        reports := reports + [Percent(sent, c.totalBytes)];
      }
      i := i + 1;
    }
    assert i == ReadCount(c.delivered);
    if c.hasProgress {
      reports := reports + [100];
    }
  }

  /** Flattening distributes over concatenation. */
  lemma {:induction false} FlattenAppend(a: seq<seq<bv8>>, b: seq<seq<bv8>>)
    ensures Flatten(a + b) == Flatten(a) + Flatten(b)
    decreases |b|
  {
    if b == [] {
      assert a + b == a;
    } else {
      var ab := a + b;
      var init, last := b[..|b| - 1], b[|b| - 1];
      assert ab[..|ab| - 1] == a + init && ab[|ab| - 1] == last;
      FlattenAppend(a, init);
      calc {
        Flatten(ab);
        Flatten(a + init) + last;
        (Flatten(a) + Flatten(init)) + last;
        Flatten(a) + (Flatten(init) + last);
        Flatten(a) + Flatten(b);
      }
    }
  }

  /**
   * The bytes sent after `k` reads are a prefix of those sent after `j >= k`
   * reads, strictly shorter when the last of them delivers bytes.
   */
  lemma SentGrows(chunks: seq<seq<bv8>>, k: nat, j: nat)
    requires k <= j <= |chunks|
    ensures Flatten(chunks[..j]) == Flatten(chunks[..k]) + Flatten(chunks[k..j])
    ensures k < j && chunks[j - 1] != [] ==> |Flatten(chunks[..k])| < |Flatten(chunks[..j])|
  {
    assert chunks[..j] == chunks[..k] + chunks[k..j];
    FlattenAppend(chunks[..k], chunks[k..j]);
    if k < j {
      var mid := chunks[k..j];
      assert mid[|mid| - 1] == chunks[j - 1];
    }
  }

  /** The report after read `k` is the percentage of the bytes sent through that read. */
  lemma {:induction false} ChunkReportsAt(chunks: seq<seq<bv8>>, total: int, k: nat)
    requires total > 0 && k < |chunks|
    ensures |ChunkReports(chunks, true, total)| == |chunks|
    ensures ChunkReports(chunks, true, total)[k] == Percent(|Flatten(chunks[..k + 1])|, total)
    decreases |chunks|
  {
    var init := chunks[..|chunks| - 1];
    if k < |init| {
      ChunkReportsAt(init, total, k);
      assert init[..k + 1] == chunks[..k + 1];
    } else {
      if init != [] {
        ChunkReportsAt(init, total, 0);
      }
      assert chunks[..k + 1] == chunks;
    }
  }

  lemma MulMonotone(a: nat, b: nat, t: nat)
    requires a <= b
    ensures a * t <= b * t
  {
    var d := b - a;
    assert b * t == a * t + d * t;
  }

  lemma DivMonotone(x: nat, y: nat, t: nat)
    requires x <= y && t > 0
    ensures x / t <= y / t
  {
    var qx, qy := x / t, y / t;
    assert qx * t <= x;
    assert y < qy * t + t;
    if qx > qy {
      MulMonotone(qy + 1, qx, t);
      assert false;
    }
  }

  /** The percentage grows with the bytes sent and stays in 0..100 while they do not pass the total. */
  lemma PercentMonotone(x: nat, y: nat, total: int)
    requires x <= y <= total && total > 0
    ensures 0 <= Percent(x, total) <= Percent(y, total) <= 100
    ensures y == total ==> Percent(y, total) == 100
  {
    var a, b, c := x * 100, y * 100, total * 100;
    MulMonotone(x, y, 100);
    MulMonotone(y, total, 100);
    DivMonotone(a, b, total);
    DivMonotone(b, c, total);
    HundredFold(total);
    var p, q := a / total, b / total;
    assert 0 <= p <= q <= 100;
    assert Percent(x, total) == WrapInt32(p) && Percent(y, total) == WrapInt32(q);
  }

  lemma HundredFold(t: nat)
    requires t > 0
    ensures t * 100 / t == 100
  {
    var q := t * 100 / t;
    var r := t * 100 % t;
    assert t * 100 == q * t + r && 0 <= r < t;
    if q < 100 {
      MulMonotone(q + 1, 100, t);
      assert false;
    } else if q > 100 {
      MulMonotone(101, q, t);
      assert false;
    }
  }

  /** The reports after reads `a <= b` are in order and in 0..100 while the bytes do not pass the total. */
  lemma ReportsRiseAt(chunks: seq<seq<bv8>>, total: int, a: nat, b: nat)
    requires total > 0 && |Flatten(chunks)| <= total && a <= b < |chunks|
    ensures var r := ChunkReports(chunks, true, total);
      |r| == |chunks| && 0 <= r[a] <= r[b] <= 100
  {
    ChunkReportsAt(chunks, total, a);
    ChunkReportsAt(chunks, total, b);
    SentGrows(chunks, a + 1, b + 1);
    SentGrows(chunks, b + 1, |chunks|);
    assert chunks[..|chunks|] == chunks;
    PercentMonotone(|Flatten(chunks[..a + 1])|, |Flatten(chunks[..b + 1])|, total);
  }

  /**
   * While the stream delivers no more than the announced total, the
   * reports after each read lie in 0..100 and never decrease.
   */
  lemma ReportsRise(chunks: seq<seq<bv8>>, total: int)
    requires total > 0 && |Flatten(chunks)| <= total
    ensures var r := ChunkReports(chunks, true, total);
      |r| == |chunks| && forall a, b :: 0 <= a <= b < |r| ==> 0 <= r[a] <= r[b] <= 100
  {
    ChunkReportsLength(chunks, true, total);
    var r := ChunkReports(chunks, true, total);
    forall a, b | 0 <= a <= b < |r| ensures 0 <= r[a] <= r[b] <= 100 {
      ReportsRiseAt(chunks, total, a, b);
    }
  }

  /**
   * What the serialisation sends and reports: every read before the end
   * delivers bytes, so the count sent rises with each read; the reports are
   * one per read with a sink and a positive total, none without a sink; the
   * last report is 100 whenever there is a sink; and a file that delivers
   * exactly its announced length reports 100 after its last read too.
   */
  lemma SerializeRule(c: ProgressContent)
    ensures var taken := TakenReads(c.delivered);
      forall k :: 0 <= k < |taken| ==> taken[k] != []
    ensures var taken := TakenReads(c.delivered); var r := Reports(taken, c.hasProgress, c.totalBytes);
      |r| == (if c.hasProgress && c.totalBytes > 0 then |taken| else 0) + (if c.hasProgress then 1 else 0) &&
      (c.hasProgress ==> r[|r| - 1] == 100)
    ensures var taken := TakenReads(c.delivered); var r := ChunkReports(taken, c.hasProgress, c.totalBytes);
      c.hasProgress && c.totalBytes > 0 && taken != [] && |Flatten(taken)| == c.totalBytes ==> r[|r| - 1] == 100
  {
    var taken := TakenReads(c.delivered);
    FirstWhereIsFirst(c.delivered, IsEndOfStream, 0);
    forall k | 0 <= k < |taken| ensures taken[k] != [] {
      assert !IsEndOfStream(c.delivered[k]);
    }
    ChunkReportsLength(taken, c.hasProgress, c.totalBytes);
    if c.hasProgress && c.totalBytes > 0 && taken != [] && |Flatten(taken)| == c.totalBytes {
      ChunkReportsAt(taken, c.totalBytes, |taken| - 1);
      assert taken[..|taken|] == taken;
      PercentMonotone(c.totalBytes, c.totalBytes, c.totalBytes);
    }
  }

  /** One report per read with a sink and a positive total, none otherwise. */
  lemma {:induction false} ChunkReportsLength(chunks: seq<seq<bv8>>, hasProgress: bool, total: int)
    ensures |ChunkReports(chunks, hasProgress, total)| == if hasProgress && total > 0 then |chunks| else 0
    decreases |chunks|
  {
    if chunks != [] {
      ChunkReportsLength(chunks[..|chunks| - 1], hasProgress, total);
    }
  }

  // ---------------------------------------------------------------------------
  // UploadAsync and PostJsonAsync
  // ---------------------------------------------------------------------------

  /** The firmware file when it exists: its name, its length, and what its stream delivers. */
  datatype FirmwareFile = FirmwareFile(name: string, length: nat, delivered: seq<seq<bv8>>)

  /**
   * The multipart POST of the firmware: the URL, the form field and file
   * name, the size header if any, the length announced for the file part,
   * and the bytes streamed into it.
   */
  datatype UploadRequest = UploadRequest(
    url: string,
    field: string,
    fileName: string,
    sizeHeader: Option<(string, string)>,
    contentLength: int,
    body: seq<bv8>)

  /** An upload: the request sent if any, the log lines, the progress reports and the outcome. */
  datatype UploadRun = UploadRun(request: Option<UploadRequest>, log: seq<string>, reports: seq<int>, result: Result<(), ApiError>)

  /** The size header: the configured name with the file length, unless the name is null or blank. */
  function SizeHeader(up: UploadConfig, length: nat): Option<(string, string)> {
    if IsNullOrWhiteSpace(up.fileSizeHeader) then None else Some((up.fileSizeHeader.value, NatToString(length)))
  }

  /** The line logged before the upload starts. */
  function UploadStartLog(up: UploadConfig, fi: FirmwareFile): string {
    "Upload -> " + up.url + " | file=" + fi.name + " (" + NatToString(fi.length) + " bytes)"
  }

  /** `UploadAsync`: what one upload makes of the configuration, the file and the answer. */
  function UploadOutcome(up: UploadConfig, firmwarePath: string, file: Option<FirmwareFile>, hasProgress: bool, answer: HttpAnswer): UploadRun {
    match file
    case None => UploadRun(None, [], [], Err(FileNotFound(firmwarePath)))
    case Some(fi) =>
      var content := ProgressContent(fi.delivered, hasProgress, fi.length);
      var taken := TakenReads(fi.delivered);
      var request := UploadRequest(up.url, up.fileField, fi.name, SizeHeader(up, fi.length), TryComputeLength(content).1, Flatten(taken));
      UploadRun(Some(request), [UploadStartLog(up, fi)] + AnswerLog("/update", answer),
                Reports(taken, hasProgress, fi.length), EnsureSuccess(answer))
  }

  /** `UploadAsync`, the body streamed by `SerializeToStream`. */
  method Upload(up: UploadConfig, firmwarePath: string, file: Option<FirmwareFile>, hasProgress: bool, answer: HttpAnswer)
    returns (run: UploadRun)
    ensures run == UploadOutcome(up, firmwarePath, file, hasProgress, answer)
  {
    if file.None? {
      return UploadRun(None, [], [], Err(FileNotFound(firmwarePath)));
    }
    var fi := file.value;
    var log := [UploadStartLog(up, fi)];
    var content := ProgressContent(fi.delivered, hasProgress, fi.length);
    var body, reports := SerializeToStream(content);
    var (_, length) := TryComputeLength(content);
    var request := UploadRequest(up.url, up.fileField, fi.name, SizeHeader(up, fi.length), length, body);
    log := log + AnswerLog("/update", answer);
    run := UploadRun(Some(request), log, reports, EnsureSuccess(answer));
  }

  /**
   * A missing file fails with "Firmware not found" before any request or
   * log line; the upload succeeds exactly when the file exists and the
   * answer has a 2xx status; and an answered request logs a second line with
   * the clipped reply.
   */
  lemma UploadRule(up: UploadConfig, firmwarePath: string, file: Option<FirmwareFile>, hasProgress: bool, answer: HttpAnswer)
    ensures var run := UploadOutcome(up, firmwarePath, file, hasProgress, answer);
      file.None? ==> (run.request.None? && run.log == [] && run.result == Err(FileNotFound(firmwarePath)) &&
        ErrorMessage(run.result.error) == "Firmware not found")
    ensures var run := UploadOutcome(up, firmwarePath, file, hasProgress, answer);
      run.result.Ok? <==> file.Some? && answer.Replied? && IsSuccessStatus(answer.status)
    ensures var run := UploadOutcome(up, firmwarePath, file, hasProgress, answer);
      file.Some? && answer.Replied? ==>
        |run.log| == 2 && run.log[1] == AnswerLine("/update", answer.status, answer.reason, answer.body)
  {
    if file.Some? {
      var run := UploadOutcome(up, firmwarePath, file, hasProgress, answer);
      assert run.log == [UploadStartLog(up, file.value)] + AnswerLog("/update", answer);
    }
  }

  /** With a progress sink, the last report of an upload is 100. */
  lemma UploadReportsEnd(up: UploadConfig, firmwarePath: string, fi: FirmwareFile, answer: HttpAnswer)
    ensures var r := UploadOutcome(up, firmwarePath, Some(fi), true, answer).reports;
      r != [] && r[|r| - 1] == 100
  {
    var taken := TakenReads(fi.delivered);
    assert UploadOutcome(up, firmwarePath, Some(fi), true, answer).reports == ChunkReports(taken, true, fi.length) + [100];
  }

  /**
   * The request of an existing file goes to the configured URL and field
   * under the file's name, announces the file's length, carries the size
   * header exactly when its name is not blank (with the length in decimal),
   * and streams the bytes the file delivers.
   */
  lemma UploadRequestRule(up: UploadConfig, firmwarePath: string, fi: FirmwareFile, hasProgress: bool, answer: HttpAnswer)
    ensures var request := UploadOutcome(up, firmwarePath, Some(fi), hasProgress, answer).request;
      request.Some? && request.value.url == up.url && request.value.field == up.fileField &&
      request.value.fileName == fi.name && request.value.contentLength == fi.length &&
      request.value.body == Flatten(TakenReads(fi.delivered)) &&
      (request.value.sizeHeader.Some? <==> !IsNullOrWhiteSpace(up.fileSizeHeader)) &&
      (request.value.sizeHeader.Some? ==>
        request.value.sizeHeader.value.0 == up.fileSizeHeader.value &&
        DigitsValue(request.value.sizeHeader.value.1) == fi.length)
  {
    DigitsValueOfNatToString(fi.length);
  }

  /** A JSON post: the URL and the text sent as `application/json`. */
  datatype JsonPost = JsonPost(url: string, json: string)

  /** A post: the request, the log line of its answer, and the outcome. */
  datatype PostRun = PostRun(request: JsonPost, log: seq<string>, result: Result<(), ApiError>)

  /** `PostJsonAsync`: post the text, log the answer under `tag`, then require a 2xx status. */
  function PostJson(url: string, json: string, tag: string, answer: HttpAnswer): PostRun {
    PostRun(JsonPost(url, json), AnswerLog(tag, answer), EnsureSuccess(answer))
  }

  /**
   * The text is posted unchanged to the URL; the post succeeds exactly when
   * it is answered with a 2xx status; an answered post logs its status, its
   * reason and the clipped reply under the tag, an unanswered one logs
   * nothing and passes the exception on.
   */
  lemma PostJsonRule(url: string, json: string, tag: string, answer: HttpAnswer)
    ensures var run := PostJson(url, json, tag, answer);
      run.request == JsonPost(url, json) &&
      (run.result.Ok? <==> answer.Replied? && IsSuccessStatus(answer.status)) &&
      (answer.Replied? ==> run.log == [AnswerLine(tag, answer.status, answer.reason, answer.body)]) &&
      (answer.Failed? ==> run.log == [] && run.result == Err(RequestFailed(answer.message))) &&
      (answer.Canceled? ==> run.log == [] && run.result == Err(RequestCanceled))
  {
  }
}
