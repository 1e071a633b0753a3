/**
 * The Wi-Fi side of the OTA batch flasher, driven through `netsh wlan`:
 * which network the machine is connected to, which networks are visible,
 * installing a profile for the receiver's access point and connecting to it.
 *
 * Every `netsh` call is answered by a `ProcOutcome` supplied by the caller;
 * a `Faulted` answer is the exception the call threw, which the operation
 * passes on. A connection poll loop gets the answers of the polls that start
 * before its deadline or its cancellation.
 */
module NetshWifi {
  import opened Wrappers
  import opened Strings
  import opened Process
  import opened WlanText

  // ---------------------------------------------------------------------------
  // GetConnectedSsidAsync
  // ---------------------------------------------------------------------------

  /**
   * The connected network from the `wlan show interfaces` output: the trimmed
   * group of the first `SSID :` line, unless there is none, it is empty or
   * it holds (ignoring case) "not connected" or its Russian form.
   */
  function ConnectedSsid(output: string): Option<string> {
    match FirstInterfaceValue(output)
    case None => None
    case Some(g) =>
      var ssid := Trim(g);
      if ContainsIgnoreCase(ssid, "not connected") || ContainsIgnoreCase(ssid, "не подключ") || ssid == "" then None
      else Some(ssid)
  }

  /**
   * No `SSID :` line means no network; a network named is the trimmed value
   * of the first such line, is not empty and does not say it is not
   * connected; and a first line whose value passes those tests is named.
   */
  lemma ConnectedSsidRule(output: string)
    ensures (forall k :: 0 <= k < |output| ==> !InterfaceHeadAt(output, k, false)) ==> ConnectedSsid(output).None?
    ensures ConnectedSsid(output).Some? ==>
      var s := ConnectedSsid(output).value;
      s != "" && Trim(s) == s &&
      !ContainsIgnoreCase(s, "not connected") && !ContainsIgnoreCase(s, "не подключ") &&
      exists q :: 0 <= q < |output| && InterfaceHeadAt(output, q, false) &&
        (forall k :: 0 <= k < q ==> !InterfaceHeadAt(output, k, false)) && s == Trim(InterfaceValue(output, q))
    ensures FirstInterfaceValue(output).Some? ==>
      var s := Trim(FirstInterfaceValue(output).value);
      s != "" && !ContainsIgnoreCase(s, "not connected") && !ContainsIgnoreCase(s, "не подключ") ==>
      ConnectedSsid(output) == Some(s)
  {
    FirstInterfaceValueIsFirstLine(output);
    if ConnectedSsid(output).Some? {
      TrimIdempotent(FirstInterfaceValue(output).value);
    }
  }

  // ---------------------------------------------------------------------------
  // ListVisibleSsidsAsync
  // ---------------------------------------------------------------------------

  /** The visible networks from the `wlan show networks mode=bssid` output, as the pattern reads them. */
  function VisibleSsids(output: string): seq<string> {
    VisibleNames(NetworkGroups(output, 0, false, false))
  }

  /**
   * The visible networks when the white space after the colon is kept within
   * its line, so that a network without a name contributes nothing.
   */
  function VisibleSsidsInLine(output: string): seq<string> {
    VisibleNames(NetworkGroups(output, 0, false, true))
  }

  /**
   * The names listed are trimmed, not blank, distinct, and in the order they
   * first appear; every captured group that is not blank once trimmed is
   * listed. This holds for both readings of the pattern.
   */
  lemma VisibleSsidsShape(output: string)
    ensures var r := VisibleSsidsInLine(output);
      NoDuplicates(r) && forall i :: 0 <= i < |r| ==> Trim(r[i]) == r[i] && !IsBlank(r[i])
    ensures var groups := NetworkGroups(output, 0, false, true);
      forall k :: 0 <= k < |groups| && !IsBlank(Trim(groups[k])) ==> Trim(groups[k]) in VisibleSsidsInLine(output)
    ensures var r := VisibleSsids(output);
      NoDuplicates(r) && forall i :: 0 <= i < |r| ==> Trim(r[i]) == r[i] && !IsBlank(r[i])
  {
    VisibleNamesShape(NetworkGroups(output, 0, false, true));
    VisibleNamesShape(NetworkGroups(output, 0, false, false));
  }

  /**
   * A hidden network is listed by `netsh` with an empty name. The pattern's
   * `\s*` after the colon then runs over the line break, and the text of the
   * next line of the listing is taken for a network name.
   */
  lemma HiddenNetworkTakesNextLine()
    ensures VisibleSsids("SSID 1 :\r\n x") == ["x"]
    ensures VisibleSsidsInLine("SSID 1 :\r\n x") == []
  {
    var t := "SSID 1 :\r\n x";
    HiddenGroupsAsWritten(t, false);
    HiddenGroupsInLine(t, false);
    assert Trim("x") == "x" by { TrimOfTrimmed("x"); }
    assert Trim("") == "";
  }

  /** In the corrected reading every listed name comes from one line of the listing. */
  lemma VisibleSsidsInLineStayInLine(output: string, i: nat)
    requires i < |VisibleSsidsInLine(output)|
    ensures '\n' !in VisibleSsidsInLine(output)[i]
  {
    var groups := NetworkGroups(output, 0, false, true);
    VisibleNamesShape(groups);
    var name := VisibleSsidsInLine(output)[i];
    var k :| 0 <= k < |TrimAll(groups)| && TrimAll(groups)[k] == name;
    InLineGroupsStayInLine(output, 0, false, k);
    if '\n' in name {
      var j :| 0 <= j < |name| && name[j] == '\n';
      TrimKeepsOnlyInputChars(groups[k], j);
    }
  }

  // ---------------------------------------------------------------------------
  // The profile document
  // ---------------------------------------------------------------------------

  /** `Esc`: the five `Replace` calls, `&` first so that no entity is escaped twice. */
  function Esc(s: string): string {
    ReplaceAll(ReplaceAll(ReplaceAll(ReplaceAll(ReplaceAll(s, "&", "&amp;"), "<", "&lt;"), ">", "&gt;"), "\"", "&quot;"), "'", "&apos;")
  }

  /** The character the `k`-th `Replace` replaces, and its entity. */
  function ReservedAt(k: nat): char {
    if k == 0 then '&' else if k == 1 then '<' else if k == 2 then '>' else if k == 3 then '"' else '\''
  }

  /** What a character has become after the first `k` `Replace` calls. */
  function EscStage(k: nat, c: char): string {
    if k > 0 && c == '&' then "&amp;"
    else if k > 1 && c == '<' then "&lt;"
    else if k > 2 && c == '>' then "&gt;"
    else if k > 3 && c == '"' then "&quot;"
    else if k > 4 && c == '\'' then "&apos;"
    else [c]
  }

  function EscStageFn(k: nat): char -> string {
    c => EscStage(k, c)
  }

  lemma EscStageStep(k: nat, c: char)
    requires k < 5
    ensures ReplaceAll(EscStage(k, c), [ReservedAt(k)], EscChar(ReservedAt(k))) == EscStage(k + 1, c)
  {
    var x := ReservedAt(k);
    if EscStage(k, c) == [c] {
      if c == x {
        assert ReplaceAll([c], [x], EscChar(x)) == EscChar(x) + ReplaceAll([], [x], EscChar(x));
      } else {
        ReplaceAbsentChar([c], x, EscChar(x));
      }
    } else {
      ReplaceAbsentChar(EscStage(k, c), x, EscChar(x));
    }
  }

  lemma EscStageStepAll(s: string, k: nat, x: char, entity: string)
    requires k < 5 && x == ReservedAt(k) && entity == EscChar(x)
    ensures ReplaceAll(FlatMap(s, EscStageFn(k)), [x], entity) == FlatMap(s, EscStageFn(k + 1))
  {
    forall i | 0 <= i < |s|
      ensures ReplaceAll(EscStageFn(k)(s[i]), [x], entity) == EscStageFn(k + 1)(s[i])
    {
      EscStageStep(k, s[i]);
    }
    ReplaceOverFlatMap(s, EscStageFn(k), x, entity, EscStageFn(k + 1));
  }

  /** After the first `k` of the `Replace` calls, the first `k` reserved characters are entities. */
  lemma EscFirstStages(s: string)
    ensures ReplaceAll(s, "&", "&amp;") == FlatMap(s, EscStageFn(1))
    ensures ReplaceAll(ReplaceAll(s, "&", "&amp;"), "<", "&lt;") == FlatMap(s, EscStageFn(2))
  {
    FlatMapIdentity(s, EscStageFn(0));
    EscStageStepAll(s, 0, '&', "&amp;");
    EscStageStepAll(s, 1, '<', "&lt;");
  }

  lemma EscLastStages(s: string, s2: string)
    requires s2 == FlatMap(s, EscStageFn(2))
    ensures ReplaceAll(ReplaceAll(ReplaceAll(s2, ">", "&gt;"), "\"", "&quot;"), "'", "&apos;") == FlatMap(s, EscStageFn(5))
  {
    EscStageStepAll(s, 2, '>', "&gt;");
    EscStageStepAll(s, 3, '"', "&quot;");
    EscStageStepAll(s, 4, '\'', "&apos;");
  }

  /** The five `Replace` calls in their order write each reserved character as its entity and keep every other. */
  lemma EscIsEscaped(s: string)
    ensures Esc(s) == Escaped(s)
  {
    EscFirstStages(s);
    EscLastStages(s, ReplaceAll(ReplaceAll(s, "&", "&amp;"), "<", "&lt;"));
    FlatMapPointwise(s, EscStageFn(5), EscChar);
  }

  /** Escaping is undone by reading the entities back, and leaves no character that could end an element. */
  lemma EscProperties(s: string)
    ensures Unescape(Esc(s)) == s
    ensures '<' !in Esc(s) && '>' !in Esc(s) && '"' !in Esc(s) && '\'' !in Esc(s)
    ensures (forall i :: 0 <= i < |s| ==> !IsReserved(s[i])) ==> Esc(s) == s
  {
    EscIsEscaped(s);
    EscapedRoundTrip(s);
    EscapedHasNoMarkup(s, '<');
    EscapedHasNoMarkup(s, '>');
    EscapedHasNoMarkup(s, '"');
    EscapedHasNoMarkup(s, '\'');
    if forall i :: 0 <= i < |s| ==> !IsReserved(s[i]) {
      EscapedIdentity(s);
    }
  }

  /** The security of the profile: open for a missing or empty password, WPA2PSK/AES with the escaped password otherwise. */
  function SecurityOf(password: Option<string>): Security {
    if IsNullOrEmpty(password) then Open else Wpa2Psk(Esc(password.value))
  }

  /** The profile `BuildProfileXml` writes for a network and its password. */
  function ProfileFor(ssid: string, password: Option<string>): Profile {
    Profile(Esc(ssid), SecurityOf(password))
  }

  /** The SSID configuration's opening lines. */
  const SsidOpen := "  <SSIDConfig>\r\n" + "    <SSID>\r\n"

  /** The SSID configuration's closing lines and the connection settings. */
  const SsidClose := "    </SSID>\r\n" + "  </SSIDConfig>\r\n" + MsmHead

  /**
   * The document of a profile, line for line the verbatim strings of
   * `BuildProfileXml` with CRLF line ends; its two documents differ only in
   * their security block.
   */
  function ProfileXml(p: Profile): string {
    ProfileHead + "  <name>" + p.name + "</name>\r\n" +
    SsidOpen + "      <name>" + p.name + "</name>\r\n" +
    SsidClose + SecurityXml(p.security) + ProfileTail
  }

  /** `BuildProfileXml`. */
  function BuildProfileXml(ssid: string, password: Option<string>): string {
    ProfileXml(ProfileFor(ssid, password))
  }

  /**
   * The document names the profile in both of its `<name>` elements and holds
   * the profile's security block whole; `SecurityInDocument` says what a
   * document holding that block says about the security.
   */
  lemma ProfileXmlParts(p: Profile)
    ensures Contains(ProfileXml(p), "  <name>" + p.name + "</name>\r\n")
    ensures Contains(ProfileXml(p), "      <name>" + p.name + "</name>\r\n")
    ensures Contains(ProfileXml(p), SecurityXml(p.security))
  {
    DocumentParts(ProfileHead, "  <name>", p.name, "</name>\r\n", SsidOpen,
      "      <name>", "</name>\r\n", SsidClose, SecurityXml(p.security), ProfileTail);
  }

  /**
   * The document of `BuildProfileXml` names the escaped network in both of
   * its `<name>` elements and is open when the password is null or empty.
   */
  lemma ProfileDocument(ssid: string, password: Option<string>)
    ensures Contains(BuildProfileXml(ssid, password), "  <name>" + Esc(ssid) + "</name>\r\n")
    ensures Contains(BuildProfileXml(ssid, password), "      <name>" + Esc(ssid) + "</name>\r\n")
    ensures IsNullOrEmpty(password) ==> Contains(BuildProfileXml(ssid, password), "open</authentication>")
  {
    var p := ProfileFor(ssid, password);
    ProfileXmlParts(p);
    if IsNullOrEmpty(password) {
      SecurityInDocument(ProfileXml(p), Open);
    }
  }

  /** Otherwise it carries the escaped password as its WPA2PSK key. */
  lemma ProfileDocumentKey(ssid: string, password: Option<string>)
    requires !IsNullOrEmpty(password)
    ensures Contains(BuildProfileXml(ssid, password), "WPA2PSK</authentication>")
    ensures Contains(BuildProfileXml(ssid, password), "<keyMaterial>" + Esc(password.value) + "</keyMaterial>")
  {
    var p := ProfileFor(ssid, password);
    ProfileXmlParts(p);
    SecurityInDocument(ProfileXml(p), Wpa2Psk(Esc(password.value)));
  }

  /**
   * The network name reads back from the profile and cannot close its
   * element. The profile is open, with no shared key, exactly when the password is
   * missing or empty; otherwise its key material reads back as the password
   * and cannot close the element around it.
   */
  lemma ProfileRule(ssid: string, password: Option<string>)
    ensures Unescape(ProfileFor(ssid, password).name) == ssid && '<' !in ProfileFor(ssid, password).name
    ensures SecurityOf(password) == Open <==> password.None? || password.value == ""
    ensures SecurityOf(password).Wpa2Psk? ==>
      Unescape(SecurityOf(password).keyMaterial) == password.value && '<' !in SecurityOf(password).keyMaterial
  {
    EscProperties(ssid);
    if password.Some? {
      EscProperties(password.value);
    }
  }

  // ---------------------------------------------------------------------------
  // EnsureProfileAsync
  // ---------------------------------------------------------------------------

  /** A profile call: the profile added is the one in the profile file `netsh` is given. */
  datatype ProfileCall = DeleteProfile(ssid: string) | AddProfile(profile: Profile, user: string)

  function ExitText(who: string, p: ProcOutcome): string
    requires p.Exited?
  {
    "(" + who + ") exit=" + IntToString(p.code) + "\n" + p.stdout + "\n" + p.stderr
  }

  function AddProfileFailure(current: ProcOutcome, all: ProcOutcome): string
    requires current.Exited? && all.Exited?
  {
    "netsh add profile failed.\n" + ExitText("current", current) + "\n" + ExitText("all", all)
  }

  /** What `EnsureProfileAsync` did: the error it threw, if any, and the `netsh` calls it made, in order. */
  datatype ProfileRun = ProfileRun(err: Option<string>, calls: seq<ProfileCall>)

  /**
   * `EnsureProfileAsync`: deletes any profile of that name, then adds the
   * profile for the current user and, only if that exits non-zero, for all
   * users; it fails when both add calls exit non-zero. The answers of the
   * three calls are `delete`, `current` and `all`; a call that throws ends
   * the operation with its exception.
   */
  function EnsureProfile(ssid: string, password: Option<string>, delete: ProcOutcome, current: ProcOutcome, all: ProcOutcome): ProfileRun
  {
    var profile := ProfileFor(ssid, password);
    var first := [DeleteProfile(ssid), AddProfile(profile, "current")];
    if delete.Faulted? then ProfileRun(Some(delete.message), [DeleteProfile(ssid)])
    else if current.Faulted? then ProfileRun(Some(current.message), first)
    else if current.code == 0 then ProfileRun(None, first)
    else if all.Faulted? then ProfileRun(Some(all.message), first + [AddProfile(profile, "all")])
    else if all.code != 0 then ProfileRun(Some(AddProfileFailure(current, all)), first + [AddProfile(profile, "all")])
    else ProfileRun(None, first + [AddProfile(profile, "all")])
  }

  /**
   * The delete always comes first and the add for the current user second;
   * the add for all users is made exactly when the first add exits
   * non-zero; the operation fails exactly when both adds exit non-zero, and
   * a call that throws ends it with that exception.
   */
  lemma EnsureProfileRule(ssid: string, password: Option<string>, delete: ProcOutcome, current: ProcOutcome, all: ProcOutcome)
    ensures var r := EnsureProfile(ssid, password, delete, current, all);
      (delete.Faulted? ==> r.calls == [DeleteProfile(ssid)] && r.err == Some(delete.message)) &&
      (delete.Exited? ==> |r.calls| >= 2 && r.calls[..2] == [DeleteProfile(ssid), AddProfile(ProfileFor(ssid, password), "current")]) &&
      (|r.calls| == 3 <==> delete.Exited? && current.Exited? && current.code != 0) &&
      (|r.calls| == 3 ==> r.calls[2] == AddProfile(ProfileFor(ssid, password), "all"))
    ensures var r := EnsureProfile(ssid, password, delete, current, all);
      (delete.Exited? && current.Exited? && all.Exited? ==>
        (r.err.Some? <==> current.code != 0 && all.code != 0) &&
        (r.err.Some? ==> r.err.value == AddProfileFailure(current, all))) &&
      (delete.Exited? && current.Faulted? ==> r.err == Some(current.message)) &&
      (delete.Exited? && current.Exited? && current.code != 0 && all.Faulted? ==> r.err == Some(all.message))
  {
  }

  // ---------------------------------------------------------------------------
  // ConnectAsync
  // ---------------------------------------------------------------------------

  function ConnectTimeoutMessage(ssid: string): string {
    "Wi-Fi connect timeout: " + ssid
  }

  /** A poll of the connected network ends the wait: it threw, or it shows exactly `ssid`. */
  function EndsWait(ssid: string): ProcOutcome -> bool {
    (p: ProcOutcome) => p.Faulted? || ConnectedSsid(p.stdout) == Some(ssid)
  }

  /**
   * How `ConnectAsync` ends: the connection request throws; or some poll
   * ends the wait (it threw, or it shows `ssid`); or the polls run out, and
   * a cancellation that arrived in the pause after the last one (`cutInPause`)
   * throws from the pause, while otherwise the deadline or a cancellation
   * seen at the loop test gives the connect timeout. None is success.
   */
  function ConnectOutcome(ssid: string, request: ProcOutcome, polls: seq<ProcOutcome>, cutInPause: bool): Option<string> {
    if request.Faulted? then Some(request.message)
    else match FirstWhere(polls, EndsWait(ssid), 0)
      case None => Some(if cutInPause && polls != [] then TaskCanceledMessage else ConnectTimeoutMessage(ssid))
      case Some(k) => if polls[k].Faulted? then Some(polls[k].message) else None
  }

  /**
   * `ConnectAsync`: requests the connection, then polls the interface until
   * it shows `ssid` (compared ordinally), pausing half a second after each
   * poll that does not. `polls` are the poll answers that fit before the
   * deadline or the cancellation; `used` is how many polls were taken.
   */
  method Connect(ssid: string, request: ProcOutcome, polls: seq<ProcOutcome>, cutInPause: bool) returns (err: Option<string>, used: nat)
    ensures err == ConnectOutcome(ssid, request, polls, cutInPause)
    ensures used == if request.Faulted? then 0 else match FirstWhere(polls, EndsWait(ssid), 0)
      case None => |polls|
      case Some(k) => k + 1
  {
    if request.Faulted? {
      return Some(request.message), 0;
    }
    var i := 0;
    while i < |polls|
      invariant 0 <= i <= |polls|
      invariant FirstWhere(polls, EndsWait(ssid), 0) == FirstWhere(polls, EndsWait(ssid), i)
      invariant cutInPause && polls != [] ==> i < |polls|
    {
      var p := polls[i];
      if p.Faulted? {
        return Some(p.message), i + 1;
      }
      var cur := ConnectedSsid(p.stdout);
      if cur == Some(ssid) {
        return None, i + 1;
      }
      if i == |polls| - 1 && cutInPause {
        return Some(TaskCanceledMessage), i + 1;
      }
      i := i + 1;
    }
    return Some(ConnectTimeoutMessage(ssid)), |polls|;
  }

  /** A poll answered and showing a network other than `ssid`, or none. */
  predicate StillWaiting(ssid: string, p: ProcOutcome) {
    p.Exited? && ConnectedSsid(p.stdout) != Some(ssid)
  }

  /** A poll showing `ssid` after polls that all left it waiting is the one the wait stops at. */
  lemma ConnectStopsAt(ssid: string, polls: seq<ProcOutcome>, k: nat)
    requires k < |polls| && polls[k].Exited? && ConnectedSsid(polls[k].stdout) == Some(ssid)
    requires forall j :: 0 <= j < k ==> StillWaiting(ssid, polls[j])
    ensures FirstWhere(polls, EndsWait(ssid), 0) == Some(k)
  {
    assert EndsWait(ssid)(polls[k]);
    forall j | 0 <= j < k ensures !EndsWait(ssid)(polls[j]) {
      assert StillWaiting(ssid, polls[j]);
    }
    FirstWhereAt(polls, EndsWait(ssid), 0, k);
  }

  /**
   * The connection succeeds exactly when the request is answered and some
   * poll shows `ssid`, every earlier poll being answered and showing another
   * network or none.
   */
  lemma ConnectOutcomeRule(ssid: string, request: ProcOutcome, polls: seq<ProcOutcome>, cutInPause: bool)
    ensures ConnectOutcome(ssid, request, polls, cutInPause).None? <==>
      request.Exited? &&
      exists k :: 0 <= k < |polls| && polls[k].Exited? && ConnectedSsid(polls[k].stdout) == Some(ssid) &&
        forall j :: 0 <= j < k ==> StillWaiting(ssid, polls[j])
  {
    if ConnectOutcome(ssid, request, polls, cutInPause).None? {
      FirstWhereIsFirst(polls, EndsWait(ssid), 0);
      var k := FirstWhere(polls, EndsWait(ssid), 0).value;
      assert EndsWait(ssid)(polls[k]);
      forall j | 0 <= j < k ensures StillWaiting(ssid, polls[j]) {
        assert !EndsWait(ssid)(polls[j]);
      }
    } else if request.Exited? {
      forall k | 0 <= k < |polls| && polls[k].Exited? && ConnectedSsid(polls[k].stdout) == Some(ssid)
        ensures !forall j :: 0 <= j < k ==> StillWaiting(ssid, polls[j])
      {
        if forall j :: 0 <= j < k ==> StillWaiting(ssid, polls[j]) {
          ConnectStopsAt(ssid, polls, k);
        }
      }
    }
  }

  /**
   * When every poll leaves it waiting, the operation throws the connect
   * timeout, or the cancellation if one cut the last pause.
   */
  lemma ConnectWaitsOut(ssid: string, request: ProcOutcome, polls: seq<ProcOutcome>, cutInPause: bool)
    requires request.Exited? && forall j :: 0 <= j < |polls| ==> StillWaiting(ssid, polls[j])
    ensures ConnectOutcome(ssid, request, polls, cutInPause) ==
      Some(if cutInPause && polls != [] then TaskCanceledMessage else ConnectTimeoutMessage(ssid))
  {
    FirstWhereIsFirst(polls, EndsWait(ssid), 0);
  }
}
