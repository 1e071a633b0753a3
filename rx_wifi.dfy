/**
 * The RX tool's Wi-Fi helper: choosing the receiver's access point among
 * the visible networks, putting a WLAN profile in place, joining it and
 * confirming the join, all through `netsh wlan`.
 *
 * Every `netsh` run is a text answer given as input (standard output, with
 * standard error appended when it is not blank); the commands issued are
 * recorded as `NetshCall` values.
 */
module RxWifi {
  import opened Wrappers
  import opened Strings
  import opened WlanText
  import opened RxConfig

  // ---------------------------------------------------------------------------
  // PickSsid
  // ---------------------------------------------------------------------------

  /** The match mode, null read as exact, trimmed and in lower case. */
  function MatchMode(m: WifiMatch): string {
    Fold(Trim(m.mode.GetOr("exact")))
  }

  /** The name or pattern to match, null read as empty, trimmed. */
  function MatchValue(m: WifiMatch): string {
    Trim(m.value.GetOr(""))
  }

  /** `visible.Find(p)`: the first element satisfying `p`, or null. */
  function Find(visible: seq<string>, p: string -> bool): Option<string> {
    match FirstWhere(visible, p, 0)
    case None => None
    case Some(k) => Some(visible[k])
  }

  function SameName(val: string): string -> bool {
    (s: string) => EqualsIgnoreCase(s, val)
  }

  function NamePrefix(val: string): string -> bool {
    (s: string) => StartsWithIgnoreCase(s, val)
  }

  /**
   * `PickSsid`. `isMatch` stands for `IsMatch` of the regular expression
   * built from the value, ignoring case; it is used only in the regex mode.
   */
  function PickSsid(visible: seq<string>, m: WifiMatch, isMatch: string -> bool): Option<string> {
    var mode := MatchMode(m);
    var val := MatchValue(m);
    if IsBlank(val) then None
    else if mode == "exact" then Find(visible, SameName(val))
    else if mode == "startswith" then Find(visible, NamePrefix(val))
    else if mode == "regex" then Find(visible, isMatch)
    else Find(visible, SameName(val))
  }

  /** `r` is the first element of `xs` satisfying `p`, and is null exactly when none does. */
  predicate FirstSatisfying(xs: seq<string>, p: string -> bool, r: Option<string>) {
    (r.None? <==> forall k :: 0 <= k < |xs| ==> !p(xs[k])) &&
    (r.Some? ==> exists k :: 0 <= k < |xs| && xs[k] == r.value && p(xs[k]) && forall j :: 0 <= j < k ==> !p(xs[j]))
  }

  lemma FindIsFirst(visible: seq<string>, p: string -> bool)
    ensures FirstSatisfying(visible, p, Find(visible, p))
  {
    FirstWhereIsFirst(visible, p, 0);
  }

  /**
   * A blank value picks nothing. Otherwise the pick is the first visible
   * name equal to the value ignoring case in the exact mode and in any mode
   * not known, the first starting with it ignoring case in the startswith
   * mode, and the first the pattern matches in the regex mode; a name
   * picked is always one of the visible names.
   */
  lemma PickSsidRule(visible: seq<string>, m: WifiMatch, isMatch: string -> bool)
    ensures IsBlank(MatchValue(m)) ==> PickSsid(visible, m, isMatch).None?
    ensures PickSsid(visible, m, isMatch).Some? ==> PickSsid(visible, m, isMatch).value in visible
    ensures !IsBlank(MatchValue(m)) && MatchMode(m) != "startswith" && MatchMode(m) != "regex" ==>
      FirstSatisfying(visible, (s: string) => EqualsIgnoreCase(s, MatchValue(m)), PickSsid(visible, m, isMatch))
    ensures !IsBlank(MatchValue(m)) && MatchMode(m) == "startswith" ==>
      FirstSatisfying(visible, (s: string) => StartsWithIgnoreCase(s, MatchValue(m)), PickSsid(visible, m, isMatch))
    ensures !IsBlank(MatchValue(m)) && MatchMode(m) == "regex" ==>
      FirstSatisfying(visible, isMatch, PickSsid(visible, m, isMatch))
  {
    var val := MatchValue(m);
    FindIsFirst(visible, SameName(val));
    FindIsFirst(visible, NamePrefix(val));
    FindIsFirst(visible, isMatch);
    assert SameName(val) == (s: string) => EqualsIgnoreCase(s, val);
    assert NamePrefix(val) == (s: string) => StartsWithIgnoreCase(s, val);
  }

  /** A mode written in any case and with surrounding white space selects as the exact mode does. */
  lemma ExactModeIgnoresCase(visible: seq<string>, ssid: string, isMatch: string -> bool)
    ensures PickSsid(visible, WifiMatch(Some(" Exact "), Some(ssid)), isMatch) ==
            PickSsid(visible, WifiMatch(None, Some(ssid)), isMatch)
  {
    var t := " Exact ";
    assert SkipWhite(t, 1) == 1 && SkipWhite(t, 0) == 1;
    assert BackWhite(t, 6) == 6 && BackWhite(t, 7) == 6;
    assert Trim(t) == "Exact";
    assert Fold("Exact") == "exact";
    assert Trim("exact") == "exact" by { TrimOfTrimmed("exact"); }
    assert Fold("exact") == "exact";
  }

  // ---------------------------------------------------------------------------
  // GetVisibleSsids
  // ---------------------------------------------------------------------------

  /**
   * The visible networks from the `wlan show networks mode=bssid` output as
   * the pattern `^\s*SSID\s+\d+\s*:\s*(.*)\s*$` reads them, ignoring case:
   * a hidden network's `\s*` runs on into the next line.
   */
  function VisibleSsids(output: string): seq<string> {
    VisibleNames(NetworkGroups(output, 0, true, false))
  }

  /** The visible networks with the white space after the colon kept within its line. */
  function VisibleSsidsInLine(output: string): seq<string> {
    VisibleNames(NetworkGroups(output, 0, true, true))
  }

  /**
   * The loop of `GetVisibleSsids`: each captured group, trimmed, is added to
   * the list unless it is blank or already there.
   */
  method CollectNames(groups: seq<string>) returns (list: seq<string>)
    ensures list == VisibleNames(groups)
  {
    list := [];
    var i := 0;
    while i < |groups|
      invariant 0 <= i <= |groups|
      invariant list == VisibleNames(groups[..i])
    {
      var name := Trim(groups[i]);
      VisibleNamesStep(groups, i, list);
      if !IsBlank(name) && name !in list {
        list := list + [name];
      }
      i := i + 1;
    }
    assert groups[..|groups|] == groups;
  }

  /** The names of the groups before `i`, extended by group `i`. */
  lemma VisibleNamesStep(groups: seq<string>, i: nat, list: seq<string>)
    requires i < |groups| && list == VisibleNames(groups[..i])
    ensures var name := Trim(groups[i]);
      VisibleNames(groups[..i + 1]) == if !IsBlank(name) && name !in list then list + [name] else list
  {
    var pre, g := groups[..i], groups[i];
    assert groups[..i + 1] == pre + [g];
    VisibleNamesSnoc(pre, g);
  }

  /** `GetVisibleSsids`: the names the pattern captures in the listing. */
  method GetVisibleSsids(output: string) returns (list: seq<string>)
    ensures list == VisibleSsids(output)
  {
    list := CollectNames(NetworkGroups(output, 0, true, false));
  }

  /**
   * The names listed are trimmed, not blank and distinct, and every
   * captured group that is not blank is among them.
   */
  lemma VisibleSsidsShape(output: string)
    ensures var r := VisibleSsids(output);
      NoDuplicates(r) && forall i :: 0 <= i < |r| ==> Trim(r[i]) == r[i] && !IsBlank(r[i])
    ensures var groups := NetworkGroups(output, 0, true, false);
      forall k :: 0 <= k < |groups| && !IsBlank(Trim(groups[k])) ==> Trim(groups[k]) in VisibleSsids(output)
  {
    VisibleNamesShape(NetworkGroups(output, 0, true, false));
  }

  /**
   * Read within its line, the listing gives names that are trimmed, not
   * blank, distinct and each from one line, and every non-blank group is among them.
   */
  lemma VisibleSsidsInLineShape(output: string)
    ensures var r := VisibleSsidsInLine(output);
      NoDuplicates(r) && forall i :: 0 <= i < |r| ==> Trim(r[i]) == r[i] && !IsBlank(r[i])
    ensures var groups := NetworkGroups(output, 0, true, true);
      forall k :: 0 <= k < |groups| && !IsBlank(Trim(groups[k])) ==> Trim(groups[k]) in VisibleSsidsInLine(output)
    ensures forall i :: 0 <= i < |VisibleSsidsInLine(output)| ==> '\n' !in VisibleSsidsInLine(output)[i]
  {
    var groups := NetworkGroups(output, 0, true, true);
    VisibleNamesShape(groups);
    forall i | 0 <= i < |VisibleSsidsInLine(output)| ensures '\n' !in VisibleSsidsInLine(output)[i] {
      var name := VisibleSsidsInLine(output)[i];
      var k :| 0 <= k < |TrimAll(groups)| && TrimAll(groups)[k] == name;
      InLineGroupsStayInLine(output, 0, true, k);
      if '\n' in name {
        var j :| 0 <= j < |name| && name[j] == '\n';
        TrimKeepsOnlyInputChars(groups[k], j);
      }
    }
  }

  /**
   * A hidden network, listed with an empty name, makes the pattern report
   * the text of the following line as a network; kept within its line, it
   * reports nothing.
   */
  lemma HiddenNetworkListedAsWritten()
    ensures VisibleSsids("SSID 1 :\r\n x") == ["x"]
    ensures VisibleSsidsInLine("SSID 1 :\r\n x") == []
  {
    var t := "SSID 1 :\r\n x";
    HiddenGroupsAsWritten(t, true);
    HiddenGroupsInLine(t, true);
    assert Trim("x") == "x" by { TrimOfTrimmed("x"); }
    assert Trim("") == "";
  }

  // ---------------------------------------------------------------------------
  // IsConnectedToSsid
  // ---------------------------------------------------------------------------

  /**
   * `IsConnectedToSsid`: the `wlan show interfaces` output has a line
   * `SSID : {ssid}` matched ignoring case, the name taken literally.
   */
  predicate IsConnectedToSsid(interfaces: string, ssid: string) {
    ShowsSsid(interfaces, ssid)
  }

  // ---------------------------------------------------------------------------
  // The profile document
  // ---------------------------------------------------------------------------

  /**
   * The security of the profile: open for a null or white-space password,
   * WPA2PSK/AES with the escaped password otherwise. `SecurityElement.Escape`
   * is taken to write the five XML entities, as `Escaped` does.
   */
  function SecurityFor(password: Option<string>): Security {
    if IsNullOrWhiteSpace(password) then Open else Wpa2Psk(Escaped(password.value))
  }

  function ProfileFor(ssid: string, password: Option<string>): Profile {
    Profile(Escaped(ssid), SecurityFor(password))
  }

  /** The opening of the one-line SSID configuration. */
  const SsidOpen := "  <SSIDConfig><SSID>"

  /** What closes the SSID configuration's name and its line. */
  const SsidNameClose := "</name></SSID></SSIDConfig>\r\n"

  /**
   * The document of a profile in this tool's layout (the SSID element on
   * one line), line for line the verbatim strings of `BuildWlanProfileXml`
   * with CRLF line ends.
   */
  function ProfileXml(p: Profile): string {
    ProfileHead + "  <name>" + p.name + "</name>\r\n" +
    SsidOpen + "<name>" + p.name + SsidNameClose +
    MsmHead + SecurityXml(p.security) + ProfileTail
  }

  /** `BuildWlanProfileXml`. */
  function BuildWlanProfileXml(ssid: string, password: Option<string>): string {
    ProfileXml(ProfileFor(ssid, password))
  }

  /**
   * The document names the profile in both of its `<name>` elements and holds
   * the profile's security block whole.
   */
  lemma ProfileXmlParts(p: Profile)
    ensures Contains(ProfileXml(p), "  <name>" + p.name + "</name>\r\n")
    ensures Contains(ProfileXml(p), "<name>" + p.name + SsidNameClose)
    ensures Contains(ProfileXml(p), SecurityXml(p.security))
  {
    DocumentParts(ProfileHead, "  <name>", p.name, "</name>\r\n", SsidOpen,
      "<name>", SsidNameClose, MsmHead, SecurityXml(p.security), ProfileTail);
  }

  /**
   * The document of `BuildWlanProfileXml` names the escaped network in both
   * of its `<name>` elements and is open when the password is null or only
   * white space.
   */
  lemma ProfileDocument(ssid: string, password: Option<string>)
    ensures Contains(BuildWlanProfileXml(ssid, password), "  <name>" + Escaped(ssid) + "</name>\r\n")
    ensures Contains(BuildWlanProfileXml(ssid, password), "<name>" + Escaped(ssid) + SsidNameClose)
    ensures IsNullOrWhiteSpace(password) ==> Contains(BuildWlanProfileXml(ssid, password), "open</authentication>")
  {
    var p := ProfileFor(ssid, password);
    ProfileXmlParts(p);
    if IsNullOrWhiteSpace(password) {
      SecurityInDocument(ProfileXml(p), Open);
    }
  }

  /** Otherwise it carries the escaped password as its WPA2PSK key. */
  lemma ProfileDocumentKey(ssid: string, password: Option<string>)
    requires !IsNullOrWhiteSpace(password)
    ensures Contains(BuildWlanProfileXml(ssid, password), "WPA2PSK</authentication>")
    ensures Contains(BuildWlanProfileXml(ssid, password), "<keyMaterial>" + Escaped(password.value) + "</keyMaterial>")
  {
    var p := ProfileFor(ssid, password);
    ProfileXmlParts(p);
    SecurityInDocument(ProfileXml(p), Wpa2Psk(Escaped(password.value)));
  }

  /**
   * The network name reads back from the profile and cannot close its
   * element. The profile is open exactly when the password is null or only
   * white space; otherwise its key material reads back as the password and
   * cannot close the element around it.
   */
  lemma ProfileForRule(ssid: string, password: Option<string>)
    ensures Unescape(ProfileFor(ssid, password).name) == ssid && '<' !in ProfileFor(ssid, password).name
    ensures SecurityFor(password) == Open <==> password.None? || IsBlank(password.value)
    ensures SecurityFor(password).Wpa2Psk? ==>
      Unescape(SecurityFor(password).keyMaterial) == password.value && '<' !in SecurityFor(password).keyMaterial
  {
    EscapedRoundTrip(ssid);
    EscapedHasNoMarkup(ssid, '<');
    if password.Some? {
      EscapedRoundTrip(password.value);
      EscapedHasNoMarkup(password.value, '<');
    }
  }

  /** A password of spaces alone gives an open profile, so its key is never written. */
  lemma SpacesPasswordIsOpen(ssid: string)
    ensures ProfileFor(ssid, Some("   ")).security == Open
  {
    assert SkipWhite("   ", 3) == 3;
    assert SkipWhite("   ", 0) == 3;
  }

  // ---------------------------------------------------------------------------
  // FirstLine
  // ---------------------------------------------------------------------------

  function IsLineFeed(c: char): bool {
    c == '\n'
  }

  /** `FirstLine`: "" for blank text; otherwise, with `\r` removed, the trimmed text before the first `\n`. */
  function FirstLine(s: string): string {
    if IsBlank(s) then ""
    else
      var t := ReplaceAll(s, "\r", "");
      match FirstWhere(t, IsLineFeed, 0)
      case None => Trim(t)
      case Some(k) => Trim(t[..k])
  }

  /**
   * The first line holds no line break and no surrounding white space; it is
   * empty for blank text, and it is the whole trimmed text when that has no
   * line break at all.
   */
  lemma FirstLineRule(s: string)
    ensures IsBlank(s) ==> FirstLine(s) == ""
    ensures '\n' !in FirstLine(s) && '\r' !in FirstLine(s)
    ensures Trim(FirstLine(s)) == FirstLine(s)
    ensures !IsBlank(s) && '\n' !in s ==> FirstLine(s) == Trim(ReplaceAll(s, "\r", ""))
  {
    if !IsBlank(s) {
      var t := ReplaceAll(s, "\r", "");
      FirstWhereIsFirst(t, IsLineFeed, 0);
      var line := match FirstWhere(t, IsLineFeed, 0) case None => t case Some(k) => t[..k];
      assert FirstLine(s) == Trim(line);
      TrimIdempotent(line);
      forall j | 0 <= j < |Trim(line)| ensures Trim(line)[j] != '\n' && Trim(line)[j] != '\r' {
        TrimKeepsOnlyInputChars(line, j);
        var c := Trim(line)[j];
        assert c in t;
        if FirstWhere(t, IsLineFeed, 0).Some? {
          var k := FirstWhere(t, IsLineFeed, 0).value;
          var i :| 0 <= i < |line| && line[i] == c;
          assert t[i] == c && !IsLineFeed(t[i]);
        } else {
          var i :| 0 <= i < |t| && t[i] == c;
          assert !IsLineFeed(t[i]);
        }
      }
    }
  }

  // ---------------------------------------------------------------------------
  // EnsureProfile, Connect and WaitAndConnectAsync
  // ---------------------------------------------------------------------------

  /** The `netsh wlan` commands the helper issues. */
  datatype NetshCall =
    | ShowNetworks
    | ShowProfiles
    | DeleteProfile(ssid: string)
    | AddProfile(profile: Profile)
    | ConnectTo(ssid: string)
    | ShowInterfaces

  /**
   * `EnsureProfile`: list the stored profiles; delete the network's profile
   * when its name occurs in that list ignoring case; add the new profile.
   */
  function EnsureProfileCalls(ssid: string, password: Option<string>, profiles: string): seq<NetshCall> {
    [ShowProfiles] + (if ContainsIgnoreCase(profiles, ssid) then [DeleteProfile(ssid)] else []) +
    [AddProfile(ProfileFor(ssid, password))]
  }

  /**
   * The old profile is deleted exactly when the name occurs somewhere in the
   * profile list ignoring case, and the last command adds a profile that
   * names the network.
   */
  lemma EnsureProfileCallsRule(ssid: string, password: Option<string>, profiles: string)
    ensures var c := EnsureProfileCalls(ssid, password, profiles);
      (DeleteProfile(ssid) in c <==> exists i | 0 <= i <= |profiles| - |ssid| :: OccursAtIgnoreCase(profiles, ssid, i)) &&
      c[0] == ShowProfiles && c[|c| - 1].AddProfile? && Unescape(c[|c| - 1].profile.name) == ssid
  {
    ContainsIgnoreCaseIff(profiles, ssid);
    ProfileForRule(ssid, password);
  }

  /** One pass of the wait loop: the network list, the profile list and the interface state it reads. */
  datatype WaitPoll = WaitPoll(networks: string, profiles: string, interfaces: string)

  /** The network a pass picks. */
  function PollPick(m: WifiMatch, isMatch: string -> bool, p: WaitPoll): Option<string> {
    PickSsid(VisibleSsids(p.networks), m, isMatch)
  }

  /** A pass that picks a non-blank name and then sees the machine joined to it. */
  predicate Joins(m: WifiMatch, isMatch: string -> bool, p: WaitPoll) {
    var pick := PollPick(m, isMatch, p);
    pick.Some? && !IsBlank(pick.value) && IsConnectedToSsid(p.interfaces, pick.value)
  }

  function JoinsFn(m: WifiMatch, isMatch: string -> bool): WaitPoll -> bool {
    (p: WaitPoll) => Joins(m, isMatch, p)
  }

  /** The commands of one pass that picked `pick`: list the networks and, for a picked name, profile, connect and check. */
  function PassCalls(pick: Option<string>, password: Option<string>, profiles: string): seq<NetshCall> {
    if pick.None? || IsBlank(pick.value) then [ShowNetworks]
    else [ShowNetworks] + EnsureProfileCalls(pick.value, password, profiles) + [ConnectTo(pick.value), ShowInterfaces]
  }

  function PollCalls(m: WifiMatch, password: Option<string>, isMatch: string -> bool, p: WaitPoll): seq<NetshCall> {
    PassCalls(PollPick(m, isMatch, p), password, p.profiles)
  }

  function PollCallsFn(m: WifiMatch, password: Option<string>, isMatch: string -> bool): WaitPoll -> seq<NetshCall> {
    (p: WaitPoll) => PollCalls(m, password, isMatch, p)
  }

  /** The commands of the passes, up to and including the pass that joins. */
  function WaitCalls(m: WifiMatch, password: Option<string>, isMatch: string -> bool, polls: seq<WaitPoll>): seq<NetshCall> {
    ConcatThrough(polls, PollCallsFn(m, password, isMatch), JoinsFn(m, isMatch), 0)
  }

  /** What `WaitAndConnectAsync` returns: the name the first joining pass picked, or null. */
  function WaitOutcome(m: WifiMatch, isMatch: string -> bool, polls: seq<WaitPoll>): Option<string> {
    match FirstWhere(polls, JoinsFn(m, isMatch), 0)
    case None => None
    case Some(k) => PollPick(m, isMatch, polls[k])
  }

  /**
   * One pass of the wait loop: list the networks and pick; for a picked
   * name, put its profile in place, connect, and check the interface.
   */
  method WaitPass(m: WifiMatch, password: Option<string>, isMatch: string -> bool, p: WaitPoll)
    returns (ssid: Option<string>, step: seq<NetshCall>, joined: bool)
    ensures ssid == PollPick(m, isMatch, p)
    ensures step == PollCalls(m, password, isMatch, p)
    ensures joined == Joins(m, isMatch, p)
  {
    var visible := GetVisibleSsids(p.networks);
    ssid := PickSsid(visible, m, isMatch);
    step := [ShowNetworks];
    joined := false;
    if ssid.Some? && !IsBlank(ssid.value) {
      step := step + EnsureProfileCalls(ssid.value, password, p.profiles) + [ConnectTo(ssid.value), ShowInterfaces];
      joined := IsConnectedToSsid(p.interfaces, ssid.value);
    }
  }

  /**
   * `WaitAndConnectAsync`. `polls` are the passes that start before the
   * timeout; the first pass that joins ends the wait with its name.
   */
  method WaitAndConnect(m: WifiMatch, password: Option<string>, isMatch: string -> bool, polls: seq<WaitPoll>)
    returns (r: Option<string>, calls: seq<NetshCall>)
    ensures r == WaitOutcome(m, isMatch, polls)
    ensures calls == WaitCalls(m, password, isMatch, polls)
  {
    ghost var f := PollCallsFn(m, password, isMatch);
    ghost var stop := JoinsFn(m, isMatch);
    calls := [];
    var i := 0;
    while i < |polls|
      invariant 0 <= i <= |polls|
      invariant FirstWhere(polls, stop, 0) == FirstWhere(polls, stop, i)
      invariant calls + ConcatThrough(polls, f, stop, i) == ConcatThrough(polls, f, stop, 0)
    {
      var ssid, step, joined := WaitPass(m, password, isMatch, polls[i]);
      assert step == f(polls[i]) && joined == stop(polls[i]);
      ConcatThroughStep(polls, f, stop, i, calls);
      if joined {
        return ssid, calls + step;
      }
      calls := calls + step;
      i := i + 1;
    }
    r := None;
  }

  /**
   * The wait returns a name only when some pass picked it among the visible
   * networks, it is not blank, and the interface then showed it as joined;
   * it returns null exactly when no pass joins.
   */
  lemma WaitOutcomeRule(m: WifiMatch, isMatch: string -> bool, polls: seq<WaitPoll>)
    ensures var r := WaitOutcome(m, isMatch, polls);
      r.Some? ==> exists k :: (0 <= k < |polls| && PollPick(m, isMatch, polls[k]) == r &&
        r.value in VisibleSsids(polls[k].networks) && !IsBlank(r.value) && IsConnectedToSsid(polls[k].interfaces, r.value))
    ensures WaitOutcome(m, isMatch, polls).None? <==> forall k :: 0 <= k < |polls| ==> !Joins(m, isMatch, polls[k])
  {
    FirstWhereIsFirst(polls, JoinsFn(m, isMatch), 0);
    var f := FirstWhere(polls, JoinsFn(m, isMatch), 0);
    if f.Some? {
      var k := f.value;
      assert JoinsFn(m, isMatch)(polls[k]);
      PickSsidRule(VisibleSsids(polls[k].networks), m, isMatch);
    } else {
      forall k | 0 <= k < |polls| ensures !Joins(m, isMatch, polls[k]) {
        assert !JoinsFn(m, isMatch)(polls[k]);
      }
    }
  }

  /** In the commands of one pass, a connection is to the name picked, right after adding its profile. */
  lemma PassConnect(pick: Option<string>, password: Option<string>, profiles: string, n: nat)
    requires n < |PassCalls(pick, password, profiles)| && PassCalls(pick, password, profiles)[n].ConnectTo?
    ensures var here := PassCalls(pick, password, profiles);
      n > 0 && pick == Some(here[n].ssid) && here[n - 1] == AddProfile(ProfileFor(here[n].ssid, password))
  {
    var here := PassCalls(pick, password, profiles);
    if pick.Some? && !IsBlank(pick.value) {
      var ssid := pick.value;
      var add := AddProfile(ProfileFor(ssid, password));
      if ContainsIgnoreCase(profiles, ssid) {
        assert here == [ShowNetworks, ShowProfiles, DeleteProfile(ssid), add, ConnectTo(ssid), ShowInterfaces];
      } else {
        assert here == [ShowNetworks, ShowProfiles, add, ConnectTo(ssid), ShowInterfaces];
      }
    }
  }

  /** Every connection the wait requests is to a name some pass picked, with that name's profile added just before. */
  lemma ConnectsOnlyToPicked(m: WifiMatch, password: Option<string>, isMatch: string -> bool, polls: seq<WaitPoll>, j: nat)
    requires j < |WaitCalls(m, password, isMatch, polls)| && WaitCalls(m, password, isMatch, polls)[j].ConnectTo?
    ensures var c := WaitCalls(m, password, isMatch, polls);
      j > 0 && c[j - 1] == AddProfile(ProfileFor(c[j].ssid, password)) &&
      exists k :: 0 <= k < |polls| && PollPick(m, isMatch, polls[k]) == Some(c[j].ssid)
  {
    var f := PollCallsFn(m, password, isMatch);
    var k, n := ConcatThroughAt(polls, f, JoinsFn(m, isMatch), 0, j);
    var pick := PollPick(m, isMatch, polls[k]);
    assert f(polls[k]) == PassCalls(pick, password, polls[k].profiles);
    PassConnect(pick, password, polls[k].profiles, n);
  }
}
