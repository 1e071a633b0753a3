/**
 * The text formats both Wi-Fi tools share with `netsh wlan`: reading the
 * `SSID` lines of `wlan show interfaces` and `wlan show networks` output,
 * and escaping text for a WLAN profile document.
 *
 * The line patterns are multi-line regular expressions; here each is a
 * scanner over character positions. `^` holds at position 0 and after a line
 * feed, `\s` is any white space including the line feed (so `\s*` may run
 * into the following lines), and `.` is any character but the line feed.
 * Where a greedy `\s*` or `\d+` is followed by a character it cannot match,
 * the regular expression has only one way to succeed, which is the one the
 * scanner takes.
 */
module WlanText {
  import opened Wrappers
  import opened Strings

  // ---------------------------------------------------------------------------
  // Positions in a multi-line text
  // ---------------------------------------------------------------------------

  /** White space other than the line feed. */
  predicate IsBlankInLine(c: char) {
    IsWhite(c) && c != '\n'
  }

  /** Steps back from `q` over white space of the same line. */
  function LineHead(text: string, q: nat): (h: nat)
    requires q <= |text|
    ensures h <= q
    decreases q
  {
    if q > 0 && IsBlankInLine(text[q - 1]) then LineHead(text, q - 1) else q
  }

  /** Only white space stands between the start of its line and `q`: a `^\s*` can end at `q`. */
  predicate AtLineHead(text: string, q: nat)
    requires q <= |text|
  {
    var h := LineHead(text, q);
    h == 0 || text[h - 1] == '\n'
  }

  /** The position of the line feed that ends the line holding `i`, or the end of the text. */
  function LineEnd(text: string, i: nat): (e: nat)
    requires i <= |text|
    ensures i <= e <= |text|
    ensures e < |text| ==> text[e] == '\n'
    decreases |text| - i
  {
    if i == |text| || text[i] == '\n' then i else LineEnd(text, i + 1)
  }

  /** The end of the run of white space other than line feeds that starts at `i`. */
  function SkipInLine(text: string, i: nat): (j: nat)
    requires i <= |text|
    ensures i <= j <= |text|
    decreases |text| - i
  {
    if i < |text| && IsBlankInLine(text[i]) then SkipInLine(text, i + 1) else i
  }

  /** The end of the run of decimal digits that starts at `i`. */
  function SkipDigits(text: string, i: nat): (j: nat)
    requires i <= |text|
    ensures i <= j <= |text|
    decreases |text| - i
  {
    if i < |text| && IsDigit(text[i]) then SkipDigits(text, i + 1) else i
  }

  /** The word `SSID` at `q`, in capitals or, when `ignoreCase`, in any case. */
  predicate KeywordAt(text: string, q: nat, ignoreCase: bool) {
    q + 4 <= |text| &&
    (if ignoreCase then EqualsIgnoreCase(text[q..q + 4], "SSID") else text[q..q + 4] == "SSID")
  }

  // ---------------------------------------------------------------------------
  // `wlan show interfaces`: `^\s*SSID\s*:\s*`
  // ---------------------------------------------------------------------------

  /** The head `SSID :` of an interface line starts at `q`. */
  predicate InterfaceHeadAt(text: string, q: nat, ignoreCase: bool) {
    KeywordAt(text, q, ignoreCase) && AtLineHead(text, q) &&
    SkipWhite(text, q + 4) < |text| && text[SkipWhite(text, q + 4)] == ':'
  }

  function InterfaceHeads(text: string, ignoreCase: bool): nat -> bool {
    (k: nat) => InterfaceHeadAt(text, k, ignoreCase)
  }

  /** The position of the colon of the interface line head at `q`. */
  function InterfaceColon(text: string, q: nat): (c: nat)
    requires InterfaceHeadAt(text, q, false) || InterfaceHeadAt(text, q, true)
    ensures q + 4 <= c < |text| && text[c] == ':'
  {
    SkipWhite(text, q + 4)
  }

  /**
   * The captured group of `^\s*SSID\s*:\s*(.+)\s*$`: the rest of the line
   * from the first character after the colon that is not white space (which
   * may lie on a later line). When only white space follows the colon, the
   * group is white space or the pattern fails; either way its trimmed value
   * is empty, which is what "" stands for.
   */
  function InterfaceValue(text: string, q: nat): (v: string)
    requires InterfaceHeadAt(text, q, false)
  {
    var t := SkipWhite(text, InterfaceColon(text, q) + 1);
    if t < |text| then text[t..LineEnd(text, t)] else ""
  }

  /** The group of the first match of `^\s*SSID\s*:\s*(.+)\s*$`, if the pattern matches. */
  function FirstInterfaceValue(text: string): (r: Option<string>)
  {
    match FirstFrom(|text|, InterfaceHeads(text, false), 0)
    case None => None
    case Some(q) =>
      assert InterfaceHeads(text, false)(q);
      Some(InterfaceValue(text, q))
  }

  lemma FirstInterfaceValueIsFirstLine(text: string)
    ensures FirstInterfaceValue(text).None? <==> forall k :: 0 <= k < |text| ==> !InterfaceHeadAt(text, k, false)
    ensures FirstInterfaceValue(text).Some? ==>
      exists q :: 0 <= q < |text| && InterfaceHeadAt(text, q, false) &&
        FirstInterfaceValue(text) == Some(InterfaceValue(text, q)) &&
        forall k :: 0 <= k < q ==> !InterfaceHeadAt(text, k, false)
  {
    FirstFromIsFirst(|text|, InterfaceHeads(text, false), 0);
    var r := FirstFrom(|text|, InterfaceHeads(text, false), 0);
    if r.Some? {
      var q := r.value;
      assert InterfaceHeads(text, false)(q);
      forall k | 0 <= k < q ensures !InterfaceHeadAt(text, k, false) {
        assert !InterfaceHeads(text, false)(k);
      }
      assert FirstInterfaceValue(text) == Some(InterfaceValue(text, q));
    } else {
      forall k | 0 <= k < |text| ensures !InterfaceHeadAt(text, k, false) {
        assert !InterfaceHeads(text, false)(k);
      }
    }
  }

  /**
   * `IsMatch(text, ^\s*SSID\s*:\s*{ssid}\s*$)` ignoring case, `ssid` taken
   * literally: after an interface head, the white space behind the colon
   * ends at some `t` (the greedy run may give characters back) where `ssid`
   * follows, and only white space follows it up to the end of a line.
   */
  predicate ShowsSsidWithin(text: string, t: nat, last: nat, ssid: string)
    requires last <= |text|
    decreases last - t
  {
    t <= last && (NameEndsLineAt(text, t, ssid) || ShowsSsidWithin(text, t + 1, last, ssid))
  }

  /** `ssid` (ignoring case) stands at `t` and only white space follows it up to the end of its line. */
  predicate NameEndsLineAt(text: string, t: nat, ssid: string) {
    t + |ssid| <= |text| && EqualsIgnoreCase(text[t..t + |ssid|], ssid) &&
    var m := SkipInLine(text, t + |ssid|);
    m == |text| || text[m] == '\n'
  }

  predicate ShowsSsidAt(text: string, q: nat, ssid: string) {
    InterfaceHeadAt(text, q, true) &&
    var c := InterfaceColon(text, q);
    ShowsSsidWithin(text, c + 1, SkipWhite(text, c + 1), ssid)
  }

  predicate ShowsSsidFrom(text: string, q: nat, ssid: string)
    decreases |text| - q
  {
    q < |text| && (ShowsSsidAt(text, q, ssid) || ShowsSsidFrom(text, q + 1, ssid))
  }

  /** The interface output names `ssid` (ignoring case) as the connected network. */
  predicate ShowsSsid(text: string, ssid: string) {
    ShowsSsidFrom(text, 0, ssid)
  }

  lemma {:induction false} ShowsSsidFromIff(text: string, q: nat, ssid: string)
    ensures ShowsSsidFrom(text, q, ssid) <==> exists k :: q <= k < |text| && ShowsSsidAt(text, k, ssid)
    decreases |text| - q
  {
    if q < |text| {
      ShowsSsidFromIff(text, q + 1, ssid);
    }
  }

  lemma {:induction false} ShowsSsidWithinAtLast(text: string, t: nat, last: nat, ssid: string)
    requires t <= last <= |text| && NameEndsLineAt(text, last, ssid)
    ensures ShowsSsidWithin(text, t, last, ssid)
    decreases last - t
  {
    if t < last {
      ShowsSsidWithinAtLast(text, t + 1, last, ssid);
    }
  }

  /** A name shown right after the colon of an interface line, alone on the rest of its line, is recognised. */
  lemma ShowsSsidOfLine(text: string, q: nat, ssid: string)
    requires InterfaceHeadAt(text, q, true)
    requires NameEndsLineAt(text, SkipWhite(text, InterfaceColon(text, q) + 1), ssid)
    ensures ShowsSsid(text, ssid)
  {
    var c := InterfaceColon(text, q);
    ShowsSsidWithinAtLast(text, c + 1, SkipWhite(text, c + 1), ssid);
    assert ShowsSsidAt(text, q, ssid);
    ShowsSsidFromIff(text, 0, ssid);
  }

  // ---------------------------------------------------------------------------
  // `wlan show networks`: `^\s*SSID\s+\d+\s*:\s*(.*)\s*$`
  // ---------------------------------------------------------------------------

  /** The head `SSID n :` of a network line starts at `q`. */
  predicate NetworkHeadAt(text: string, q: nat, ignoreCase: bool) {
    KeywordAt(text, q, ignoreCase) && AtLineHead(text, q) &&
    var u := SkipWhite(text, q + 4);
    u > q + 4 &&
    var v := SkipDigits(text, u);
    v > u &&
    var w := SkipWhite(text, v);
    w < |text| && text[w] == ':'
  }

  function NetworkHeads(text: string, ignoreCase: bool): nat -> bool {
    (k: nat) => NetworkHeadAt(text, k, ignoreCase)
  }

  /** The position of the colon of the network line head at `q`. */
  function NetworkColon(text: string, q: nat, ignoreCase: bool): (c: nat)
    requires NetworkHeadAt(text, q, ignoreCase)
    ensures q + 4 < c < |text| && text[c] == ':'
  {
    SkipWhite(text, SkipDigits(text, SkipWhite(text, q + 4)))
  }

  /**
   * The captured groups of all the matches of the network pattern from
   * position `from` on, in order. After the colon the greedy `\s*` takes all
   * white space, line feeds included, and the group is the rest of the line
   * where that run ends; the next match is searched from the end of that
   * line. With `inLine` the white space after the colon is taken only
   * within its own line (the pattern with `[^\S\n]*` in its place).
   */
  function NetworkGroups(text: string, from: nat, ignoreCase: bool, inLine: bool): seq<string>
    decreases |text| - from
  {
    match FirstFrom(|text|, NetworkHeads(text, ignoreCase), from)
    case None => []
    case Some(q) =>
      var t := NetworkValueStart(text, q, ignoreCase, inLine);
      [text[t..LineEnd(text, t)]] + NetworkGroups(text, LineEnd(text, t), ignoreCase, inLine)
  }

  /** Where the group of the network line at `q` starts. */
  function NetworkValueStart(text: string, q: nat, ignoreCase: bool, inLine: bool): (t: nat)
    requires NetworkHeadAt(text, q, ignoreCase)
    ensures q < t <= |text|
  {
    var c := NetworkColon(text, q, ignoreCase);
    if inLine then SkipInLine(text, c + 1) else SkipWhite(text, c + 1)
  }

  /**
   * A group taken within its line holds no line feed; this is what sets the
   * two readings apart, since the greedy one can return the next line.
   */
  lemma {:induction false} InLineGroupsStayInLine(text: string, from: nat, ignoreCase: bool, k: nat)
    requires k < |NetworkGroups(text, from, ignoreCase, true)|
    ensures '\n' !in NetworkGroups(text, from, ignoreCase, true)[k]
    decreases |text| - from
  {
    var r := FirstFrom(|text|, NetworkHeads(text, ignoreCase), from);
    var q := r.value;
    assert NetworkHeads(text, ignoreCase)(q);
    var t := NetworkValueStart(text, q, ignoreCase, true);
    var e := LineEnd(text, t);
    var g := NetworkGroups(text, from, ignoreCase, true);
    assert g == [text[t..e]] + NetworkGroups(text, e, ignoreCase, true);
    if k > 0 {
      InLineGroupsStayInLine(text, e, ignoreCase, k - 1);
      assert g[k] == NetworkGroups(text, e, ignoreCase, true)[k - 1];
    } else {
      LineEndSpan(text, t);
    }
  }

  lemma {:induction false} LineEndSpan(text: string, i: nat)
    requires i <= |text|
    ensures forall j :: i <= j < LineEnd(text, i) ==> text[j] != '\n'
    ensures '\n' !in text[i..LineEnd(text, i)]
    decreases |text| - i
  {
    if i < |text| && text[i] != '\n' {
      LineEndSpan(text, i + 1);
    }
  }

  /** The network listing `SSID 1 :` with an empty name, then a line holding `x`. */
  lemma HiddenGroupsAsWritten(t: string, ignoreCase: bool)
    requires t == "SSID 1 :\r\n x"
    ensures NetworkGroups(t, 0, ignoreCase, false) == ["x"]
  {
    HiddenNetworkHead(t, ignoreCase);
    assert t[8] == '\r' && t[9] == '\n' && t[10] == ' ' && t[11] == 'x';
    assert SkipWhite(t, 11) == 11;
    assert SkipWhite(t, 10) == 11;
    assert SkipWhite(t, 9) == 11;
    assert SkipWhite(t, 8) == 11;
    assert NetworkValueStart(t, 0, ignoreCase, false) == 11;
    assert LineEnd(t, 12) == 12;
    assert LineEnd(t, 11) == 12;
    assert FirstFrom(|t|, NetworkHeads(t, ignoreCase), 12) == None;
    assert t[11..12] == "x";
  }

  lemma HiddenGroupsInLine(t: string, ignoreCase: bool)
    requires t == "SSID 1 :\r\n x"
    ensures NetworkGroups(t, 0, ignoreCase, true) == [""]
  {
    HiddenNetworkHead(t, ignoreCase);
    assert t[8] == '\r' && t[9] == '\n';
    assert SkipInLine(t, 9) == 9;
    assert SkipInLine(t, 8) == 9;
    assert NetworkValueStart(t, 0, ignoreCase, true) == 9;
    assert LineEnd(t, 9) == 9;
    assert FirstFrom(|t|, NetworkHeads(t, ignoreCase), 9) == None by {
      assert !NetworkHeads(t, ignoreCase)(9) && !NetworkHeads(t, ignoreCase)(10) && !NetworkHeads(t, ignoreCase)(11);
    }
    assert NetworkGroups(t, 9, ignoreCase, true) == [];
    assert t[9..9] == "";
  }

  lemma HiddenNetworkHead(t: string, ignoreCase: bool)
    requires t == "SSID 1 :\r\n x"
    ensures NetworkHeadAt(t, 0, ignoreCase) && NetworkColon(t, 0, ignoreCase) == 7
    ensures FirstFrom(|t|, NetworkHeads(t, ignoreCase), 0) == Some(0)
  {
    assert t[0..4] == "SSID";
    EqualImpliesEqualsIgnoreCase(t[0..4], "SSID");
    assert LineHead(t, 0) == 0;
    assert SkipWhite(t, 4) == 5;
    assert SkipDigits(t, 5) == 6;
    assert SkipWhite(t, 6) == 7;
    assert NetworkHeads(t, ignoreCase)(0);
  }

  // ---------------------------------------------------------------------------
  // The list of visible networks
  // ---------------------------------------------------------------------------

  predicate NotBlank(s: string) {
    !IsBlank(s)
  }

  /**
   * The names of the visible networks from the captured groups: trimmed,
   * blank ones dropped, each name once at its first occurrence.
   */
  function VisibleNames(groups: seq<string>): seq<string> {
    Distinct(Filter(TrimAll(groups), NotBlank))
  }

  /**
   * The names are trimmed, not blank and distinct; every group whose trimmed
   * text is not blank is among them; and they come in the order in which
   * they first appear.
   */
  lemma VisibleNamesShape(groups: seq<string>)
    ensures var r := VisibleNames(groups);
      NoDuplicates(r) &&
      (forall i :: 0 <= i < |r| ==> Trim(r[i]) == r[i] && !IsBlank(r[i]) && r[i] in TrimAll(groups))
    ensures forall k :: 0 <= k < |groups| && !IsBlank(Trim(groups[k])) ==> Trim(groups[k]) in VisibleNames(groups)
    ensures var kept := Filter(TrimAll(groups), NotBlank); var r := VisibleNames(groups);
      forall i, j :: 0 <= i < j < |r| ==> FirstIndex(kept, r[i]) < FirstIndex(kept, r[j])
  {
    var trimmed := TrimAll(groups);
    var kept := Filter(trimmed, NotBlank);
    var r := Distinct(kept);
    FilterMembers(trimmed, NotBlank);
    DistinctKeepsFirstOccurrenceOrder(kept);
    forall i | 0 <= i < |r| ensures Trim(r[i]) == r[i] && !IsBlank(r[i]) && r[i] in trimmed {
      assert r[i] in kept;
      var j :| 0 <= j < |trimmed| && trimmed[j] == r[i];
      TrimIdempotent(groups[j]);
    }
    forall k | 0 <= k < |groups| && !IsBlank(Trim(groups[k])) ensures Trim(groups[k]) in r {
      assert trimmed[k] == Trim(groups[k]);
      assert NotBlank(trimmed[k]);
    }
  }

  /**
   * The names as a list that receives each trimmed group after a blank
   * check and a `Contains` check: one more group adds its trimmed text
   * exactly when that is not blank and not yet listed.
   */
  lemma VisibleNamesSnoc(groups: seq<string>, g: string)
    ensures var d := VisibleNames(groups); var name := Trim(g);
      VisibleNames(groups + [g]) == if !IsBlank(name) && name !in d then d + [name] else d
  {
    var name := Trim(g);
    var all := TrimAll(groups + [g]);
    assert all == TrimAll(groups) + [name];
    FilterSnoc(TrimAll(groups), name, NotBlank);
    var kept := Filter(TrimAll(groups), NotBlank);
    var xs := Filter(all, NotBlank);
    assert xs == kept + (if NotBlank(name) then [name] else []);
    if NotBlank(name) {
      assert xs[..|xs| - 1] == kept;
      assert Distinct(xs) == if name in Distinct(kept) then Distinct(kept) else Distinct(kept) + [name];
    } else {
      assert xs == kept;
    }
  }

  // ---------------------------------------------------------------------------
  // Escaping for the profile document
  // ---------------------------------------------------------------------------

  /** The five characters XML reserves and the entity written for each. */
  function EscChar(c: char): string {
    if c == '&' then "&amp;"
    else if c == '<' then "&lt;"
    else if c == '>' then "&gt;"
    else if c == '"' then "&quot;"
    else if c == '\'' then "&apos;"
    else [c]
  }

  predicate IsReserved(c: char) {
    c == '&' || c == '<' || c == '>' || c == '"' || c == '\''
  }

  /** Every reserved character written as its entity, every other kept. */
  function Escaped(s: string): string {
    FlatMap(s, EscChar)
  }

  /** Reading the five entities back, as an XML reader does for element text. */
  function Unescape(t: string): string
    decreases |t|
  {
    if t == [] then []
    else if StartsWith(t, "&amp;") then "&" + Unescape(t[5..])
    else if StartsWith(t, "&lt;") then "<" + Unescape(t[4..])
    else if StartsWith(t, "&gt;") then ">" + Unescape(t[4..])
    else if StartsWith(t, "&quot;") then "\"" + Unescape(t[6..])
    else if StartsWith(t, "&apos;") then "'" + Unescape(t[6..])
    else [t[0]] + Unescape(t[1..])
  }

  lemma UnescapeStep(c: char, rest: string)
    ensures Unescape(EscChar(c) + rest) == [c] + Unescape(rest)
  {
    var t := EscChar(c) + rest;
    if c == '&' {
      assert t[..5] == "&amp;" && t[5..] == rest;
    } else if c == '<' {
      UnescapeLt(rest);
    } else if c == '>' {
      UnescapeGt(rest);
    } else if c == '"' {
      UnescapeQuot(rest);
    } else if c == '\'' {
      UnescapeApos(rest);
    } else {
      assert t[0] == c && t[1..] == rest;
      assert !StartsWith(t, "&amp;") && !StartsWith(t, "&lt;") && !StartsWith(t, "&gt;");
      assert !StartsWith(t, "&quot;") && !StartsWith(t, "&apos;");
    }
  }

  lemma UnescapeLt(rest: string)
    ensures Unescape("&lt;" + rest) == "<" + Unescape(rest)
  {
    var t := "&lt;" + rest;
    assert t[1] == 'l' && t[..4] == "&lt;" && t[4..] == rest;
    assert !StartsWith(t, "&amp;");
  }

  lemma UnescapeGt(rest: string)
    ensures Unescape("&gt;" + rest) == ">" + Unescape(rest)
  {
    var t := "&gt;" + rest;
    assert t[1] == 'g' && t[..4] == "&gt;" && t[4..] == rest;
    assert !StartsWith(t, "&amp;") && !StartsWith(t, "&lt;");
  }

  lemma UnescapeQuot(rest: string)
    ensures Unescape("&quot;" + rest) == "\"" + Unescape(rest)
  {
    var t := "&quot;" + rest;
    assert t[1] == 'q' && t[..6] == "&quot;" && t[6..] == rest;
    assert !StartsWith(t, "&amp;") && !StartsWith(t, "&lt;") && !StartsWith(t, "&gt;");
  }

  lemma UnescapeApos(rest: string)
    ensures Unescape("&apos;" + rest) == "'" + Unescape(rest)
  {
    var t := "&apos;" + rest;
    assert t[1] == 'a' && t[2] == 'p' && t[..6] == "&apos;" && t[6..] == rest;
    assert !StartsWith(t, "&amp;") && !StartsWith(t, "&lt;") && !StartsWith(t, "&gt;") && !StartsWith(t, "&quot;");
  }

  /** Reading an escaped text gives the text back. */
  lemma {:induction false} EscapedRoundTrip(s: string)
    ensures Unescape(Escaped(s)) == s
    decreases |s|
  {
    if s != [] {
      EscapedRoundTrip(s[1..]);
      UnescapeStep(s[0], Escaped(s[1..]));
    }
  }

  /** A text without reserved characters is its own escape. */
  lemma EscapedIdentity(s: string)
    requires forall i :: 0 <= i < |s| ==> !IsReserved(s[i])
    ensures Escaped(s) == s
  {
    FlatMapIdentity(s, EscChar);
  }

  /** No `<`, `>`, `"` or `'` is left standing in an escaped text, so it cannot end the element that holds it. */
  lemma EscapedHasNoMarkup(s: string, c: char)
    requires c == '<' || c == '>' || c == '"' || c == '\''
    ensures c !in Escaped(s)
  {
    FlatMapAvoids(s, EscChar, c);
  }

  // ---------------------------------------------------------------------------
  // The profile document's parts
  // ---------------------------------------------------------------------------

  /** An open network, or WPA2-Personal with AES and the given key material. */
  datatype Security = Open | Wpa2Psk(keyMaterial: string)

  /** The open block's settings after its authentication method. */
  const OpenSettings := "\r\n" +
    "        <encryption>none</encryption>\r\n" +
    "        <useOneX>false</useOneX>\r\n" +
    "      </authEncryption>\r\n"

  /** The WPA2PSK block's settings between its authentication method and its key. */
  const PskSettings := "\r\n" +
    "        <encryption>AES</encryption>\r\n" +
    "        <useOneX>false</useOneX>\r\n" +
    "      </authEncryption>\r\n" +
    "      <sharedKey>\r\n" +
    "        <keyType>passPhrase</keyType>\r\n" +
    "        <protected>false</protected>\r\n" +
    "        "

  /** What closes the shared key. */
  const PskClose := "\r\n" + "      </sharedKey>\r\n"

  /** The security block of a profile document, from the authentication method to the end of the key. */
  function SecurityXml(sec: Security): string {
    match sec
    case Open => "open</authentication>" + OpenSettings
    case Wpa2Psk(key) =>
      "WPA2PSK</authentication>" + PskSettings + "<keyMaterial>" + key + "</keyMaterial>" + PskClose
  }

  /** The security block names its method, and a shared key holds the key material in its element. */
  lemma SecurityXmlHolds(sec: Security)
    ensures sec.Open? ==> Contains(SecurityXml(sec), "open</authentication>")
    ensures sec.Wpa2Psk? ==>
      Contains(SecurityXml(sec), "WPA2PSK</authentication>") &&
      Contains(SecurityXml(sec), "<keyMaterial>" + sec.keyMaterial + "</keyMaterial>")
  {
    match sec
    case Open =>
      ContainsMiddle([], "open</authentication>", OpenSettings);
      assert [] + "open</authentication>" + OpenSettings == SecurityXml(sec);
    case Wpa2Psk(key) =>
      KeyBlockParts("WPA2PSK</authentication>", PskSettings, "<keyMaterial>", key, "</keyMaterial>", PskClose);
  }

  /** A block laid out as the WPA2PSK block: its first part `w` and its key element stand whole. */
  lemma KeyBlockParts(w: string, h: string, o: string, k: string, c: string, t: string)
    ensures Contains(w + h + o + k + c + t, w)
    ensures Contains(w + h + o + k + c + t, o + k + c)
  {
    ContainsMiddle([], w, []);
    assert [] + w + [] == w;
    ContainsAppendAll(w, h, [w]);
    ContainsAppendAll(w + h, o, [w]);
    ContainsAppendAll(w + h + o, k, [w]);
    ContainsAppendAll(w + h + o + k, c, [w]);
    ContainsLastThree(w + h, o, k, c);
    ContainsAppendAll(w + h + o + k + c, t, [w, o + k + c]);
  }

  /** A document that holds a security block says how the network is secured. */
  lemma SecurityInDocument(doc: string, sec: Security)
    requires Contains(doc, SecurityXml(sec))
    ensures sec.Open? ==> Contains(doc, "open</authentication>")
    ensures sec.Wpa2Psk? ==>
      Contains(doc, "WPA2PSK</authentication>") &&
      Contains(doc, "<keyMaterial>" + sec.keyMaterial + "</keyMaterial>")
  {
    SecurityXmlHolds(sec);
    match sec
    case Open =>
      ContainsTransitive(doc, SecurityXml(sec), "open</authentication>");
    case Wpa2Psk(key) =>
      ContainsTransitive(doc, SecurityXml(sec), "WPA2PSK</authentication>");
      ContainsTransitive(doc, SecurityXml(sec), "<keyMaterial>" + key + "</keyMaterial>");
  }

  /** A WLAN profile: its escaped network name and its security. */
  datatype Profile = Profile(name: string, security: Security)

  /** The XML declaration and the opening `WLANProfile` element. */
  const ProfileHead := "<?xml version=\"1.0\"?>\r\n" +
    "<WLANProfile xmlns=\"http://www.microsoft.com/networking/WLAN/profile/v1\">\r\n"

  /** The connection settings, up to the text of the `authentication` element. */
  const MsmHead := "  <connectionType>ESS</connectionType>\r\n" +
    "  <connectionMode>auto</connectionMode>\r\n" +
    "  <MSM>\r\n" +
    "    <security>\r\n" +
    "      <authEncryption>\r\n" +
    "        <authentication>"

  /** What follows the security block. */
  const ProfileTail := "    </security>\r\n" + "  </MSM>\r\n" + "</WLANProfile>"

  /**
   * A document laid out as both tools lay out theirs: `n` stands in two
   * elements, between `o1` and `c1` and between `o2` and `c2`, and the
   * security block `s` stands whole.
   */
  lemma DocumentParts(a: string, o1: string, n: string, c1: string, m: string,
                      o2: string, c2: string, b: string, s: string, t: string)
    ensures var doc := a + o1 + n + c1 + m + o2 + n + c2 + b + s + t;
      Contains(doc, o1 + n + c1) && Contains(doc, o2 + n + c2) && Contains(doc, s)
  {
    var x4 := a + o1 + n + c1;
    var x8 := x4 + m + o2 + n + c2;
    ContainsLastThree(a, o1, n, c1);
    ContainsAppendAll(x4, m, [o1 + n + c1]);
    ContainsAppendAll(x4 + m, o2, [o1 + n + c1]);
    ContainsAppendAll(x4 + m + o2, n, [o1 + n + c1]);
    ContainsAppendAll(x4 + m + o2 + n, c2, [o1 + n + c1]);
    ContainsLastThree(x4 + m, o2, n, c2);
    ContainsMiddle(x8 + b, s, []);
    assert x8 + b + s + [] == x8 + b + s;
    ContainsAppendAll(x8, b, [o1 + n + c1, o2 + n + c2]);
    ContainsAppendAll(x8 + b, s, [o1 + n + c1, o2 + n + c2]);
    ContainsAppendAll(x8 + b + s, t, [o1 + n + c1, o2 + n + c2, s]);
  }
}
