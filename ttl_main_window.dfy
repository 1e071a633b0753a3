/**
 * The logic of the serial flasher's main window that is not screen layout:
 * pulling the MAC address out of esptool's `read_mac` output, naming the
 * per-receiver clone folder after it, turning the form's fields into a flash
 * configuration, and refusing a second run while one is active.
 */
module TtlMainWindow {
  import opened Wrappers
  import opened Strings
  import opened TtlModels
  import WinPath

  // ---------------------------------------------------------------------------
  // ExtractMac: the pattern `MAC:\s*([0-9a-fA-F:]{17})`
  // ---------------------------------------------------------------------------

  /** A character of the class `[0-9a-fA-F:]`. */
  predicate IsMacChar(c: char) {
    IsDigit(c) || 'a' <= c <= 'f' || 'A' <= c <= 'F' || c == ':'
  }

  /** Where the captured group of a match at `p` starts: after `MAC:` and all the white space that follows. */
  function GroupStart(text: string, p: nat): nat
    requires p + 4 <= |text|
  {
    SkipWhite(text, p + 4)
  }

  /**
   * The pattern matches at `p`. The white space run is taken whole: a
   * shorter run would leave a white space character first in the group,
   * which the class excludes, so no other split can match.
   */
  predicate MatchAt(text: string, p: nat) {
    p + 4 <= |text| && text[p..p + 4] == "MAC:" &&
    GroupStart(text, p) + 17 <= |text| &&
    forall j :: GroupStart(text, p) <= j < GroupStart(text, p) + 17 ==> IsMacChar(text[j])
  }

  /** The captured group of a match at `p`. */
  function GroupAt(text: string, p: nat): string
    requires MatchAt(text, p)
  {
    text[GroupStart(text, p)..GroupStart(text, p) + 17]
  }

  /** The search from position `p` on: the group of the leftmost match, or "" without one. */
  function MacScan(text: string, p: nat): (r: string)
    ensures r == [] || (|r| == 17 && forall i :: 0 <= i < |r| ==> IsMacChar(r[i]))
    decreases |text| - p
  {
    if p + 4 > |text| then ""
    else if MatchAt(text, p) then GroupAt(text, p)
    else MacScan(text, p + 1)
  }

  /** `ExtractMac`: the 17 characters after the first `MAC:` the pattern accepts, or "". */
  function ExtractMac(text: string): (r: string)
    ensures r == [] || (|r| == 17 && forall i :: 0 <= i < |r| ==> IsMacChar(r[i]))
  {
    MacScan(text, 0)
  }

  lemma {:induction false} MacScanIsLeftmost(text: string, p: nat)
    ensures var r := MacScan(text, p);
      (r == [] <==> forall k :: p <= k < |text| ==> !MatchAt(text, k)) &&
      (r != [] ==> exists k :: p <= k < |text| && MatchAt(text, k) && r == GroupAt(text, k) &&
                              forall j :: p <= j < k ==> !MatchAt(text, j))
    decreases |text| - p
  {
    if p + 4 <= |text| && !MatchAt(text, p) {
      MacScanIsLeftmost(text, p + 1);
      var r := MacScan(text, p);
      if r != [] {
        var k :| p + 1 <= k < |text| && MatchAt(text, k) && r == GroupAt(text, k) &&
                 forall j :: p + 1 <= j < k ==> !MatchAt(text, j);
        assert forall j :: p <= j < k ==> !MatchAt(text, j);
      }
    } else if p + 4 <= |text| {
      assert MacScan(text, p) == GroupAt(text, p);
      assert |GroupAt(text, p)| == 17;
    }
  }

  /**
   * `ExtractMac` gives "" exactly when the pattern matches nowhere, and
   * otherwise the group of the leftmost match.
   */
  lemma ExtractMacIsLeftmostMatch(text: string)
    ensures ExtractMac(text) == [] <==> forall k :: 0 <= k < |text| ==> !MatchAt(text, k)
    ensures ExtractMac(text) != [] ==>
      exists k :: 0 <= k < |text| && MatchAt(text, k) && ExtractMac(text) == GroupAt(text, k) &&
                  forall j :: 0 <= j < k ==> !MatchAt(text, j)
  {
    MacScanIsLeftmost(text, 0);
  }

  /** esptool's own line `MAC: 24:0a:c4:12:34:56` gives the address. */
  lemma ExtractMacOfEsptoolLine()
    ensures ExtractMac("MAC: 24:0a:c4:12:34:56") == "24:0a:c4:12:34:56"
  {
    var t := "MAC: 24:0a:c4:12:34:56";
    assert t[0..4] == "MAC:";
    assert SkipWhite(t, 4) == 5 by {
      assert IsWhite(t[4]) && !IsWhite(t[5]);
    }
    assert MatchAt(t, 0);
    assert t[5..22] == "24:0a:c4:12:34:56";
  }

  // ---------------------------------------------------------------------------
  // The clone folder (Read Clone)
  // ---------------------------------------------------------------------------

  /**
   * The folder a clone is saved to: `clone_{mac}` inside the chosen folder,
   * with the colons of the MAC turned into dashes, when the `read_mac`
   * output names a MAC; otherwise the chosen folder itself. A failed
   * `read_mac` counts as empty output.
   */
  function CloneFolder(selected: string, readMac: Result<string, string>): string {
    var macText := if readMac.Ok? then readMac.value else "";
    if IsBlank(macText) then selected
    else
      var mac := ExtractMac(macText);
      if IsBlank(mac) then selected
      else WinPath.Combine(selected, "clone_" + ReplaceChar(mac, ':', '-'))
  }

  /** A MAC found is never blank, and blank output holds no MAC. */
  lemma MacBlankness(text: string)
    ensures ExtractMac(text) != [] ==> !IsBlank(ExtractMac(text))
    ensures IsBlank(text) ==> ExtractMac(text) == []
  {
    var r := ExtractMac(text);
    if r != [] {
      assert !IsWhite(r[0]);
      assert SkipWhite(r, 0) == 0;
    }
    if IsBlank(text) && r != [] {
      ExtractMacIsLeftmostMatch(text);
      var k :| 0 <= k < |text| && MatchAt(text, k);
      assert text[k] == text[k..k + 4][0] == 'M';
      SkipWhiteSpan(text, 0);
      assert false;
    }
  }

  /**
   * The folder is `selected\clone_xx-xx-xx-xx-xx-xx` when `read_mac`
   * succeeded and its output names a MAC, and the chosen folder otherwise;
   * the subfolder's name is 23 characters long and holds no colon.
   */
  lemma CloneFolderRule(selected: string, readMac: Result<string, string>)
    ensures var macText := if readMac.Ok? then readMac.value else "";
      var mac := ExtractMac(macText);
      (mac == [] ==> CloneFolder(selected, readMac) == selected) &&
      (mac != [] ==>
        var name := "clone_" + ReplaceChar(mac, ':', '-');
        CloneFolder(selected, readMac) == WinPath.Combine(selected, name) &&
        |name| == 23 && ':' !in name)
  {
    var macText := if readMac.Ok? then readMac.value else "";
    MacBlankness(macText);
    MacBlankness("");
  }

  // ---------------------------------------------------------------------------
  // BuildConfig
  // ---------------------------------------------------------------------------

  /** The form as `BuildConfig` reads it: the selections, the two text boxes and the per-segment path boxes in order. */
  datatype Form = Form(
    profile: Option<ReceiverProfile>,
    port: Option<string>,
    baudText: string,
    esptoolPathText: string,
    pathBoxes: seq<(string, string)>)

  const FallbackBaud: int := 921600

  /** The flashing baud rate: the trimmed text as an `int`, or 921600 when it does not parse or is not positive. */
  function BaudOf(text: string): (b: int)
    ensures b > 0
  {
    var v := ParseInt32(Trim(text));
    if v.Some? && v.value > 0 then v.value else FallbackBaud
  }

  /**
   * A positive rate typed as digits, with or without surrounding white
   * space, is taken as is; nothing that fails to parse, and no rate of zero
   * or below, gets through.
   */
  lemma BaudOfRoundTrip(n: int)
    requires 0 < n <= Int32Max
    ensures BaudOf(IntToString(n)) == n
    ensures BaudOf(" " + IntToString(n) + " ") == n
  {
    var s := IntToString(n);
    ParseInt32OfIntToString(n);
    assert !IsWhite(s[0]) && !IsWhite(s[|s| - 1]);
    TrimOfTrimmed(s);
    TrimOfPadded(s);
  }

  lemma BaudOfFallback(text: string)
    requires ParseInt32(Trim(text)).None? || ParseInt32(Trim(text)).value <= 0
    ensures BaudOf(text) == FallbackBaud
  {
  }

  /** Trimming a string padded by one space on each side gives back a string with no white space at its ends. */
  lemma TrimOfPadded(s: string)
    requires s != [] && !IsWhite(s[0]) && !IsWhite(s[|s| - 1])
    ensures Trim(" " + s + " ") == s
  {
    var p := " " + s + " ";
    assert SkipWhite(p, 1) == 1;
    assert SkipWhite(p, 0) == 1;
    assert BackWhite(p, |p| - 1) == |p| - 1;
    assert BackWhite(p, |p|) == |p| - 1;
    assert p[1..|p| - 1] == s;
  }

  /** The label map after the path boxes are stored in order, each under its label and trimmed. */
  function StoredPaths(boxes: seq<(string, string)>): LabelMap
    decreases |boxes|
  {
    if boxes == [] then EmptyLabelMap
    else
      var last := boxes[|boxes| - 1];
      SetPath(StoredPaths(boxes[..|boxes| - 1]), last.0, Trim(last.1))
  }

  /** A label no box names, in any case, has no path. */
  lemma {:induction false} StoredPathsUnnamed(boxes: seq<(string, string)>, l: string)
    requires forall k :: 0 <= k < |boxes| ==> !EqualsIgnoreCase(l, boxes[k].0)
    ensures TryGetValue(StoredPaths(boxes), l) == None
    decreases |boxes|
  {
    if boxes != [] {
      var init := boxes[..|boxes| - 1];
      assert forall k :: 0 <= k < |init| ==> init[k] == boxes[k];
      StoredPathsUnnamed(init, l);
    }
  }

  /**
   * A label holds the trimmed text of the last box stored under it, labels
   * compared without regard to case.
   */
  lemma {:induction false} StoredPathsLast(boxes: seq<(string, string)>, l: string, k: nat)
    requires k < |boxes| && EqualsIgnoreCase(l, boxes[k].0)
    requires forall j :: k < j < |boxes| ==> !EqualsIgnoreCase(l, boxes[j].0)
    ensures TryGetValue(StoredPaths(boxes), l) == Some(Trim(boxes[k].1))
    decreases |boxes|
  {
    var init := boxes[..|boxes| - 1];
    var last := boxes[|boxes| - 1];
    if k == |boxes| - 1 {
      LookupIgnoresCase(StoredPaths(boxes), l, last.0);
    } else {
      assert forall j :: 0 <= j < |init| ==> init[j] == boxes[j];
      StoredPathsLast(init, l, k);
      assert !EqualsIgnoreCase(l, last.0);
    }
  }

  /** The configuration a complete form gives: the trimmed esptool path, the port, the parsed rate, and every other knob at its default. */
  function ConfigOf(profile: ReceiverProfile, port: string, f: Form): FlashConfig {
    NewFlashConfig(profile).(esptoolPath := Trim(f.esptoolPathText), port := port, baud := BaudOf(f.baudText),
                             detectBaud := 115200, binPaths := StoredPaths(f.pathBoxes))
  }

  /**
   * `BuildConfig`: fails with "Select receiver profile." or "Select COM
   * port." when a selection is missing (the profile is checked first);
   * otherwise stores each path box under its label, in order.
   */
  method BuildConfig(f: Form) returns (r: Result<FlashConfig, string>)
    ensures f.profile.None? ==> r == Err("Select receiver profile.")
    ensures f.profile.Some? && f.port.None? ==> r == Err("Select COM port.")
    ensures f.profile.Some? && f.port.Some? ==> r == Ok(ConfigOf(f.profile.value, f.port.value, f))
  {
    if f.profile.None? {
      return Err("Select receiver profile.");
    }
    if f.port.None? {
      return Err("Select COM port.");
    }
    var cfg := NewFlashConfig(f.profile.value).(esptoolPath := Trim(f.esptoolPathText), port := f.port.value,
                                                 baud := BaudOf(f.baudText), detectBaud := 115200);
    var paths := cfg.binPaths;
    var i := 0;
    while i < |f.pathBoxes|
      invariant 0 <= i <= |f.pathBoxes|
      invariant paths == StoredPaths(f.pathBoxes[..i])
    {
      var box := f.pathBoxes[i];
      assert f.pathBoxes[..i + 1][..i] == f.pathBoxes[..i];
      paths := SetPath(paths, box.0, Trim(box.1));
      i := i + 1;
    }
    assert f.pathBoxes[..i] == f.pathBoxes;
    r := Ok(cfg.(binPaths := paths));
  }

  /** A complete form always builds: the detection rate is 115200 and the flashing rate positive. */
  lemma ConfigOfRates(profile: ReceiverProfile, port: string, f: Form)
    ensures ConfigOf(profile, port, f).detectBaud == 115200
    ensures ConfigOf(profile, port, f).baud > 0
    ensures ConfigOf(profile, port, f).retryFlashCount == 1
  {
  }

  // ---------------------------------------------------------------------------
  // The re-entrancy guard of Start and Read Clone
  // ---------------------------------------------------------------------------

  /** The window's run state: `active` is `_cts != null`. */
  class RunGuard {
    var active: bool

    constructor()
      ensures !active
    {
      active := false;
    }

    /**
     * Start: nothing while a run is active; a form that does not build logs
     * `ERROR: ` and its message and starts nothing; otherwise the run starts
     * with the built configuration.
     */
    method StartClick(f: Form) returns (run: Option<FlashConfig>, log: seq<string>)
      modifies this
      ensures old(active) ==> run.None? && log == [] && active
      ensures !old(active) ==> (run.Some? <==> f.profile.Some? && f.port.Some?)
      ensures active == (old(active) || run.Some?)
      ensures run.Some? ==> run.value == ConfigOf(f.profile.value, f.port.value, f)
    {
      if active {
        return None, [];
      }
      var cfg := BuildConfig(f);
      if cfg.Err? {
        return None, ["ERROR: " + cfg.error];
      }
      active := true;
      run := Some(cfg.value);
      log := ["=== START ==="];
    }

    /**
     * Read Clone: nothing while a run is active, none when the form does not
     * build or the folder dialog is dismissed; otherwise the read starts with
     * the configuration the form builds.
     */
    method ReadCloneClick(f: Form, folderChosen: bool) returns (run: Option<FlashConfig>)
      modifies this
      ensures old(active) ==> run.None? && active
      ensures !old(active) ==> (run.Some? <==> f.profile.Some? && f.port.Some? && folderChosen)
      ensures active == (old(active) || run.Some?)
      ensures run.Some? ==> run.value == ConfigOf(f.profile.value, f.port.value, f)
    {
      if active {
        return None;
      }
      var cfg := BuildConfig(f);
      if cfg.Err? || !folderChosen {
        return None;
      }
      active := true;
      run := Some(cfg.value);
    }

    /** The `finally` of either handler: the run is over and the buttons work again. */
    method Finish()
      modifies this
      requires active
      ensures !active
    {
      active := false;
    }
  }

  /** While a run is active, a second Start or Read Clone starts nothing and the run stays active. */
  method SecondClickIgnored(g: RunGuard, f: Form, folderChosen: bool) returns (a: Option<FlashConfig>, b: Option<FlashConfig>)
    requires g.active
    modifies g
    ensures a.None? && b.None? && g.active
  {
    var log;
    a, log := g.StartClick(f);
    b := g.ReadCloneClick(f, folderChosen);
  }
}
