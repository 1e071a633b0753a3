# ExpressLRS receiver provisioning tools, modelled in Dafny

The repository holds three small Windows tools for setting up ExpressLRS
receivers in batches:

- **TTLRx**, the serial batch flasher. The operator connects receivers over a
  USB-serial adapter one after another. For each one the tool polls
  `esptool chip_id` until the bootloader answers, then writes every segment of
  the chosen receiver profile with one `write_flash`. A failed write is retried
  `RetryFlashCount` times, and each receiver flashed raises an OK counter. The
  window can also read a receiver's flash back, segment by segment, into a
  folder named after its MAC address.
- **Services**, the Wi-Fi OTA batch flasher. It looks for a receiver's access
  point among the visible networks (`netsh wlan`), then installs a WLAN profile
  for it and joins it. Once the receiver's page at `http://10.0.0.1` answers,
  it finds the upload form on that page and posts the firmware. It counts the
  upload and goes back to the operator's own network.
- **RXTool**, a window for one receiver at a time. It picks the receiver's
  access point by an exact, prefix or pattern match, and joins it. It can then
  either stream a firmware file to the update page with progress reports, or
  post a bind phrase (a JSON template with the UID filled in), the frequency
  settings and a reboot.

Each core source file is one Dafny module. A few other modules are shared:

- `Wrappers`: `Option` and `Result`.
- `Strings`: trimming, ASCII/Russian case folding, `Replace`, decimal
  conversions, distinct elements, and generic first-match searches.
- `Process`: a process or HTTP outcome as a value.
- `WinPath`: `Path.Combine`.
- `WlanText`: the `netsh` line scanners, the XML escaping and the parts of
  the WLAN profile document that both Wi-Fi tools use.

Pure code is modelled as functions with lemmas. Loops that change state step by
step are methods with loop invariants, proved against those functions. The two
windows that keep state between clicks are classes:

- `TtlMainWindow.RunGuard`, TTLRx's re-entrancy guard;
- `RxMainForm.MainForm`, RXTool's window state.

Processes, the network, the file system, the clock and cancellation are not
executed. Each call is answered by a value the caller supplies:

- a process outcome (`Exited(code, stdout, stderr)` or `Faulted(message)`), or
  for RXTool's `netsh` calls the text they print;
- an HTTP answer;
- the finite list of poll answers that fit before a deadline;
- a flag saying that a cancellation cut a pause.

## Model

| member | source | states |
|---|---|---|
| TtlModels.NewSegment | TTLRx/Models/ReceiverProfile.cs:5-8 | a new segment is required and has an empty label, offset and size |
| TtlModels.SegmentToString | TTLRx/Models/ReceiverProfile.cs:10 | the list text is the label, ` @ `, the offset, ` (`, the size and `)`, the three parts plus six characters |
| TtlModels.NewProfile | TTLRx/Models/ReceiverProfile.cs:15-17 | a new profile has an empty name, chip `auto` and no segments |
| TtlModels.ProfileToString | TTLRx/Models/ReceiverProfile.cs:19 | a profile is shown by its name |
| TtlModels.SetPath | TTLRx/Models/FlashConfig.cs:13 | after a path is stored under a label, that label looks up the path. Every label that differs from it ignoring case keeps its old lookup |
| TtlModels.LookupIgnoresCase | TTLRx/Models/FlashConfig.cs:13 | two labels equal ignoring case look up the same path |
| TtlModels.NewFlashConfig | TTLRx/Models/FlashConfig.cs:5-17 | the defaults: `esptool`, no port, 921600 and 115200 baud, 1500 ms between devices, a 30000 ms boot wait, one retry, no paths |
| Esptool.ChipIdCall | TTLRx/Services/EsptoolService.cs:16 | the chip probe talks at the detection baud rate |
| Esptool.ReadMacCall | TTLRx/Services/EsptoolService.cs:71 | the MAC query talks at the detection baud rate |
| Esptool.ArgsLayout | TTLRx/Services/EsptoolService.cs:11-16 | every command line starts with `--chip {chip} --port {port} --baud `, then the call's rate (which parses back to that rate), then the no-reset options |
| Esptool.KeptPairs | TTLRx/Services/EsptoolService.cs:29-39 | the write gets at most one pair per segment |
| Esptool.KeptPairsAreSegmentsWithFiles | TTLRx/Services/EsptoolService.cs:29-39 | the pairs are exactly the segments that have a non-blank file, in profile order, each with its own offset and file |
| Esptool.ReadFlashCall | TTLRx/Services/EsptoolService.cs:57-58 | a segment read talks at the flashing rate and reads that segment's offset and size |
| Esptool.CheckedOutput | TTLRx/Services/EsptoolService.cs:41-47 | exit 0 returns the trimmed combined output. Any other exit throws with it, and an exception of the call passes through |
| Esptool.TryChipId | TTLRx/Services/EsptoolService.cs:14-22 | the probe reports "ok" exactly when esptool exits 0 and its combined output contains `Chip is` ignoring case. A call that throws gives its message |
| Esptool.FirstMissingRequiredIsFirst | TTLRx/Services/EsptoolService.cs:31-36 | the segment the walk stops at is required and has no file, and every earlier segment is optional or has a file. None is found exactly when every required segment has a file |
| Esptool.CollectPairs | TTLRx/Services/EsptoolService.cs:29-39 | the segment loop stops at the first required segment without a file. Otherwise it builds exactly the kept pairs |
| Esptool.WriteClone | TTLRx/Services/EsptoolService.cs:24-48 | esptool is not started exactly when a required file is missing. When started, it runs once at the flashing rate with the kept pairs, and the exit rule decides the result |
| Esptool.ReadFlashCalls | TTLRx/Services/EsptoolService.cs:55-58 | one read per segment |
| Esptool.ReadFlashCallsPerSegment | TTLRx/Services/EsptoolService.cs:55-58 | the k-th read is of the k-th segment, at the flashing rate, into `{outputDir}\{label}.bin` |
| Esptool.ReadClone | TTLRx/Services/EsptoolService.cs:50-67 | the reads are issued in profile order and stop at the first one that fails, whose segment the error names. Success means every segment was read, and the result names the folder |
| Esptool.ReadMac | TTLRx/Services/EsptoolService.cs:69-76 | the MAC query succeeds exactly on exit 0, with the combined output |
| WinPath.CombineParts | TTLRx/Services/EsptoolService.cs:57 | `Path.Combine` ends with its second part. An empty first part or a rooted second part (a leading `\` or `/`, or an ASCII drive letter and `:`) gives the second part, and an empty second part gives the first. Otherwise the first part is kept as a prefix, and a `\` is inserted exactly when it does not end with a separator |
| WinPath.CombineAfterDrive | TTLRx/Services/EsptoolService.cs:57 | a bare drive `C:` is followed by a separator, and a digit before `:` does not make a path rooted |
| Strings.Truncate | TTLRx/Services/BatchRunner.cs:156 | a text within the width is kept. A longer one becomes its first `max` characters followed by `...` |
| Strings.TruncateIdempotent | Services/BatchRunner.cs:92-93 | clipping a clipped text to the same width changes nothing |
| TtlBatch.ReasonLineShape | TTLRx/Services/BatchRunner.cs:141-143 | every output line is trimmed and holds no line break |
| TtlBatch.HasPhraseFromIff | TTLRx/Services/BatchRunner.cs:145-151 | the phrase search from position `j` holds exactly when one of the phrases from `j` on occurs in the line ignoring case |
| TtlBatch.IsKeyLineIff | TTLRx/Services/BatchRunner.cs:145-151 | a line is a key line exactly when it contains one of the six failure phrases ignoring case |
| TtlBatch.ShortReasonChoice | TTLRx/Services/BatchRunner.cs:139-154 | the reason is the first key line when there is one. Otherwise it is the last line, or "" when there are no lines |
| TtlBatch.ShortReasonIsOneLine | TTLRx/Services/BatchRunner.cs:139-154 | the reason is one trimmed line |
| TtlBatch.ValidateFiles | TTLRx/Services/BatchRunner.cs:130-137 | the segment reported is the first required one whose path is missing, blank or absent from disk. None is reported exactly when every required segment's file is there, and optional segments never matter |
| TtlBatch.ValidatedWriteNeverMisses | TTLRx/Services/BatchRunner.cs:30 | once the file check passes, the write never stops for a missing file, and its result is the exit rule alone |
| TtlBatch.ChipFoundOfProcess | TTLRx/Services/BatchRunner.cs:104-105 | a probe sees the chip exactly when esptool exits 0 and names the chip |
| TtlBatch.Candidate | TTLRx/Services/BatchRunner.cs:107-108 | a short reason offered for the log is never blank |
| TtlBatch.BootNotesNeverRepeat | TTLRx/Services/BatchRunner.cs:98-121 | the boot wait never logs the same message twice in a row, starting from the last one logged |
| TtlBatch.BootNotesNoBlankReason | TTLRx/Services/BatchRunner.cs:107-112 | no blank short reason is ever logged |
| TtlBatch.DetectedIff | TTLRx/Services/BatchRunner.cs:100-105 | the wait detects the chip exactly when some probe sees it |
| TtlBatch.Probe | TTLRx/Services/BatchRunner.cs:102-122 | one probe: it finds the chip exactly when the answer sees it. Otherwise it gives the entry logged and the last message after it |
| TtlBatch.BootNotesStep | TTLRx/Services/BatchRunner.cs:100-125 | a probe that misses the chip adds its entry and the wait goes on with the next probe |
| TtlBatch.WaitForBoot | TTLRx/Services/BatchRunner.cs:95-128 | the wait gives true exactly when some probe sees the chip, and logs exactly the de-duplicated notes |
| TtlBatch.AnyWriteOkIff | TTLRx/Services/BatchRunner.cs:52-71 | an attempt from `a` on succeeds exactly when some write from `a` to `RetryFlashCount` succeeds |
| TtlBatch.AllFailWritesEveryAttempt | TTLRx/Services/BatchRunner.cs:52-85 | when every write fails, the write runs `RetryFlashCount + 1` times |
| TtlBatch.BackoffOnlyBetweenAttempts | TTLRx/Services/BatchRunner.cs:79-83 | every 800 ms pause follows a failed write and comes before the next attempt, so none follows the last attempt. The first step is the first write |
| TtlBatch.FlashAttempts | TTLRx/Services/BatchRunner.cs:51-85 | the attempts take the stated steps. The device is flashed exactly when some attempt succeeds, and `lastErr` ends null exactly then |
| TtlBatch.HandleDevice | TTLRx/Services/BatchRunner.cs:40-91 | one receiver gets the boot wait, and the attempts only once its chip is seen |
| TtlBatch.RunRounds | TTLRx/Services/BatchRunner.cs:38-92 | receivers are handled in order until one is not seen in time, which ends the run with the timeout and no loop-back. `ok` counts the receivers flashed, and `setOk` gets 1, 2, 3, … |
| TtlBatch.RunBatch | TTLRx/Services/BatchRunner.cs:28-93 | a missing required file ends the run before any receiver is probed, with `ok` at 0. Otherwise the run is as `RunRounds` states |
| TtlMainWindow.MacScan | TTLRx/MainWindow.xaml.cs:359-364 | the search gives "" or 17 characters of `[0-9a-fA-F:]` |
| TtlMainWindow.ExtractMac | TTLRx/MainWindow.xaml.cs:359-364 | the MAC found is "" or 17 characters of `[0-9a-fA-F:]` |
| TtlMainWindow.MacScanIsLeftmost | TTLRx/MainWindow.xaml.cs:362 | the search from `p` gives "" exactly when the pattern matches nowhere from `p`. Otherwise it gives the group of the leftmost match |
| TtlMainWindow.ExtractMacIsLeftmostMatch | TTLRx/MainWindow.xaml.cs:362-363 | "" exactly when `MAC:\s*([0-9a-fA-F:]{17})` matches nowhere. Otherwise the group of the leftmost match |
| TtlMainWindow.ExtractMacOfEsptoolLine | TTLRx/MainWindow.xaml.cs:361-363 | esptool's `MAC: 24:0a:c4:12:34:56` gives `24:0a:c4:12:34:56` |
| TtlMainWindow.MacBlankness | TTLRx/MainWindow.xaml.cs:322-325 | a MAC found is never blank, and blank output holds none |
| TtlMainWindow.CloneFolderRule | TTLRx/MainWindow.xaml.cs:318-330 | the clone goes to `selected\clone_{mac with dashes}` exactly when `read_mac` succeeded and names a MAC. Otherwise it goes to the chosen folder. The subfolder name has 23 characters and no colon |
| TtlMainWindow.BaudOf | TTLRx/MainWindow.xaml.cs:200-201 | the flashing rate is always positive |
| TtlMainWindow.BaudOfRoundTrip | TTLRx/MainWindow.xaml.cs:200-201 | a positive rate typed as digits, padded or not, is taken as typed |
| TtlMainWindow.BaudOfFallback | TTLRx/MainWindow.xaml.cs:200-201 | text that does not parse, or gives zero or less, gives 921600 |
| TtlMainWindow.StoredPathsUnnamed | TTLRx/MainWindow.xaml.cs:212-213 | a label that no box names, in any case, has no path |
| TtlMainWindow.StoredPathsLast | TTLRx/MainWindow.xaml.cs:212-213 | a label holds the trimmed text of the last box stored under it, ignoring case |
| TtlMainWindow.BuildConfig | TTLRx/MainWindow.xaml.cs:192-216 | no profile gives "Select receiver profile.". Then no port gives "Select COM port.". Otherwise the result is the configuration of the form, with every path box stored in order |
| TtlMainWindow.ConfigOfRates | TTLRx/MainWindow.xaml.cs:200-208 | a built configuration detects at 115200, flashes at a positive rate and keeps one retry |
| TtlMainWindow.RunGuard.constructor | TTLRx/MainWindow.xaml.cs:224 | the window starts with no run active |
| TtlMainWindow.RunGuard.StartClick | TTLRx/MainWindow.xaml.cs:222-241 | Start does nothing while a run is active. A form that does not build starts nothing, and a form that builds starts the run with its configuration |
| TtlMainWindow.RunGuard.ReadCloneClick | TTLRx/MainWindow.xaml.cs:281-306 | Read Clone does nothing while a run is active. It starts exactly for a form with a profile and a port and a folder chosen, with the configuration the form builds |
| TtlMainWindow.RunGuard.Finish | TTLRx/MainWindow.xaml.cs:266-271 | the `finally` always ends the run |
| TtlMainWindow.SecondClickIgnored | TTLRx/MainWindow.xaml.cs:224-283 | while a run is active, neither button starts anything, and the run stays active |
| OtaModels.NewBatchConfig | Services/Models.cs:5-11 | the defaults: no firmware, prefix `ExpressLRS RX`, password `expresslrs`, 20000 ms to join and per request, 8000 ms for the reboot |
| WlanText.FirstInterfaceValueIsFirstLine | Services/NetshWifiService.cs:36 | the pattern's group comes from its first `SSID :` line, and there is none exactly when no line has that head |
| WlanText.InLineGroupsStayInLine | Services/NetshWifiService.cs:49 | when white space is taken within its line, no captured name holds a line feed |
| WlanText.HiddenGroupsAsWritten | Services/NetshWifiService.cs:49 | on a hidden network line, the pattern captures the text of the next line |
| WlanText.HiddenGroupsInLine | Services/NetshWifiService.cs:49 | kept within its line, the same listing captures an empty name |
| WlanText.VisibleNamesShape | Services/NetshWifiService.cs:49-53 | the names are trimmed, not blank and distinct. Every non-blank trimmed group is among them, in order of first appearance |
| WlanText.VisibleNamesSnoc | RXTool/WifiHelper.cs:66-68 | one more group adds its trimmed text exactly when that text is not blank and not yet listed |
| WlanText.ShowsSsidOfLine | RXTool/WifiHelper.cs:54-55 | a name alone on the rest of an interface `SSID :` line counts as the connected network |
| WlanText.SecurityXmlHolds | Services/NetshWifiService.cs:131-161 | the security block names its method, `open` or `WPA2PSK`, and a shared key's block holds its key material in the `keyMaterial` element |
| WlanText.SecurityInDocument | RXTool/WifiHelper.cs:133-159 | a document that holds a security block says the same about the security |
| WlanText.EscapedRoundTrip | Services/NetshWifiService.cs:167-169 | reading the entities back gives the text again |
| WlanText.EscapedIdentity | Services/NetshWifiService.cs:167-169 | a text without reserved characters is its own escape |
| WlanText.EscapedHasNoMarkup | Services/NetshWifiService.cs:167-169 | no `<`, `>`, `"` or `'` is left in an escaped text |
| NetshWifi.ConnectedSsidRule | Services/NetshWifiService.cs:30-43 | no `SSID :` line gives null. A name given is the trimmed value of the first such line, is not empty and does not say "not connected" or `не подключ`. A first line that passes those tests is given |
| NetshWifi.VisibleSsidsShape | Services/NetshWifiService.cs:45-55 | in both readings the names listed are trimmed, not blank and distinct. In the corrected reading, every captured group that is not blank is listed |
| NetshWifi.HiddenNetworkTakesNextLine | Services/NetshWifiService.cs:49 | a hidden network's empty name makes the pattern list the next line's text as a network. The corrected reading lists nothing |
| NetshWifi.VisibleSsidsInLineStayInLine | Services/NetshWifiService.cs:49-53 | in the corrected reading every listed name comes from one line |
| NetshWifi.EscIsEscaped | Services/NetshWifiService.cs:167-169 | the five chained `Replace` calls, `&` first, write every reserved character as its entity and keep every other |
| NetshWifi.EscProperties | Services/NetshWifiService.cs:167-169 | `Esc` is undone by reading the entities back. It leaves no `<`, `>`, `"` or `'`, and it is the identity on text with no reserved character |
| NetshWifi.ProfileRule | Services/NetshWifiService.cs:114-165 | the profile name reads back as the network. The profile is open, with no key, exactly when the password is null or empty. Otherwise its key reads back as the password |
| NetshWifi.ProfileXmlParts | Services/NetshWifiService.cs:118-137 | the document names the profile in its `<name>` line and in the SSID element, and holds its security block whole |
| NetshWifi.ProfileDocument | Services/NetshWifiService.cs:114-137 | the document names the escaped network in both `<name>` elements, and says `open` when the password is null or empty |
| NetshWifi.ProfileDocumentKey | Services/NetshWifiService.cs:140-164 | for any other password it says `WPA2PSK` and holds the escaped password as its key material |
| NetshWifi.EnsureProfileRule | Services/NetshWifiService.cs:57-93 | delete first, then add for the current user. Add for all users exactly when the first add exits non-zero. Fail exactly when both adds exit non-zero, and a call that throws ends the operation |
| NetshWifi.Connect | Services/NetshWifiService.cs:95-112 | the connect loop ends as `ConnectOutcome` says, after the polls up to the one that ends the wait |
| NetshWifi.ConnectStopsAt | Services/NetshWifiService.cs:102-106 | a poll showing the network, after polls that all left the wait going, is the one the wait stops at |
| NetshWifi.ConnectOutcomeRule | Services/NetshWifiService.cs:95-112 | the connection succeeds exactly when the request is answered and some poll shows the network ordinally, every earlier poll showing another network or none |
| NetshWifi.ConnectWaitsOut | Services/NetshWifiService.cs:102-111 | leaving the loop without a match throws the connect timeout, or the cancellation that cut the last pause |
| ElrsOta.WaitWebRule | Services/ElrsOtaService.cs:26-42 | the page is up exactly when some poll got a success status. The wait gives false only when none did and no cancellation cut a pause |
| ElrsOta.WaitWeb | Services/ElrsOtaService.cs:26-42 | the poll loop ends as `WaitWebOutcome` says, after the polls up to the first success |
| ElrsOta.TagRunEnd | Services/ElrsOtaService.cs:50 | `[^>]*` stops at the first `>` or at the end |
| ElrsOta.ValueEnd | Services/ElrsOtaService.cs:50 | `[^"']*` stops at the first quote or at the end |
| ElrsOta.ValueEndSpan | Services/ElrsOtaService.cs:50 | the characters passed over are no quotes |
| ElrsOta.QuoteAfter | Services/ElrsOtaService.cs:50 | the opening quote of `word\s*=\s*["']` lies after the word |
| ElrsOta.ValueAt | Services/ElrsOtaService.cs:50 | an attribute value lies after its word and is closed by a quote |
| ElrsOta.ValueAtShape | Services/ElrsOtaService.cs:50 | an attribute value follows a quote, is not empty and holds no quote |
| ElrsOta.FormActionAt | Services/ElrsOtaService.cs:50 | a form match at `p` gives a span inside the text |
| ElrsOta.FileTypeEnd | Services/ElrsOtaService.cs:59 | `type="file"` ends after where it starts |
| ElrsOta.NameAfter | Services/ElrsOtaService.cs:59 | a name attribute value is a span inside the text |
| ElrsOta.FileInputAt | Services/ElrsOtaService.cs:59 | a file-input match at `p` gives a span inside the text |
| ElrsOta.FormActionFirst | Services/ElrsOtaService.cs:50-51 | the form pattern's result is the group of its leftmost match, and it fails exactly when it matches nowhere |
| ElrsOta.FormActionAtRule | Services/ElrsOtaService.cs:50 | a match is a `<form` tag whose group is the last complete action value before the tag's `>`, not empty and without quotes |
| ElrsOta.FileFieldFirst | Services/ElrsOtaService.cs:59-61 | the file-input pattern's result is the group of its leftmost match, and it fails exactly when it matches nowhere |
| ElrsOta.FileInputAtRule | Services/ElrsOtaService.cs:59-60 | a match is an `<input` tag with `type="file"` followed by a name attribute, and its group is that name, not empty and without quotes |
| ElrsOta.RootedPath | Services/ElrsOtaService.cs:54 | the path starts with `/`. It is the action itself exactly when that already starts with `/`, and otherwise `/` plus the action |
| ElrsOta.DetectUploadFormRule | Services/ElrsOtaService.cs:44-65 | the defaults are `/update` and `upload`. The path is the trimmed action, rooted, and always starts with `/`. The field is the trimmed name, and a failed fetch passes its exception on |
| ElrsOta.ReplyResult | Services/ElrsOtaService.cs:92-98 | a success status returns the body. Any other status throws `HTTP {code}: {body}`, and a failed request passes its exception on |
| ElrsOta.UploadFirmwareRule | Services/ElrsOtaService.cs:67-99 | a page that cannot be fetched ends the upload before the POST. The POST goes to `http://10.0.0.1` plus the detected path, with the detected field, the file's name and `X-FileSize` set to its length |
| OtaBatch.PickRxRule | Services/BatchRunner.cs:35-38 | the pick is the first visible name with an ordinal prefix of `RxSsid` (prefix mode) or equal to it. None is picked exactly when no name passes |
| OtaBatch.NotFoundRoundIsQuiet | Services/BatchRunner.cs:40-45 | a pass that finds no access point makes no profile call, no join and no upload. It ends the run only when a cancellation cuts its pause |
| OtaBatch.JoinedRoundRule | Services/BatchRunner.cs:50-85 | after the pick, the pass joins. It counts only after a join, the page answering and the device accepting the POST. A silent page throws the web timeout, and the reconnect is tried only after a counted upload to a known network, without changing the pass |
| OtaBatch.UploadedRoundRule | Services/BatchRunner.cs:32-67 | a counted upload implies a picked access point, its profile added, the join made, the page up and the POST accepted |
| OtaBatch.WebTimeoutEndsRun | Services/BatchRunner.cs:57-58 | a page that never answers uploads nothing and ends the run with the TimeoutException |
| OtaBatch.ReconnectRule | Services/BatchRunner.cs:74-85 | going back is tried exactly after a counted upload whose reboot wait was not cut, when the original network is not blank. Whatever it meets, the pass comes out the same |
| OtaBatch.HandleRound | Services/BatchRunner.cs:31-88 | one pass of the loop is the round `RoundOf` gives, the access point picked from the listing read with the pattern as written |
| OtaBatch.RunRounds | Services/BatchRunner.cs:29-89 | passes run in order until one throws. `ok` counts the uploads that went through, and `setOkCount` gets 1, 2, 3, … |
| OtaBatch.RunBatch | Services/BatchRunner.cs:14-90 | a blank or missing firmware path throws before any Wi-Fi call. A failed read of the current network throws. Otherwise the passes run as `RunRounds` states, against the network read at the start |
| RxConfig.NewWifiMatch | RXTool/ConfigModels.cs:82-86 | the default match is mode `exact` with an empty value |
| RxConfig.NewWifiConfig | RXTool/ConfigModels.cs:73-77 | the default Wi-Fi settings are the default match with an empty password |
| RxConfig.NewUploadConfig | RXTool/ConfigModels.cs:91-98 | the default is `http://10.0.0.1/update`, field `upload` and header `X-FileSize` |
| RxConfig.NewBindPhrase | RXTool/ConfigModels.cs:103-107 | the default bind phrase is unnamed, with a UID of six zeros |
| RxConfig.NewBindRequest | RXTool/ConfigModels.cs:112-116 | the default bind URL is `http://10.0.0.1/config`, with no template |
| RxConfig.NewDomainRequest | RXTool/ConfigModels.cs:121-131 | the default posts an empty body to `http://10.0.0.1/options.json`, then reboots through `http://10.0.0.1/reboot` |
| RxConfig.NewFrequencyPreset | RXTool/ConfigModels.cs:61-68 | a new preset has no name and neither frequency |
| RxConfig.NewFirmwareConfig | RXTool/ConfigModels.cs:16-41 | a new firmware has every part at its default and no receivers |
| RxWifi.FindIsFirst | RXTool/WifiHelper.cs:81 | `Find` gives the first element satisfying the test, and null exactly when none does |
| RxWifi.PickSsidRule | RXTool/WifiHelper.cs:73-94 | a blank value picks nothing. Otherwise the pick is the first visible name equal to the value ignoring case (exact or unknown mode), the first with it as a prefix (`startswith`), or the first the pattern matches (`regex`). It is always a visible name |
| RxWifi.ExactModeIgnoresCase | RXTool/WifiHelper.cs:75 | a mode in any case and with surrounding spaces selects like a null mode |
| RxWifi.CollectNames | RXTool/WifiHelper.cs:62-70 | the `Contains`-checked list loop builds exactly the visible names of the groups |
| RxWifi.VisibleNamesStep | RXTool/WifiHelper.cs:66-68 | one more group extends the list exactly when its trimmed text is not blank and not yet listed |
| RxWifi.GetVisibleSsids | RXTool/WifiHelper.cs:58-71 | the list built is the visible names of the listing, read with the pattern as written |
| RxWifi.VisibleSsidsShape | RXTool/WifiHelper.cs:58-71 | the names are trimmed, not blank and distinct. Every non-blank group the pattern as written captures is listed |
| RxWifi.VisibleSsidsInLineShape | RXTool/WifiHelper.cs:63 | read within its line, the names are trimmed, not blank, distinct and each from one line, and every non-blank group is listed |
| RxWifi.HiddenNetworkListedAsWritten | RXTool/WifiHelper.cs:63 | as written, a hidden network makes the pattern list the next line's text. Kept within its line, it lists nothing |
| RxWifi.ProfileForRule | RXTool/WifiHelper.cs:120-163 | the profile name reads back as the network. The profile is open exactly when the password is null or white space. Otherwise its key reads back as the password |
| RxWifi.ProfileXmlParts | RXTool/WifiHelper.cs:124-139 | the document names the profile in its `<name>` line and in the one-line SSID element, and holds its security block whole |
| RxWifi.ProfileDocument | RXTool/WifiHelper.cs:120-139 | the document names the escaped network in both `<name>` elements, and says `open` when the password is null or white space |
| RxWifi.ProfileDocumentKey | RXTool/WifiHelper.cs:142-162 | for any other password it says `WPA2PSK` and holds the escaped password as its key material |
| RxWifi.SpacesPasswordIsOpen | RXTool/WifiHelper.cs:122 | a password of spaces gives an open profile |
| RxWifi.FirstLineRule | RXTool/WifiHelper.cs:185-191 | the first line holds no line break and is trimmed. It is "" for blank text, and the whole trimmed text, with `\r` removed, when there is no `\n` |
| RxWifi.EnsureProfileCallsRule | RXTool/WifiHelper.cs:96-112 | the profiles are listed first, and the old profile is deleted exactly when its name occurs in the list ignoring case. The last command adds a profile that names the network |
| RxWifi.WaitPass | RXTool/WifiHelper.cs:20-39 | one pass gives its pick, its commands and whether it joined |
| RxWifi.WaitAndConnect | RXTool/WifiHelper.cs:14-49 | the wait gives the name the first joining pass picked, or null, after the commands of the passes up to that one |
| RxWifi.WaitOutcomeRule | RXTool/WifiHelper.cs:18-48 | a name given was picked among the visible networks, is not blank, and was then shown as connected. Null is given exactly when no pass joins |
| RxWifi.PassConnect | RXTool/WifiHelper.cs:23-28 | in one pass, a connection is to the picked name, right after its profile is added |
| RxWifi.ConnectsOnlyToPicked | RXTool/WifiHelper.cs:20-32 | every connection requested is to a name some pass picked, with its profile added just before |
| RxApi.ReplyTextRule | RXTool/RxApi.cs:64-69 | the logged reply has no line break and at most 183 characters. It is "" for blank text and the text itself for a short single line |
| RxApi.EnsureSuccessRule | RXTool/RxApi.cs:19-27 | the status check passes exactly when a ping would count the receiver as up. Otherwise the error is the status and reason, the exception or the cancellation |
| RxApi.ReadCount | RXTool/RxApi.cs:95 | no more reads deliver bytes than are made |
| RxApi.WrapInt32 | RXTool/RxApi.cs:100 | the `(int)` cast lies in 32 bits and keeps a value already in range |
| RxApi.SerializeToStream | RXTool/RxApi.cs:89-103 | the bytes written are the bytes read, in order, until the first empty read. The reports are those after each read, then 100 |
| RxApi.SentGrows | RXTool/RxApi.cs:95-98 | the bytes sent after more reads extend those sent after fewer, strictly when the last read delivered bytes |
| RxApi.ChunkReportsAt | RXTool/RxApi.cs:98-100 | the report after read `k` is `sent*100/total` for the bytes sent through that read |
| RxApi.PercentMonotone | RXTool/RxApi.cs:100 | the percentage grows with the bytes sent and lies in 0..100 up to the total, where it is 100 |
| RxApi.ReportsRiseAt | RXTool/RxApi.cs:95-100 | the reports after two reads in order are in order and in 0..100 |
| RxApi.ReportsRise | RXTool/RxApi.cs:95-100 | while the stream gives no more than the total, the per-read reports never decrease and lie in 0..100 |
| RxApi.SerializeRule | RXTool/RxApi.cs:95-102 | every read before the end delivers bytes. There is one report per read only with a sink and a positive total, and the last report is 100 whenever there is a sink |
| RxApi.ChunkReportsLength | RXTool/RxApi.cs:99 | one report per read with a sink and a positive total, none otherwise |
| RxApi.Upload | RXTool/RxApi.cs:29-53 | the upload method, with the body streamed, gives the `UploadOutcome` run |
| RxApi.UploadRule | RXTool/RxApi.cs:29-53 | a missing file throws "Firmware not found" before any request or log line. Success means the file exists and the answer is 2xx, and an answered request logs the clipped reply |
| RxApi.UploadReportsEnd | RXTool/RxApi.cs:102 | with a progress sink, an upload's last report is 100 |
| RxApi.UploadRequestRule | RXTool/RxApi.cs:39-47 | the request goes to the configured URL and field under the file's name. It announces the file's length (`TryComputeLength`) and streams the file's bytes, and it carries the size header exactly when its name is not blank |
| RxApi.PostJsonRule | RXTool/RxApi.cs:55-62 | the text is posted unchanged and succeeds exactly on a 2xx answer. An answer is logged under its tag, and an exception is passed on without a log line |
| JsonTemplate.UidTexts | RXTool/JsonTemplate.cs:19 | one text per UID value |
| JsonTemplate.BuildBindJsonErrors | RXTool/JsonTemplate.cs:10-26 | a null UID, or one not of six values, is refused first. Then a value outside 0..255 is refused. Every other case with a template builds |
| JsonTemplate.UidJsonChars | RXTool/JsonTemplate.cs:19 | the array text is brackets, digits and commas |
| JsonTemplate.PlaceholderReplaced | RXTool/JsonTemplate.cs:23 | no `"$UID6"` is left in a built body |
| JsonTemplate.NoPlaceholderUnchanged | RXTool/JsonTemplate.cs:23 | a template without the placeholder is sent as it is |
| JsonTemplate.UidTextsReadBack | RXTool/JsonTemplate.cs:19 | each array element is the decimal text of its UID value and reads back as it |
| RxMainForm.ElementAt | RXTool/MainForm.cs:163-165 | an index outside the list gives null, and an index inside gives the element there |
| RxMainForm.GettersRule | RXTool/MainForm.cs:161-190 | each getter gives null exactly when its index is outside its list (a receiver also needs a firmware), and otherwise the element at the index |
| RxMainForm.LoadedSelectionRule | RXTool/MainForm.cs:105-145 | after loading, every list whose parent has entries shows its first entry |
| RxMainForm.DomainBodyRule | RXTool/MainForm.cs:207-218 | the body has the base keys plus `freq1` and `freq2` exactly when those values are present. It holds those values, and every other base entry is unchanged |
| RxMainForm.DomainBodyOfEmptyPreset | RXTool/MainForm.cs:209 | a preset without values posts the base body as it is |
| RxMainForm.ValidUidMatchesBuilder | RXTool/MainForm.cs:285-289 | the UID guard refuses exactly the UIDs the body builder refuses. Past it, building fails only for a missing template |
| RxMainForm.FlashGuardRule | RXTool/MainForm.cs:229-236 | "Flash" refuses a missing firmware, then a path that is blank or names no file. It accepts every other case with the selected firmware |
| RxMainForm.SetGuardRule | RXTool/MainForm.cs:273-289 | "Set" checks firmware, receiver, bind phrase, frequency and UID in order. What it accepts is the four selected entries with a valid UID |
| RxMainForm.OutcomeOf | RXTool/MainForm.cs:318-325 | a request error stops the handler exactly when it is a cancellation |
| RxMainForm.DomainStretchRule | RXTool/MainForm.cs:304-316 | the domain post goes first, and the reboot follows exactly when it is wanted and the domain post succeeded. The stretch carries on exactly when every post sent succeeds and the wait is not cancelled |
| RxMainForm.SetRunPosts | RXTool/MainForm.cs:294-316 | nothing is posted unless the network was joined and the receiver answered. The posts are a prefix of bind, domain and (when wanted) reboot, each sent only after the one before it succeeded |
| RxMainForm.SetRunDone | RXTool/MainForm.cs:294-325 | "Set" ends DONE exactly when the join, the ping, the body and every post succeed and the reboot wait is not cancelled. Its last line tells how it ended |
| RxMainForm.SetRunWithoutTemplate | RXTool/MainForm.cs:300 | a missing template stops "Set" with the invalid-operation message before any post |
| RxMainForm.Clamp | RXTool/MainForm.cs:247 | the value is brought into the bounds and kept when already inside |
| RxMainForm.BarValuesRule | RXTool/MainForm.cs:247 | the bar shows one value per report, each clamped to 0..100 |
| RxMainForm.FlashOutcomeRule | RXTool/MainForm.cs:242-261 | "Flash" uploads only after a join and a ping. It ends DONE exactly when the file is there and the upload is answered 2xx, and its last line tells how it ended |
| RxMainForm.FlashBarReachesFull | RXTool/MainForm.cs:247-250 | once the file has been streamed, the bar reaches 100 |
| RxMainForm.EnsureWifiAndPing | RXTool/MainForm.cs:192-205 | the method logs the wait and the check, issues the Wi-Fi commands, and fails for no network or no answer |
| RxMainForm.FlashSteps | RXTool/MainForm.cs:242-261 | the `try` of "Flash" gives the `FlashOutcome` run |
| RxMainForm.RebootSteps | RXTool/MainForm.cs:310-313 | the reboot post and its wait give `RebootStretch` |
| RxMainForm.DomainSteps | RXTool/MainForm.cs:304-314 | the domain post and the reboot give `DomainStretch` |
| RxMainForm.ApplySteps | RXTool/MainForm.cs:300-316 | the bind body, its post and the frequencies give `ApplyStretch` |
| RxMainForm.SetSteps | RXTool/MainForm.cs:294-325 | the `try` of "Set" gives the `SetRun` stretch |
| RxMainForm.ShowProgress | RXTool/MainForm.cs:247 | the progress sink shows the clamped reports in order |
| RxMainForm.MainForm.constructor | RXTool/MainForm.cs:88-118 | the window starts with the loaded selection, not busy, and with the bar at 0 |
| RxMainForm.MainForm.DoFlashOnly | RXTool/MainForm.cs:227-269 | a refused run only logs its reason. An accepted one logs the run, shows 0, the clamped reports and 0 again, and ends not busy |
| RxMainForm.MainForm.RunFlash | RXTool/MainForm.cs:238-268 | the accepted part of "Flash", with the `finally` giving back the buttons and resetting the bar |
| RxMainForm.MainForm.DoSetBindAndDomain | RXTool/MainForm.cs:271-332 | a refused run only logs its reason and posts nothing. An accepted one logs and posts as `SetRun` says, and ends not busy |
| RxMainForm.MainForm.RunSet | RXTool/MainForm.cs:291-331 | the accepted part of "Set", with the `finally` giving back the buttons |

## Left out

These parts of the source are not part of this model:

**Processes, network and files**
- Running esptool and `netsh` in TTLRx and Services (`ProcessRunner`, `FlashRunner`, `NetshWifiService.Run`): each call is answered by a process outcome as input.
- RxWifi.WaitAndConnect: RXTool's `RunNetsh` (RXTool/WifiHelper.cs:165-181) is modelled as always answering with the text it prints. A `Process.Start` that fails throws out of the wait, and `MainForm` logs it as `ERROR:`; this is not modelled.
- The HTTP transport, multipart encoding and the client timeouts: an exchange is answered by a status and a body, an exception, or (in RXTool) a cancellation.
- The `file_name` form part of the OTA upload: the model records the request's URL, field, file name and size header, not its form layout.
- The 64 KiB read buffer: the file stream is the list of chunks its reads deliver.
- RxApi.Upload: a send that fails is modelled as failing after the body has been streamed, so its progress reports are those of the whole file.
- File system effects as such: `File.Exists`, `Directory.CreateDirectory`, and writing and deleting the temporary profile files. File existence is a predicate given to the operation.
- A file vanishing between the existence check and its use.
- `ProfilesService` (loading profiles from JSON files).
- `AppConfig.FromJson` and `LoadConfig`'s file reading: the RXTool window is built from the loaded configuration.

**JSON**
- `JsonSerializer`, `JsonElement.GetRawText` and `SerializeToElement`:
  - the template is its raw text;
  - the domain body is a map of opaque values;
  - its serialisation is the `serialize` parameter, so key order is not modelled.

**Time and cancellation**
- `Task.Delay`, `Stopwatch` and `Environment.TickCount64`: a polling loop gets the answers of the polls that start before its deadline.
- Cancellation: a flag says that a cancellation cut a pause.
- Which exception a cut pause throws, and when the operator's Stop is seen between passes, are inputs, not timings.
- RXTool passes the cancellation token neither to the Wi-Fi wait nor to the ping. The model agrees: those steps cannot be cancelled there.
- `Progress<int>` posts its reports to the UI thread asynchronously. The model applies them in order, before the `finally` resets the bar.

**Text handling**
- Case folding covers the ASCII and the Russian letters only, and white space is the ASCII white space characters.
- The culture-sensitive `StartsWith` of `ElrsOtaService` (line 54) is taken as ordinal.
- `SecurityElement.Escape` (RXTool/WifiHelper.cs:126, 158) is a library call. It is taken to write the same five entities as `Esc` (`WlanText.Escaped`).
- The user-supplied pattern of the `regex` match mode is an `isMatch` predicate given to `PickSsid`. An invalid pattern, which throws, is not modelled.
- Log line texts, timestamps and their interleaving:
  - the batch runners' log calls are not modelled, except the de-duplicated boot-wait notes, the clipped OTA response and the RXTool handler lines;
  - RXTool's Wi-Fi helper log lines are not written into the window's log.
- .NET's exception message texts are modelled only where the source writes them itself. `EnsureSuccessStatusCode`'s text is a datatype value.

**Arithmetic**
- RxApi.ReportsRise: holds only while the stream delivers no more than the announced total. Past it, the `(int)` cast of the percentage (modelled by `WrapInt32`) is not proved monotone.
- RxApi.PercentMonotone: `sent * 100L` is taken not to overflow 64 bits.

**UI**
- Window layout, `SetBusy`, `SetStatus` and button enabling.
- The TTLRx `SetProgress`, which clamps a floating-point value, and the OK counter display (`Dispatcher.Invoke`).
- The TTLRx MainWindow's segment inputs (`RenderSegmentInputs`), its profile list and its port list.
- The root `MainWindow.xaml.cs` (UI glue of the OTA flasher).
- RXTool's selection changes by the user after loading and `PickFirmware`'s dialog: the selection is part of the window's state.

**Weaker contracts**
- TtlMainWindow.RunGuard.StartClick: the run itself and the `finally` are separate (`TtlBatch.RunBatch` and `RunGuard.Finish`). The click states only whether a run starts and with which configuration.
- Esptool.KeptPairs: its own contract bounds only the count. The pairs themselves are stated by `KeptPairsAreSegmentsWithFiles`.

## Findings

| source | as written | input that shows it | evidently intended | confidence | as-written member | corrected member |
|---|---|---|---|---|---|---|
| Services/NetshWifiService.cs:49 | `^\s*SSID\s+\d+\s*:\s*(.*)\s*$`, multi-line: the `\s*` after the colon also matches line breaks, so a hidden network (listed with an empty name) captures the text of the next line as a network name | `SSID 1 :\r\n x` lists `x` | a network line gives the name on its own line, and a hidden network gives nothing | not executed | NetshWifi.HiddenNetworkTakesNextLine | NetshWifi.VisibleSsidsInLineStayInLine |
| RXTool/WifiHelper.cs:63 | the same pattern, ignoring case, in `GetVisibleSsids` | `SSID 1 :\r\n x` lists `x` | as above | not executed | RxWifi.HiddenNetworkListedAsWritten | RxWifi.VisibleSsidsInLineShape |

In each case both readings are modelled. `NetshWifi.VisibleSsids` and
`RxWifi.VisibleSsids` read the listing as written, and the batch run and the
Wi-Fi wait use them, as the tools do. `NetshWifi.VisibleSsidsInLine` and
`RxWifi.VisibleSsidsInLine` read it as intended, and are proved to give only
names that each come from one line.
