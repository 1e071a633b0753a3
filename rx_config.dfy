/**
 * The configuration of the RX tool: flashing settings, the receiver's
 * access point and the HTTP requests that set the bind phrase and the
 * frequency, one set per firmware.
 */
module RxConfig {
  import opened Wrappers

  /**
   * A body value of the domain request: a number the tool writes itself, or
   * any other JSON value, kept as its raw text.
   */
  datatype JsonValue = JsonNumber(n: int) | JsonRaw(text: string)

  /** How the receiver's access point is recognised: `mode` is exact, startsWith or regex. Both may be null. */
  datatype WifiMatch = WifiMatch(mode: Option<string>, value: Option<string>)

  /** `new WifiMatch()`: exact match on an empty name. */
  function NewWifiMatch(): (m: WifiMatch)
    ensures m.mode == Some("exact") && m.value == Some("")
  {
    WifiMatch(Some("exact"), Some(""))
  }

  /** The access point of a firmware and its password (null or blank for an open one). */
  datatype WifiConfig = WifiConfig(matching: WifiMatch, password: Option<string>)

  function NewWifiConfig(): (w: WifiConfig)
    ensures w.matching == NewWifiMatch() && w.password == Some("")
  {
    WifiConfig(NewWifiMatch(), Some(""))
  }

  /** Where and how the firmware file is posted; the size header may be null or blank. */
  datatype UploadConfig = UploadConfig(url: string, fileField: string, fileSizeHeader: Option<string>)

  /** `new UploadConfig()`: the ExpressLRS update page, field `upload`, header `X-FileSize`. */
  function NewUploadConfig(): (u: UploadConfig)
    ensures u.url == "http://10.0.0.1/update" && u.fileField == "upload" && u.fileSizeHeader == Some("X-FileSize")
  {
    UploadConfig("http://10.0.0.1/update", "upload", Some("X-FileSize"))
  }

  /** A named bind phrase and its six-byte UID; the UID may be null or of any length in the file. */
  datatype BindPhrase = BindPhrase(name: string, uid: Option<seq<int>>)

  /** `new BindPhrase()`: no name and the UID `new int[6]`, six zeros. */
  function NewBindPhrase(): (b: BindPhrase)
    ensures b.name == "" && b.uid.Some? && |b.uid.value| == 6
    ensures forall i :: 0 <= i < 6 ==> b.uid.value[i] == 0
  {
    BindPhrase("", Some([0, 0, 0, 0, 0, 0]))
  }

  /**
   * The bind request: its URL and the raw text of its JSON template. A
   * template missing from the file is the default `JsonElement`, whose raw
   * text cannot be read; it is `None` here.
   */
  datatype BindRequest = BindRequest(url: string, template: Option<string>)

  function NewBindRequest(): (b: BindRequest)
    ensures b.url == "http://10.0.0.1/config" && b.template.None?
  {
    BindRequest("http://10.0.0.1/config", None)
  }

  /** The frequency request: its URL, the body it starts from, and whether and where to reboot afterwards. */
  datatype DomainRequest = DomainRequest(url: string, baseBody: map<string, JsonValue>, needReboot: bool, rebootUrl: Option<string>)

  /** `new DomainRequest()`: the options page, an empty body, and a reboot through `/reboot`. */
  function NewDomainRequest(): (d: DomainRequest)
    ensures d.url == "http://10.0.0.1/options.json" && d.baseBody == map[]
    ensures d.needReboot && d.rebootUrl == Some("http://10.0.0.1/reboot")
  {
    DomainRequest("http://10.0.0.1/options.json", map[], true, Some("http://10.0.0.1/reboot"))
  }

  /** A named frequency preset; either frequency may be absent. */
  datatype FrequencyPreset = FrequencyPreset(name: string, freq1: Option<int>, freq2: Option<int>)

  function NewFrequencyPreset(): (f: FrequencyPreset)
    ensures f.name == "" && f.freq1.None? && f.freq2.None?
  {
    FrequencyPreset("", None, None)
  }

  /** A receiver type: its bind phrases and its frequency presets. */
  datatype ReceiverConfig = ReceiverConfig(id: string, name: string, bindPhrases: seq<BindPhrase>, frequencies: seq<FrequencyPreset>)

  /** A firmware: its access point, upload settings, requests and receiver types. */
  datatype FirmwareConfig = FirmwareConfig(
    id: string,
    name: string,
    wifi: WifiConfig,
    upload: UploadConfig,
    bindRequest: BindRequest,
    domainRequest: DomainRequest,
    receivers: seq<ReceiverConfig>)

  /** `new FirmwareConfig()`: every part at its default, no receivers. */
  function NewFirmwareConfig(): (f: FirmwareConfig)
    ensures f.wifi == NewWifiConfig() && f.upload == NewUploadConfig()
    ensures f.bindRequest == NewBindRequest() && f.domainRequest == NewDomainRequest()
    ensures f.id == "" && f.name == "" && f.receivers == []
  {
    FirmwareConfig("", "", NewWifiConfig(), NewUploadConfig(), NewBindRequest(), NewDomainRequest(), [])
  }

  datatype AppConfig = AppConfig(firmwares: seq<FirmwareConfig>)
}
