/**
 * The settings of the Wi-Fi OTA batch flasher: the firmware file, how the
 * receiver's access point is recognised and joined, and the timing knobs.
 */
module OtaModels {
  import opened Wrappers
  import opened Strings

  /**
   * `BatchConfig`. `rxPassword` is nullable: a missing or empty password
   * means the receiver's access point is open.
   */
  datatype BatchConfig = BatchConfig(
    firmwarePath: string,
    rxSsid: string,
    rxPassword: Option<string>,
    ssidIsPrefix: bool,
    connectTimeoutMs: int,
    httpTimeoutMs: int,
    afterUploadWaitMs: int)

  /**
   * `new BatchConfig()`: no firmware chosen yet; access points whose name
   * starts with "ExpressLRS RX" are joined with the ExpressLRS default
   * password; twenty seconds to join and for each HTTP request, and eight
   * for the receiver to reboot after an upload.
   */
  function NewBatchConfig(): (c: BatchConfig)
    ensures c.firmwarePath == "" && IsBlank(c.firmwarePath)
    ensures c.rxSsid == "ExpressLRS RX" && c.ssidIsPrefix
    ensures c.rxPassword == Some("expresslrs") && !IsNullOrEmpty(c.rxPassword)
    ensures c.connectTimeoutMs == 20000 && c.httpTimeoutMs == 20000
    ensures c.afterUploadWaitMs == 8000
  {
    BatchConfig("", "ExpressLRS RX", Some("expresslrs"), true, 20000, 20000, 8000)
  }
}
