/** The verifier's configuration record and its built-in default. */
module Configuration {
  import opened JsValue
  import opened Constants

  /** The fields of the configuration record; both durations are in milliseconds. */
  datatype Config = Config(
    replayVerify: bool,
    replayThreshold: int,
    requestTimeout: int,
    region: string,
    customRegionUrl: Option<string>)

  /** `defaultConfig`: replay checking on, a five-minute window, a thirty-second
      request timeout, the first region, no custom endpoint. */
  const DefaultConfig: Config := Config(true, 5 * 60 * 1000, 30 * 1000, Regions[0], None)

  /** The default record, field by field. */
  lemma DefaultConfigValues()
    ensures DefaultConfig.replayVerify
    ensures DefaultConfig.replayThreshold == 300000 && DefaultConfig.replayThreshold > 0
    ensures DefaultConfig.requestTimeout == 30000 && DefaultConfig.requestTimeout > 0
    ensures DefaultConfig.region == Regions[0] == "NA"
    ensures DefaultConfig.region in Regions
    ensures DefaultConfig.customRegionUrl.None?
  {
  }
}
