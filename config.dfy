/** The mutation rules the engine is given (the deserialised YAML configuration). */
module Configuration {

  /** One mutation rule: in `file`, inside the function `functionName`, replace the
      expression `original` with `replacement`. */
  datatype MutationConfig = MutationConfig(
    file: string,
    functionName: string,
    original: string,
    replacement: string,
    id: string)

  /** Per-run settings; `timeout` is in seconds. */
  datatype Settings = Settings(timeout: nat)

  datatype Config = Config(version: string, settings: Settings, mutations: seq<MutationConfig>)

  /** The timeout used when the configuration gives none. */
  const DefaultTimeout: nat := 30
}
