/**
 * The guardian's configuration: a record of settings with defaults, and the
 * range check that a compaction threshold must pass before it is adopted.
 */
module Configuration {

  /** The settings of one guardian. Paths are kept as the text of the path. */
  datatype Config = Config(
    threshold: int,           // compaction threshold, a percentage
    checkInterval: int,       // seconds between checks
    historyFile: string,      // where the history document is saved
    stateFile: string,        // where transient state is kept
    logLevel: string,         // DEBUG, INFO, WARNING or ERROR
    dryRun: bool,             // when set, compaction is skipped but still recorded
    openclawTimeout: int,     // seconds allowed for the status probe
    compactionTimeout: int)   // seconds allowed for the compaction command

  const DefaultThreshold: int := 75
  const DefaultCheckInterval: int := 300
  const DefaultHistoryFile: string := "/tmp/context-guardian.json"
  const DefaultStateFile: string := "/tmp/context-guardian-state.json"
  const DefaultLogLevel: string := "INFO"
  const DefaultOpenclawTimeout: int := 10
  const DefaultCompactionTimeout: int := 60

  /** The bounds of the accepted threshold range, both included. */
  const MinThreshold: int := 50
  const MaxThreshold: int := 95

  /** `Config()`: every field at its default. */
  function Defaults(): (c: Config)
    ensures c.threshold == 75 && c.checkInterval == 300
    ensures c.historyFile == "/tmp/context-guardian.json"
    ensures c.stateFile == "/tmp/context-guardian-state.json"
    ensures c.logLevel == "INFO" && !c.dryRun
    ensures c.openclawTimeout == 10 && c.compactionTimeout == 60
  {
    Config(DefaultThreshold, DefaultCheckInterval, DefaultHistoryFile, DefaultStateFile,
           DefaultLogLevel, false, DefaultOpenclawTimeout, DefaultCompactionTimeout)
  }

  /** `Config(log_level=...)`: the defaults with only the log level given. */
  function WithLogLevel(level: string): (c: Config)
    ensures c == Defaults().(logLevel := level)
  {
    Config(DefaultThreshold, DefaultCheckInterval, DefaultHistoryFile, DefaultStateFile,
           level, false, DefaultOpenclawTimeout, DefaultCompactionTimeout)
  }

  /** The outcome of the range check: it passes, or raises ValueError naming the value. */
  datatype Validation = Accepted | Rejected(value: int)

  /** `validate_threshold`: a value outside [50, 95] is rejected. */
  function ValidateThreshold(value: int): (r: Validation)
    ensures r.Accepted? <==> MinThreshold <= value <= MaxThreshold
    ensures r.Rejected? ==> r.value == value
  {
    if !(MinThreshold <= value <= MaxThreshold) then Rejected(value) else Accepted
  }

  /** The exact edges of the range: 50 and 95 pass, 49 and 96 do not. */
  lemma ThresholdEdges()
    ensures ValidateThreshold(50).Accepted? && ValidateThreshold(95).Accepted?
    ensures ValidateThreshold(49) == Rejected(49) && ValidateThreshold(96) == Rejected(96)
  {
  }

  /** The accepted values form one unbroken interval: between two accepted values all pass. */
  lemma AcceptedIsInterval(lo: int, v: int, hi: int)
    requires ValidateThreshold(lo).Accepted? && ValidateThreshold(hi).Accepted?
    requires lo <= v <= hi
    ensures ValidateThreshold(v).Accepted?
  {
  }

  /** The default threshold itself passes the check. */
  lemma DefaultThresholdValid()
    ensures ValidateThreshold(Defaults().threshold).Accepted?
  {
  }
}
