/**
 * The guardian's check cycle and its event history.
 *
 * A guardian holds its configuration and an in-memory list of events. The
 * events are objects: the cycle that compacts changes the action of the
 * event it has just appended and appends that same object again, so both
 * entries read "compact". The history document on disk is kept as a ghost
 * snapshot of the last document written. The status probe, the compaction
 * command, the clock and the success of each file write are inputs.
 */
module Daemon {
  import opened Wrappers
  import opened Parser
  import opened Configuration
  import opened HistoryOrder

  /** What an event says was done: "check" or "compact". */
  datatype Action = Check | Compact

  /** An event as it reads, and as it is written to the history document. */
  datatype EventRecord = EventRecord(timestamp: string, used: int, limit: int, percentage: int, action: Action)

  /** The history document: events in insertion order, the threshold, and when it was written. */
  datatype Document = Document(events: seq<EventRecord>, threshold: int, updated: string)

  /** What the history file held at start: nothing, something unreadable, or a parsed object. */
  datatype StoredFile =
    | Missing
    | Unreadable
    | Parsed(events: Option<seq<EventRecord>>, threshold: Option<int>)

  /** The outcome of running `openclaw status`. */
  datatype ProbeResult = Completed(stdout: string, stderr: string) | ProbeTimedOut | ProbeFailed

  /** The outcome of running `openclaw compact`. */
  datatype CompactResult = Exited(code: int) | CompactTimedOut | CompactFailed

  /**
   * The outcome of one attempt to write the history document: written at a
   * time; failed before the file was opened (`mkdir` or `open` raised), so
   * the file is as it was; or failed after `open(..., "w")` had emptied it
   * (`json.dump` or the close raised), so the file is left cut short.
   */
  datatype SaveOutcome = Written(updated: string) | WriteFailed | WriteInterrupted

  /**
   * What this guardian has left in the history file: nothing yet, a file
   * emptied or cut short by an interrupted write, or a whole document.
   */
  datatype OnDisk = Untouched | Truncated | Holds(doc: Document)

  /** One history entry. Only its action ever changes. */
  class Event {
    const timestamp: string
    const used: int
    const limit: int
    const percentage: int
    var action: Action

    constructor (timestamp: string, used: int, limit: int, percentage: int, action: Action)
      ensures this.timestamp == timestamp && this.used == used && this.limit == limit
      ensures this.percentage == percentage && this.action == action
    {
      this.timestamp := timestamp;
      this.used := used;
      this.limit := limit;
      this.percentage := percentage;
      this.action := action;
    }

    /** The event as it reads now. */
    function Record(): EventRecord
      reads this
    {
      EventRecord(timestamp, used, limit, percentage, action)
    }
  }

  /** The sort key of `get_history`. */
  function TimestampOf(e: Event): string {
    e.timestamp
  }

  /** How a list of events reads now. */
  function Records(events: seq<Event>): (rs: seq<EventRecord>)
    reads events
    ensures |rs| == |events|
    ensures forall i :: 0 <= i < |events| ==> rs[i] == events[i].Record()
  {
    seq(|events|, i requires 0 <= i < |events| reads events => events[i].Record())
  }

  // -------------------------------------------------------------------------
  // The decisions of one cycle, as values

  /** `get_context_usage`: the usage read from the probe's stdout followed by its stderr. */
  function GetContextUsage(probe: ProbeResult): (r: Option<ContextUsage>)
    ensures r.Some? <==> probe.Completed? && ParseOpenclawStatus(probe.stdout + probe.stderr).Found?
    ensures r.Some? ==> r.value == ParseOpenclawStatus(probe.stdout + probe.stderr).usage
  {
    match probe
    case Completed(out, err) =>
      (match ParseOpenclawStatus(out + err)
       case Found(u) => Some(u)
       case NoMatch => None
       case Malformed => None)   // float() raised; the caller's `except Exception` yields None
    case ProbeTimedOut => None
    case ProbeFailed => None
  }

  /** `_compact`: success is an exit code of 0; a timeout or an error is a failure. */
  function CompactSucceeded(c: CompactResult): bool {
    c.Exited? && c.code == 0
  }

  /** How a cycle ends. */
  datatype Step =
    | NoUsage            // no usage could be read
    | Recorded           // below the threshold: a check was recorded
    | Compacted          // at or above it, and compaction ran (or was skipped as a dry run)
    | CompactionFailed   // at or above it, and compaction failed

  /** The branch `check_and_handle` takes. */
  function Decide(usage: Option<ContextUsage>, cfg: Config, compaction: CompactResult): Step {
    match usage
    case None => NoUsage
    case Some(u) =>
      if u.percentage < cfg.threshold then Recorded
      else if cfg.dryRun || CompactSucceeded(compaction) then Compacted
      else CompactionFailed
  }

  /** The cycle reports success exactly when it recorded a check or compacted. */
  function Succeeded(st: Step): bool {
    st == Recorded || st == Compacted
  }

  /** The "check" event a cycle creates from a usage reading at time `now`. */
  function CheckRecord(u: ContextUsage, now: string): EventRecord {
    EventRecord(now, u.usedTokens, u.limitTokens, u.percentage, Check)
  }

  /**
   * The records a cycle adds to the history, as the code is written: when it
   * compacts, the one event is appended twice and reads "compact" both times.
   */
  function Appended(usage: Option<ContextUsage>, cfg: Config, compaction: CompactResult, now: string): seq<EventRecord> {
    match usage
    case None => []
    case Some(u) =>
      var check := CheckRecord(u, now);
      if Decide(usage, cfg, compaction) == Compacted then [check.(action := Compact), check.(action := Compact)]
      else [check]
  }

  /** The records a cycle was meant to add: a "check" record, then a "compact" one. */
  function AppendedIntended(usage: Option<ContextUsage>, cfg: Config, compaction: CompactResult, now: string): seq<EventRecord> {
    match usage
    case None => []
    case Some(u) =>
      var check := CheckRecord(u, now);
      if Decide(usage, cfg, compaction) == Compacted then [check, check.(action := Compact)]
      else [check]
  }

  /** The history file after one save attempt. */
  function Saved(prev: OnDisk, outcome: SaveOutcome, events: seq<EventRecord>, threshold: int): OnDisk {
    match outcome
    case Written(t) => Holds(Document(events, threshold, t))
    case WriteFailed => prev
    case WriteInterrupted => Truncated
  }

  /** The events `_load_history` reads back: those of a parsed file, `[]` when the key is absent. */
  function LoadedEvents(stored: StoredFile): seq<EventRecord> {
    match stored
    case Parsed(events, _) => if events.Some? then events.value else []
    case _ => []
  }

  /** A saved document as it would be read back at the next start. */
  function Reread(d: Document): StoredFile {
    Parsed(Some(d.events), Some(d.threshold))
  }

  /**
   * How the file this guardian wrote reads at the next start: `json.load`
   * fails on a file cut short. What a file untouched by it holds is not known here.
   */
  function ReadBack(f: OnDisk): Option<StoredFile> {
    match f
    case Untouched => None
    case Truncated => Some(Unreadable)
    case Holds(d) => Some(Reread(d))
  }

  /** The fields `get_status` reports; the three usage fields are all absent or all present. */
  datatype Status = Status(threshold: int, percentage: Option<int>, used: Option<int>, limit: Option<int>,
                           historyEvents: nat)

  const DefaultHistoryLimit: int := 10

  // -------------------------------------------------------------------------
  // The guardian

  class ContextGuardian {
    var config: Config
    var history: seq<Event>
    /** What this guardian's writes have left in the history file. */
    ghost var persisted: OnDisk

    /**
     * Start with the given configuration (the defaults when there is none)
     * and the events of the history file. A missing or unreadable file
     * leaves the history empty; the stored threshold is not read back.
     */
    constructor (config: Option<Config>, stored: StoredFile)
      ensures this.config == (if config.Some? then config.value else Defaults())
      ensures Records(history) == LoadedEvents(stored)
      ensures forall i :: 0 <= i < |history| ==> fresh(history[i])
      ensures persisted == Untouched
    {
      var h := LoadEvents(LoadedEvents(stored));
      this.config := if config.Some? then config.value else Defaults();
      history := h;
      persisted := Untouched;
    }

    /**
     * The start that reads the stored threshold back: a threshold that
     * passes validation replaces the configured one.
     */
    constructor Restoring(config: Option<Config>, stored: StoredFile)
      ensures var base := if config.Some? then config.value else Defaults();
        this.config == base.(threshold := RestoredThreshold(base, stored))
      ensures Records(history) == LoadedEvents(stored)
      ensures forall i :: 0 <= i < |history| ==> fresh(history[i])
      ensures persisted == Untouched
    {
      var h := LoadEvents(LoadedEvents(stored));
      var base := if config.Some? then config.value else Defaults();
      this.config := base.(threshold := RestoredThreshold(base, stored));
      history := h;
      persisted := Untouched;
    }

    /** `_save_history`: write the events as they read now, with the threshold. */
    method SaveHistory(outcome: SaveOutcome)
      modifies this`persisted
      ensures persisted == Saved(old(persisted), outcome, Records(history), config.threshold)
    {
      persisted := Saved(persisted, outcome, Records(history), config.threshold);
    }

    /** Append a new "check" event for the reading and save; the event is returned. */
    method AppendCheck(u: ContextUsage, now: string, save: SaveOutcome) returns (event: Event)
      modifies this`history, this`persisted
      ensures fresh(event) && event.Record() == CheckRecord(u, now)
      ensures history == old(history) + [event]
      ensures Records(history) == old(Records(history)) + [CheckRecord(u, now)]
      ensures persisted == Saved(old(persisted), save, old(Records(history)) + [CheckRecord(u, now)], config.threshold)
    {
      event := new Event(now, u.usedTokens, u.limitTokens, u.percentage, Check);
      history := history + [event];
      assert Records(history) == old(Records(history)) + [CheckRecord(u, now)];
      SaveHistory(save);
    }

    /** Turn the last event, which occurs nowhere else, into "compact", append it again and save. */
    method AppendCompacted(prior: seq<Event>, event: Event, save: SaveOutcome)
      requires history == prior + [event] && event !in prior
      modifies event, this`history, this`persisted
      ensures history == prior + [event, event]
      ensures var c := old(event.Record()).(action := Compact);
        Records(history) == old(Records(prior)) + [c, c]
      ensures persisted == Saved(old(persisted), save, Records(history), config.threshold)
    {
      event.action := Compact;
      assert Records(prior) == old(Records(prior));
      history := history + [event];
      assert Records(history) == Records(prior) + [event.Record(), event.Record()];
      SaveHistory(save);
    }

    /**
     * `check_and_handle`, as written: read the usage; record a "check"
     * event and save; at or above the threshold compact (unless a dry run),
     * and on success turn the same event into "compact", append it again and
     * save. A failed compaction returns at once.
     */
    method CheckAndHandle(probe: ProbeResult, now: string, compaction: CompactResult,
                firstSave: SaveOutcome, secondSave: SaveOutcome) returns (ok: bool)
      modifies this`history, this`persisted
      ensures var usage := GetContextUsage(probe);
        var st := Decide(usage, config, compaction);
        && ok == Succeeded(st)
        && Records(history) == old(Records(history)) + Appended(usage, config, compaction, now)
        && (st == NoUsage ==> persisted == old(persisted))
        && (st != NoUsage ==>
             var first := Saved(old(persisted), firstSave,
                                old(Records(history)) + [CheckRecord(usage.value, now)], config.threshold);
             persisted == if st == Compacted then Saved(first, secondSave, Records(history), config.threshold)
                          else first)
      ensures |history| >= |old(history)| && history[..|old(history)|] == old(history)
      ensures |history| > |old(history)| ==> fresh(history[|old(history)|])
      ensures |history| == |old(history)| + 2 ==> history[|old(history)|] == history[|old(history)| + 1]
    {
      var usage := GetContextUsage(probe);
      ok := Handle(usage, now, compaction, firstSave, secondSave);
    }

    /** `check_and_handle` once the usage has been read. */
    method Handle(usage: Option<ContextUsage>, now: string, compaction: CompactResult,
                firstSave: SaveOutcome, secondSave: SaveOutcome) returns (ok: bool)
      modifies this`history, this`persisted
      ensures var st := Decide(usage, config, compaction);
        && ok == Succeeded(st)
        && Records(history) == old(Records(history)) + Appended(usage, config, compaction, now)
        && (st == NoUsage ==> persisted == old(persisted))
        && (st != NoUsage ==>
             var first := Saved(old(persisted), firstSave,
                                old(Records(history)) + [CheckRecord(usage.value, now)], config.threshold);
             persisted == if st == Compacted then Saved(first, secondSave, Records(history), config.threshold)
                          else first)
      ensures |history| >= |old(history)| && history[..|old(history)|] == old(history)
      ensures |history| > |old(history)| ==> fresh(history[|old(history)|])
      ensures |history| == |old(history)| + 2 ==> history[|old(history)|] == history[|old(history)| + 1]
    {
      if usage.None? {
        return false;
      }
      var u := usage.value;
      var prior := history;
      ghost var before := Records(history);
      var event := AppendCheck(u, now, firstSave);
      ok := Escalate(prior, event, u, now, compaction, secondSave);
      ghost var compact := CheckRecord(u, now).(action := Compact);
      assert Decide(usage, config, compaction) == Compacted ==>
        Records(history) == before + [compact, compact];
    }

    /**
     * The second half of `check_and_handle`, after the "check" event was
     * appended: at or above the threshold, compact (unless a dry run) and on
     * success turn that event into "compact", append it again and save.
     */
    method Escalate(prior: seq<Event>, event: Event, u: ContextUsage, now: string,
                    compaction: CompactResult, save: SaveOutcome) returns (ok: bool)
      requires history == prior + [event] && event !in prior && event.Record() == CheckRecord(u, now)
      modifies event, this`history, this`persisted
      ensures var st := Decide(Some(u), config, compaction);
        && ok == Succeeded(st)
        && (st == Compacted ==>
             var c := CheckRecord(u, now).(action := Compact);
             && history == prior + [event, event]
             && Records(history) == old(Records(prior)) + [c, c]
             && persisted == Saved(old(persisted), save, Records(history), config.threshold))
        && (st != Compacted ==> history == old(history) && persisted == old(persisted) && unchanged(event))
    {
      if u.percentage >= config.threshold {
        if !config.dryRun {
          if !CompactSucceeded(compaction) {
            return false;
          }
        }
        AppendCompacted(prior, event, save);
      }
      return true;
    }

    /** Append a new "compact" event for the reading and save. */
    method AppendCompactCopy(u: ContextUsage, now: string, save: SaveOutcome) returns (compacted: Event)
      modifies this`history, this`persisted
      ensures fresh(compacted) && history == old(history) + [compacted]
      ensures Records(history) == old(Records(history)) + [CheckRecord(u, now).(action := Compact)]
      ensures persisted == Saved(old(persisted), save, Records(history), config.threshold)
    {
      compacted := new Event(now, u.usedTokens, u.limitTokens, u.percentage, Compact);
      history := history + [compacted];
      assert Records(history) == old(Records(history)) + [compacted.Record()];
      SaveHistory(save);
    }

    /** The cycle as intended: the "compact" entry is a new event, and the "check" entry stays. */
    method CheckAndHandleIntended(probe: ProbeResult, now: string, compaction: CompactResult,
                                  firstSave: SaveOutcome, secondSave: SaveOutcome) returns (ok: bool)
      modifies this`history, this`persisted
      ensures var usage := GetContextUsage(probe);
        var st := Decide(usage, config, compaction);
        && ok == Succeeded(st)
        && Records(history) == old(Records(history)) + AppendedIntended(usage, config, compaction, now)
        && (st == NoUsage ==> persisted == old(persisted))
        && (st != NoUsage ==>
             var first := Saved(old(persisted), firstSave,
                                old(Records(history)) + [CheckRecord(usage.value, now)], config.threshold);
             persisted == if st == Compacted then Saved(first, secondSave, Records(history), config.threshold)
                          else first)
      ensures |history| >= |old(history)| && history[..|old(history)|] == old(history)
    {
      var usage := GetContextUsage(probe);
      ok := HandleIntended(usage, now, compaction, firstSave, secondSave);
    }

    /** The intended cycle once the usage has been read. */
    method HandleIntended(usage: Option<ContextUsage>, now: string, compaction: CompactResult,
                          firstSave: SaveOutcome, secondSave: SaveOutcome) returns (ok: bool)
      modifies this`history, this`persisted
      ensures var st := Decide(usage, config, compaction);
        && ok == Succeeded(st)
        && Records(history) == old(Records(history)) + AppendedIntended(usage, config, compaction, now)
        && (st == NoUsage ==> persisted == old(persisted))
        && (st != NoUsage ==>
             var first := Saved(old(persisted), firstSave,
                                old(Records(history)) + [CheckRecord(usage.value, now)], config.threshold);
             persisted == if st == Compacted then Saved(first, secondSave, Records(history), config.threshold)
                          else first)
      ensures |history| >= |old(history)| && history[..|old(history)|] == old(history)
    {
      if usage.None? {
        return false;
      }
      var u := usage.value;
      ghost var before := Records(history);
      var event := AppendCheck(u, now, firstSave);
      if u.percentage >= config.threshold {
        if !config.dryRun {
          if !CompactSucceeded(compaction) {
            return false;
          }
        }
        var check := CheckRecord(u, now);
        var compacted := AppendCompactCopy(u, now, secondSave);
        assert Records(history) == before + [check] + [check.(action := Compact)];
        assert before + [check] + [check.(action := Compact)] == before + [check, check.(action := Compact)];
      }
      return true;
    }

    /**
     * `set-threshold`: validate first; only a value that passes is assigned
     * and saved. The exit status is 0 on success and 1 on rejection.
     */
    method SetThreshold(percentage: int, save: SaveOutcome) returns (exitCode: int)
      modifies this`config, this`persisted
      ensures exitCode == (if ValidateThreshold(percentage).Accepted? then 0 else 1)
      ensures ValidateThreshold(percentage).Rejected? ==>
        config == old(config) && persisted == old(persisted)
      ensures ValidateThreshold(percentage).Accepted? ==>
        && config == old(config).(threshold := percentage)
        && persisted == Saved(old(persisted), save, Records(history), percentage)
    {
      if ValidateThreshold(percentage).Rejected? {
        return 1;
      }
      config := config.(threshold := percentage);
      SaveHistory(save);
      return 0;
    }

    /**
     * `get_history`: the history sorted by timestamp, latest first and
     * stable, cut to its first `limit` entries. The history is left as it is.
     */
    function GetHistory(limit: int := DefaultHistoryLimit): (r: seq<Event>)
      reads this
      ensures |r| == SliceLength(|history|, limit)
      ensures Descending(r, TimestampOf)
      ensures multiset(r) <= multiset(history)
    {
      var sorted := SortDescending(history, TimestampOf);
      SortIsDescending(history, TimestampOf);
      SortPermutes(history, TimestampOf);
      FrontDescending(sorted, TimestampOf, limit);
      FrontSubmultiset(sorted, limit);
      assert |sorted| == |multiset(sorted)| == |multiset(history)| == |history|;
      Front(sorted, limit)
    }

    /** `get_status`: the threshold, the usage fields when a usage was read, and the history's length. */
    function GetStatus(probe: ProbeResult): (r: Status)
      reads this
      ensures r.threshold == config.threshold && r.historyEvents == |history|
      ensures r.percentage.Some? <==> GetContextUsage(probe).Some?
      ensures r.percentage.Some? ==> r.used.Some? && r.limit.Some?
      ensures r.percentage.None? ==> r.used.None? && r.limit.None?
      ensures GetContextUsage(probe).Some? ==>
        var u := GetContextUsage(probe).value;
        r.percentage == Some(u.percentage) && r.used == Some(u.usedTokens) && r.limit == Some(u.limitTokens)
    {
      var usage := GetContextUsage(probe);
      Status(config.threshold,
             if usage.Some? then Some(usage.value.percentage) else None,
             if usage.Some? then Some(usage.value.usedTokens) else None,
             if usage.Some? then Some(usage.value.limitTokens) else None,
             |history|)
    }

    /** Events with the same timestamp come out of `get_history` in the order they were recorded. */
    lemma GetHistoryKeepsTieOrder(limit: int, k: string)
      ensures WithKey(GetHistory(limit), TimestampOf, k) <= WithKey(history, TimestampOf, k)
    {
      var sorted := SortDescending(history, TimestampOf);
      var r := GetHistory(limit);
      assert r == sorted[..|r|];
      WithKeyFront(sorted, TimestampOf, k, |r|);
      SortIsStable(history, TimestampOf, k);
    }

    /** No event left out of `get_history` is later than one it returns. */
    lemma GetHistoryOmitsOnlyEarlier(limit: int, e: Event, i: nat)
      requires i < |GetHistory(limit)|
      requires e in multiset(history) - multiset(GetHistory(limit))
      ensures !Below(TimestampOf(GetHistory(limit)[i]), TimestampOf(e))
    {
      var sorted := SortDescending(history, TimestampOf);
      var r := GetHistory(limit);
      var n := |r|;
      assert r == sorted[..n];
      assert sorted == sorted[..n] + sorted[n..];
      SortPermutes(history, TimestampOf);
      assert multiset(history) - multiset(r) == multiset(sorted[n..]);
      assert e in sorted[n..];
      var j :| n <= j < |sorted| && sorted[j] == e;
      SortIsDescending(history, TimestampOf);
      DescendingPairwise(sorted, TimestampOf, i, j);
    }

    /** For a limit that is not negative, `get_history` returns that many events, or all when fewer. */
    lemma GetHistoryLength(limit: int)
      requires limit >= 0
      ensures |GetHistory(limit)| == if limit < |history| then limit else |history|
    {
    }

    /** A limit that covers the history returns every event. */
    lemma GetHistoryWhole(limit: int)
      requires limit >= |history|
      ensures multiset(GetHistory(limit)) == multiset(history)
    {
      var sorted := SortDescending(history, TimestampOf);
      SortPermutes(history, TimestampOf);
      assert |sorted| == |multiset(sorted)| == |history|;
      assert GetHistory(limit) == sorted[..|sorted|] == sorted;
    }
  }

  /** Allocate one new event per record, in order. */
  method LoadEvents(records: seq<EventRecord>) returns (h: seq<Event>)
    ensures Records(h) == records
    ensures forall i :: 0 <= i < |h| ==> fresh(h[i])
  {
    h := [];
    var i := 0;
    while i < |records|
      invariant 0 <= i <= |records| && |h| == i
      invariant forall j :: 0 <= j < i ==> fresh(h[j]) && h[j].Record() == records[j]
    {
      var r := records[i];
      var e := new Event(r.timestamp, r.used, r.limit, r.percentage, r.action);
      h := h + [e];
      i := i + 1;
    }
  }

  /** The threshold the restoring start adopts: the stored one when it is valid. */
  function RestoredThreshold(base: Config, stored: StoredFile): (t: int)
    ensures t == base.threshold || ValidateThreshold(t).Accepted?
  {
    match stored
    case Parsed(_, Some(t)) => if ValidateThreshold(t).Accepted? then t else base.threshold
    case _ => base.threshold
  }

  // -------------------------------------------------------------------------
  // Properties of the cycle

  /** `_compact` reports success only for an exit code of 0. */
  lemma CompactSucceedsOnlyOnZeroExit(c: CompactResult)
    ensures CompactSucceeded(c) <==> c == Exited(0)
  {
  }

  /** A probe that timed out or failed yields no usage, and the cycle records nothing and fails. */
  lemma FailedProbeRecordsNothing(probe: ProbeResult, cfg: Config, compaction: CompactResult, now: string)
    requires !probe.Completed?
    ensures GetContextUsage(probe).None?
    ensures Appended(GetContextUsage(probe), cfg, compaction, now) == []
    ensures !Succeeded(Decide(GetContextUsage(probe), cfg, compaction))
  {
  }

  /** Below the threshold one "check" record is added, no compaction is tried, and the cycle succeeds. */
  lemma BelowThresholdRecordsCheck(u: ContextUsage, cfg: Config, compaction: CompactResult, now: string)
    requires u.percentage < cfg.threshold
    ensures Appended(Some(u), cfg, compaction, now) == [CheckRecord(u, now)]
    ensures Decide(Some(u), cfg, compaction) == Recorded
  {
  }

  /** Reaching the threshold exactly is enough to compact: the comparison is inclusive. */
  lemma ThresholdIsInclusive(u: ContextUsage, cfg: Config, compaction: CompactResult)
    requires u.percentage == cfg.threshold
    ensures Decide(Some(u), cfg, compaction) in {Compacted, CompactionFailed}
  {
  }

  /** A dry run at or above the threshold counts as compacted, whatever the command would do. */
  lemma DryRunCompacts(u: ContextUsage, cfg: Config, c1: CompactResult, c2: CompactResult, now: string)
    requires cfg.dryRun && u.percentage >= cfg.threshold
    ensures Decide(Some(u), cfg, c1) == Compacted
    ensures Appended(Some(u), cfg, c1, now) == Appended(Some(u), cfg, c2, now)
  {
  }

  /** A failed compaction leaves only the "check" record and reports failure. */
  lemma FailedCompactionKeepsCheck(u: ContextUsage, cfg: Config, compaction: CompactResult, now: string)
    requires u.percentage >= cfg.threshold && !cfg.dryRun && !CompactSucceeded(compaction)
    ensures Appended(Some(u), cfg, compaction, now) == [CheckRecord(u, now)]
    ensures !Succeeded(Decide(Some(u), cfg, compaction))
  {
  }

  /**
   * What a cycle adds always describes the reading it took, at the time it
   * took it, and is at most two records.
   */
  lemma AppendedDescribesReading(usage: Option<ContextUsage>, cfg: Config, compaction: CompactResult, now: string)
    ensures var a := Appended(usage, cfg, compaction, now);
      && |a| <= 2
      && (|a| == 0 <==> usage.None?)
      && forall r | r in a :: r.timestamp == now && r.used == usage.value.usedTokens
                            && r.limit == usage.value.limitTokens && r.percentage == usage.value.percentage
  {
  }

  /** As written, a compacting cycle leaves no "check" record: both entries read "compact". */
  lemma CompactingCycleLosesCheck(u: ContextUsage, cfg: Config, compaction: CompactResult, now: string)
    requires Decide(Some(u), cfg, compaction) == Compacted
    ensures forall r | r in Appended(Some(u), cfg, compaction, now) :: r.action == Compact
    ensures |Appended(Some(u), cfg, compaction, now)| == 2
  {
  }

  /** As intended, a compacting cycle records the check first and the compaction second. */
  lemma IntendedCycleRecordsCheckThenCompact(u: ContextUsage, cfg: Config, compaction: CompactResult, now: string)
    requires Decide(Some(u), cfg, compaction) == Compacted
    ensures AppendedIntended(Some(u), cfg, compaction, now)
         == [CheckRecord(u, now), CheckRecord(u, now).(action := Compact)]
  {
  }

  /** The two versions differ only in the first record of a compacting cycle. */
  lemma IntendedDiffersOnlyWhenCompacting(usage: Option<ContextUsage>, cfg: Config, compaction: CompactResult, now: string)
    ensures var a := Appended(usage, cfg, compaction, now);
      var b := AppendedIntended(usage, cfg, compaction, now);
      && |a| == |b| && (|a| == 2 ==> a[1] == b[1])
      && (a == b <==> Decide(usage, cfg, compaction) != Compacted)
  {
  }

  /** The groups of the status line "190k/200k (95%)". */
  function ExampleGroups(): Groups {
    Groups("190", 'k', "200", 'k', " ", "95")
  }

  lemma ExampleDigits()
    ensures AllDigits("190") && DigitsValue("190") == 190
    ensures AllDigits("200") && DigitsValue("200") == 200
    ensures AllDigits("95") && DigitsValue("95") == 95
  {
    DigitsValueSnoc("1", '9');
    assert "1" + ['9'] == "19";
    DigitsValueSnoc("19", '0');
    assert "19" + ['0'] == "190";
    DigitsValueSnoc("2", '0');
    assert "2" + ['0'] == "20";
    DigitsValueSnoc("20", '0');
    assert "20" + ['0'] == "200";
    DigitsValueSnoc("9", '5');
    assert "9" + ['5'] == "95";
  }

  lemma ExampleShape()
    ensures Shaped(ExampleGroups()) && AllDigits(ExampleGroups().used) && AllDigits(ExampleGroups().limit)
    ensures "" + Text(ExampleGroups()) + "" == "190k/200k (95%)"
  {
    ExampleDigits();
  }

  /** The status line "190k/200k (95%)" reads as 190000 of 200000 tokens at 95%. */
  lemma StatusExampleParses()
    ensures ParseOpenclawStatus("190k/200k (95%)") == Found(ContextUsage(190000, 200000, 95))
  {
    ExampleShape();
    ExampleDigits();
    MultiplierTable();
    RowParses("", ExampleGroups(), "");
    WholeNumbersRead(ExampleGroups());
  }

  /** The groups of the status table row "│ agent:main:main │ 84k/200k (42%) │". */
  function RowGroups(): Groups {
    Groups("84", 'k', "200", 'k', " ", "42")
  }

  lemma RowDigits()
    ensures AllDigits("84") && DigitsValue("84") == 84
    ensures AllDigits("200") && DigitsValue("200") == 200
    ensures AllDigits("42") && DigitsValue("42") == 42
  {
    DigitsValueSnoc("8", '4');
    assert "8" + ['4'] == "84";
    DigitsValueSnoc("2", '0');
    assert "2" + ['0'] == "20";
    DigitsValueSnoc("20", '0');
    assert "20" + ['0'] == "200";
    DigitsValueSnoc("4", '2');
    assert "4" + ['2'] == "42";
  }

  lemma RowShape()
    ensures Shaped(RowGroups()) && AllDigits(RowGroups().used) && AllDigits(RowGroups().limit)
    ensures "│ agent:main:main │ " + Text(RowGroups()) + " │" == "│ agent:main:main │ 84k/200k (42%) │"
  {
    RowDigits();
  }

  /** A row of the status table reads as 84000 of 200000 tokens at 42%. */
  lemma TableRowExample()
    ensures ParseOpenclawStatus("│ agent:main:main │ 84k/200k (42%) │") == Found(ContextUsage(84000, 200000, 42))
  {
    var before := "│ agent:main:main │ ";
    RowShape();
    RowDigits();
    MultiplierTable();
    assert forall k :: 0 <= k < |before| ==> !IsNumeralChar(before[k]);
    RowParses(before, RowGroups(), " │");
    WholeNumbersRead(RowGroups());
  }

  /** The groups of "1.5m/2m (75%)", a count with one decimal place. */
  function MillionsTenthGroups(): Groups {
    Groups("1.5", 'm', "2", 'm', " ", "75")
  }

  lemma MillionsTenthDigits()
    ensures AllDigits("75") && DigitsValue("75") == 75
  {
    DigitsValueSnoc("7", '5');
    assert "7" + ['5'] == "75";
  }

  lemma MillionsTenthCount()
    ensures AllNumeral("1.5") && ParseTokenCount("1.5", "m") == Some(1_500_000)
  {
    assert DigitsValue("1") == 1;
    TenthsOfMillions("1", '5');
    assert "1" + "." + ['5'] == "1.5";
  }

  lemma MillionsTenthShape()
    ensures Shaped(MillionsTenthGroups())
    ensures "" + Text(MillionsTenthGroups()) + "" == "1.5m/2m (75%)"
  {
    MillionsTenthDigits();
    assert AllNumeral("1.5");
  }

  /** "1.5m/2m (75%)" reads as 1,500,000 of 2,000,000 tokens at 75%. */
  lemma MillionsTenthExample()
    ensures ParseOpenclawStatus("1.5m/2m (75%)") == Found(ContextUsage(1_500_000, 2_000_000, 75))
  {
    MillionsTenthShape();
    MillionsTenthDigits();
    MillionsTenthCount();
    MultiplierTable();
    WholeNumberScalesExactly("2", "m");
    RowParses("", MillionsTenthGroups(), "");
  }

  /** The groups of "0.5k/100k (0%)". */
  function ThousandsTenthGroups(): Groups {
    Groups("0.5", 'k', "100", 'k', " ", "0")
  }

  lemma ThousandsTenthDigits()
    ensures AllDigits("100") && DigitsValue("100") == 100
    ensures AllDigits("0") && DigitsValue("0") == 0
  {
    DigitsValueSnoc("1", '0');
    assert "1" + ['0'] == "10";
    DigitsValueSnoc("10", '0');
    assert "10" + ['0'] == "100";
  }

  lemma ThousandsTenthCount()
    ensures AllNumeral("0.5") && ParseTokenCount("0.5", "k") == Some(500)
  {
    assert DigitsValue("0") == 0;
    TenthsOfThousands("0", '5');
    assert "0" + "." + ['5'] == "0.5";
  }

  lemma ThousandsTenthShape()
    ensures Shaped(ThousandsTenthGroups())
    ensures "" + Text(ThousandsTenthGroups()) + "" == "0.5k/100k (0%)"
  {
    ThousandsTenthDigits();
    assert AllNumeral("0.5");
  }

  /** "0.5k/100k (0%)" reads as 500 of 100,000 tokens at 0%. */
  lemma ThousandsTenthExample()
    ensures ParseOpenclawStatus("0.5k/100k (0%)") == Found(ContextUsage(500, 100_000, 0))
  {
    ThousandsTenthShape();
    ThousandsTenthDigits();
    ThousandsTenthCount();
    MultiplierTable();
    WholeNumberScalesExactly("100", "k");
    RowParses("", ThousandsTenthGroups(), "");
  }

  /** The probe printing "190k/200k (95%)" yields 190000 of 200000 tokens at 95%. */
  lemma ExampleUsage()
    ensures GetContextUsage(Completed("190k/200k (95%)", "")) == Some(ContextUsage(190000, 200000, 95))
  {
    StatusExampleParses();
    assert "190k/200k (95%)" + "" == "190k/200k (95%)";
  }

  /**
   * The usage 190000 of 200000 tokens at 95% against the default threshold
   * of 75: the level is Critical, compaction runs, and as written both
   * records read "compact" where a "check" record followed by a "compact"
   * one was meant.
   */
  lemma CompactingExample(now: string)
    ensures var usage := Some(ContextUsage(190000, 200000, 95));
      && usage.value.Level() == Critical
      && Decide(usage, Defaults(), Exited(0)) == Compacted
      && Appended(usage, Defaults(), Exited(0), now)
         == [EventRecord(now, 190000, 200000, 95, Compact), EventRecord(now, 190000, 200000, 95, Compact)]
      && AppendedIntended(usage, Defaults(), Exited(0), now)
         == [EventRecord(now, 190000, 200000, 95, Check), EventRecord(now, 190000, 200000, 95, Compact)]
  {
  }

  /** A fresh guardian running the compacting example ends with two "compact" entries, one object twice. */
  method AliasingExample(now: string) returns (records: seq<EventRecord>, ok: bool, sameObject: bool)
    ensures ok && sameObject
    ensures records == [EventRecord(now, 190000, 200000, 95, Compact), EventRecord(now, 190000, 200000, 95, Compact)]
  {
    var g := new ContextGuardian(None, Missing);
    ExampleUsage();
    CompactingExample(now);
    ok := g.CheckAndHandle(Completed("190k/200k (95%)", ""), now, Exited(0), Written(now), Written(now));
    records := Records(g.history);
    sameObject := g.history[0] == g.history[1];
  }

  /** The same run with the intended cycle ends with a "check" entry, then a "compact" one. */
  method IntendedExample(now: string) returns (records: seq<EventRecord>, ok: bool)
    ensures ok
    ensures records == [EventRecord(now, 190000, 200000, 95, Check), EventRecord(now, 190000, 200000, 95, Compact)]
  {
    var g := new ContextGuardian(None, Missing);
    ExampleUsage();
    CompactingExample(now);
    ok := g.CheckAndHandleIntended(Completed("190k/200k (95%)", ""), now, Exited(0), Written(now), Written(now));
    records := Records(g.history);
  }

  /** Two events stored by an earlier run, and a reading below the default threshold. */
  function StoredExample(): StoredFile {
    Parsed(Some([EventRecord("2024-01-01T00:00:00", 100000, 200000, 50, Check),
                 EventRecord("2024-01-01T00:05:00", 120000, 200000, 60, Check)]), None)
  }

  /**
   * A guardian that had two stored events records a check and its save is
   * written: a restart holds all three events.
   */
  method RestartKeepsHistoryExample(now: string, t: string) returns (events: nat)
    ensures events == 3
  {
    var u := ContextUsage(130000, 200000, 65);
    var g := new ContextGuardian(None, StoredExample());
    assert Decide(Some(u), g.config, Exited(0)) == Recorded;
    var ok := g.Handle(Some(u), now, Exited(0), Written(t), Written(t));
    var file := Reread(Document(Records(g.history), DefaultThreshold, t));
    assert ReadBack(g.persisted) == Some(file);
    var h := new ContextGuardian(None, file);
    events := |h.history|;
    assert |Records(h.history)| == |Records(g.history)| == 3;
  }

  /**
   * The same cycle, but the write is interrupted after `open(..., "w")` has
   * emptied the file: `json.load` fails at the restart, and the history
   * comes back empty. Every earlier event is lost, not only the new one.
   */
  method InterruptedWriteLosesHistoryExample(now: string) returns (before: nat, after: nat)
    ensures before == 3 && after == 0
  {
    var u := ContextUsage(130000, 200000, 65);
    var g := new ContextGuardian(None, StoredExample());
    assert Decide(Some(u), g.config, Exited(0)) == Recorded;
    var ok := g.Handle(Some(u), now, Exited(0), WriteInterrupted, WriteInterrupted);
    before := |g.history|;
    assert |Records(g.history)| == 3;
    assert ReadBack(g.persisted) == Some(Unreadable);
    var h := new ContextGuardian(None, Unreadable);
    after := |h.history|;
    assert |Records(h.history)| == 0;
  }

  /**
   * The guardian uses whatever threshold its configuration holds: a reading
   * is only recorded below it, validated or not.
   */
  lemma ConfiguredThresholdIsUsed(t: int, u: ContextUsage, c: CompactResult)
    ensures Decide(Some(u), Defaults().(threshold := t), c) == Recorded <==> u.percentage < t
  {
  }

  /**
   * A configuration built with threshold 30, which validation rejects, is
   * taken as given: a reading of 30% compacts.
   */
  method UnvalidatedThresholdExample(now: string) returns (rejected: bool, ok: bool, records: seq<EventRecord>)
    ensures rejected && ok
    ensures records == [EventRecord(now, 60000, 200000, 30, Compact), EventRecord(now, 60000, 200000, 30, Compact)]
  {
    rejected := ValidateThreshold(30).Rejected?;
    var g := new ContextGuardian(Some(Defaults().(threshold := 30)), Missing);
    ok := g.Handle(Some(ContextUsage(60000, 200000, 30)), now, Exited(0), Written(now), Written(now));
    records := Records(g.history);
  }

  /** The restoring start adopts a stored threshold exactly when it passes validation. */
  lemma RestoringAdoptsValidThreshold(base: Config, d: Document)
    ensures RestoredThreshold(base, Reread(d)) == d.threshold <==>
      ValidateThreshold(d.threshold).Accepted? || d.threshold == base.threshold
  {
  }

  /**
   * A process start: the configuration is the defaults with only the log
   * level set, so the threshold is 75 whatever the history file holds.
   */
  method StartGuardian(logLevel: string, stored: StoredFile) returns (g: ContextGuardian)
    ensures fresh(g) && g.config == WithLogLevel(logLevel)
    ensures g.config.threshold == DefaultThreshold
    ensures Records(g.history) == LoadedEvents(stored)
  {
    g := new ContextGuardian(Some(WithLogLevel(logLevel)), stored);
  }

  /**
   * `set-threshold 60` is accepted and saved, but the next start reads the
   * threshold back as 75; the restoring start reads back 60.
   */
  method ThresholdForgottenExample(t: string) returns (exitCode: int, restarted: int, restored: int)
    ensures exitCode == 0 && restarted == 75 && restored == 60
  {
    var g := StartGuardian("INFO", Missing);
    exitCode := g.SetThreshold(60, Written(t));
    var file := Reread(Document(Records(g.history), g.config.threshold, t));
    assert ReadBack(g.persisted) == Some(file);
    var next := StartGuardian("INFO", file);
    restarted := next.config.threshold;
    var fixed := new ContextGuardian.Restoring(Some(WithLogLevel("INFO")), file);
    restored := fixed.config.threshold;
  }
}
