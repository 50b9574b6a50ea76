# Context Guardian, modelled in Dafny

Context Guardian watches how full an OpenClaw agent's context window is. It
runs `openclaw status`, reads a usage such as `84.5k/200k (42%)` from the
output, and records a "check" event in its history. When the percentage
reaches the compaction threshold it runs `openclaw compact` and records the
compaction too. The history is kept in a JSON document and can be listed
latest first. A threshold can be set, but only within 50-95%.

This project models the decision engine of the guardian and proves
properties of the model. It has five files:

- `wrappers.dfy`: module `Wrappers`, the `Option` type.
- `parser.dfy`: module `Parser`, covering the severity levels, `parse_token_count`
  and `parse_openclaw_status`.
  - The regular expression `([\d.]+)([km])/([\d.]+)([km])\s+\((\d+)%\)` is modelled
    as a matcher at each position (`MatchAt`) plus a leftmost search (`Search`).
  - Each `+` run in the pattern is followed by a character outside its class, so a
    match at a given position is unique. Its runs are the maximal ones (`Span`).
  - Numbers are read the way `float()` reads a string of digits and dots, but kept
    as exact decimals, then scaled and truncated.
- `config.dfy`: module `Configuration`, covering the `Config` record, its defaults
  and `validate_threshold`.
- `history_order.dfy`: module `HistoryOrder`. It models Python's string order and
  the stable descending sort that `sorted(..., reverse=True)` performs. It also
  models the `[:limit]` slice, including negative limits.
- `daemon.dfy`: module `Daemon`, covering the `ContextGuardian` class and the
  `Event` class.
  - History entries are `Event` objects with a mutable `action`, so the aliasing of
    the source is represented faithfully.
  - The outside world enters as parameters:
    - the outcome of the status probe (`ProbeResult`);
    - the outcome of the compaction command (`CompactResult`);
    - the current time as a string;
    - whether each write of the history document succeeded (`SaveOutcome`);
    - what the history file held at start (`StoredFile`).
  - The document on disk is the ghost field `persisted`.
  - Each operation's contract ties the new history and the new document to pure
    functions: `Decide`, `Appended` and `Saved`. The lemmas are stated about those
    functions.

## Model

| member | source | states |
|---|---|---|
| Parser.Rank | src/context_guardian/parser.py:9-15 | The first component of each `ContextLevel` value: 0 for Healthy, 1 for Elevated, 2 for Warning and 3 for Critical, never above 3. |
| Parser.RankDistinct | src/context_guardian/parser.py:9-15 | Two levels have the same rank iff they are the same level. |
| Parser.ContextUsage.Level | src/context_guardian/parser.py:31-45 | The level is Healthy iff the percentage is below 60. It is Elevated iff 60-79, Warning iff 80-89 and Critical iff at least 90. This holds for every integer. |
| Parser.LevelRankCountsBreakpoints | src/context_guardian/parser.py:38-45 | The level's rank (0-3) is the number of breakpoints, among 60, 80 and 90, that the percentage has reached. |
| Parser.LevelMonotone | src/context_guardian/parser.py:38-45 | A higher percentage never gives a lower level. |
| Parser.LevelBreakpoints | src/context_guardian/parser.py:38-45 | 59/60, 79/80 and 89/90 are the exact breakpoints, and 100 is Critical. |
| Parser.Span | src/context_guardian/parser.py:75 | A greedy `+` run: every character from `i` up to the result is in the class, and the character at the result is not (or the text has ended). |
| Parser.SpanStopsAt | src/context_guardian/parser.py:75 | A run that is followed by a character outside its class is exactly what the greedy run finds. |
| Parser.ReadDecimal | src/context_guardian/parser.py:58 | What `float()` reads from a string of digits and dots, kept exact: the digits before and after the dot, over ten to the number of digits after it. It has fewer decimal places than the string has characters. |
| Parser.FloatAcceptance | src/context_guardian/parser.py:58 | The exact reading succeeds iff `float()` accepts the digits-and-dots string. That means at most one dot and at least one digit. |
| Parser.Multiplier | src/context_guardian/parser.py:59 | The unit's multiplier: 1000 for "k", 1,000,000 for "m" (either case), and 1 for anything else. It is always 1, 1000 or 1,000,000. |
| Parser.ParseTokenCount | src/context_guardian/parser.py:48-60 | `parse_token_count`: the exact value times the multiplier, truncated. There is a count iff `float()` accepts the value. |
| Parser.TokenCountTruncates | src/context_guardian/parser.py:58-60 | A count exists iff `float()` accepts the value. It is the largest whole number not above the exact value times the multiplier. |
| Parser.WholeNumberScalesExactly | src/context_guardian/parser.py:58-60 | A whole number is scaled exactly: its value times the multiplier. |
| Parser.MultiplierTable | src/context_guardian/parser.py:59 | k and K give 1000, and m and M give 1,000,000. Any other unit, "" included, gives 1. |
| Parser.ReadPointNumeral | src/context_guardian/parser.py:58 | "whole.fraction" reads as the digits of both parts, with as many decimal places as the fraction has. |
| Parser.TokenCountWholeExamples | src/context_guardian/parser.py:58-60 | "84" with k or K gives 84000, and "1" with M gives 1,000,000. |
| Parser.TokenCountNoUnitExample | src/context_guardian/parser.py:59-60 | "1000" with no unit gives 1000. |
| Parser.TenthsOfThousands | src/context_guardian/parser.py:58-60 | "W.t" with k gives 1000·W + 100·t, so "84.5" gives 84500 and "0.5" gives 500. |
| Parser.TenthsOfMillions | src/context_guardian/parser.py:58-60 | "W.t" with m gives 1,000,000·W + 100,000·t. |
| Parser.TokenCountTwoDots | src/context_guardian/parser.py:58 | "1.2.3" has no count, because `float()` raises. |
| Parser.CutsAt | src/context_guardian/parser.py:75 | The positions found at `i` delimit non-empty runs of the right classes, joined by the pattern's literal characters. |
| Parser.GroupsAt | src/context_guardian/parser.py:75 | The groups taken between those positions have the pattern's shape. |
| Parser.GroupsAtOccur | src/context_guardian/parser.py:75 | Those groups occur in the text exactly where the positions put them. |
| Parser.MatchAt | src/context_guardian/parser.py:75 | A match's groups have the pattern's classes and repetitions. |
| Parser.MatchAtSound | src/context_guardian/parser.py:75 | The text of a match occurs at the position where it was found. |
| Parser.CutsAtExact | src/context_guardian/parser.py:75 | Runs that fit the pattern at `i` are the ones the matcher finds. |
| Parser.MatchAtComplete | src/context_guardian/parser.py:75 | Wherever text of the pattern's shape occurs, the matcher returns exactly its groups. |
| Parser.OccursAtIsText | src/context_guardian/parser.py:75 | The groups occur piece by piece iff the whole matched text occurs. |
| Parser.FirstSomeLeftmost | src/context_guardian/parser.py:76 | The scan returns the first present entry and no earlier one. It returns none only when none is present. |
| Parser.Search | src/context_guardian/parser.py:76 | `re.search`: the first position, from the left, where the matcher succeeds, with its groups. |
| Parser.SearchLeftmost | src/context_guardian/parser.py:76 | `re.search` returns the leftmost position that matches, with its groups. It finds nothing only when no position matches. |
| Parser.UsageOf | src/context_guardian/parser.py:81-91 | The usage read from one match's groups. It is found iff `float()` accepts both counts, and its percentage is the digits of the percent group. A failure of `float()` gives `Malformed`, never `NoMatch`. |
| Parser.ParseOpenclawStatus | src/context_guardian/parser.py:63-91 | There is no usage iff no position of the output matches. A usage found has non-negative counts and a non-negative percentage. |
| Parser.ParseUsesLeftmost | src/context_guardian/parser.py:76-91 | The usage comes from the groups of the leftmost match, and from nothing later. |
| Parser.SearchFinds | src/context_guardian/parser.py:76 | A match with no match before it is what the search returns. |
| Parser.MatchExtendsLeft | src/context_guardian/parser.py:75 | A match preceded by a digit or a dot can be extended one position to the left. |
| Parser.LeftmostMatchStartsRun | src/context_guardian/parser.py:75-76 | The leftmost match starts at the beginning of the text, or after a character that is not a digit or a dot. It never starts inside a run of digits and dots. |
| Parser.MatchStartsWithNumeral | src/context_guardian/parser.py:75 | A match starts with a digit or a dot. |
| Parser.MatchHasUnit | src/context_guardian/parser.py:75 | The first number of a match is followed by a unit letter. |
| Parser.MatchHasSpace | src/context_guardian/parser.py:75 | The second unit letter of a match is followed by whitespace. |
| Parser.NoNumeralNoMatch | src/context_guardian/parser.py:75-79 | A text with no digit and no dot yields no usage. This covers "" and "Some random output without tokens". |
| Parser.NoUnitNoMatch | src/context_guardian/parser.py:75-79 | A text with no unit letter yields no usage. |
| Parser.NoSpaceNoMatch | src/context_guardian/parser.py:75-79 | A text with no whitespace yields no usage. |
| Parser.BareNumbersNeverMatch | src/context_guardian/parser.py:75-79 | "U/L (P%)" without unit letters, such as "100/200 (50%)", yields no usage. |
| Parser.GluedParenthesisNeverMatches | src/context_guardian/parser.py:75-79 | Without whitespace before "(", as in "84k/200k(42%)", the text yields no usage. |
| Parser.WholeNumbersRead | src/context_guardian/parser.py:81-91 | A match with whole numbers gives exactly the scaled counts, and the percentage as printed. |
| Parser.RowParses | src/context_guardian/parser.py:63-91 | A line whose text before the usage holds no digit or dot, such as the table row "│ agent:main:main │ 84k/200k (42%) │", reads exactly as `UsageOf` of the usage's groups. Fractional counts are included. The percentage is copied verbatim: it is not recomputed and not capped at 100. |
| Configuration.Defaults | src/context_guardian/config.py:12-34 | The defaults are: threshold 75, interval 300, the two /tmp paths, level INFO, no dry run, and timeouts of 10 s and 60 s. |
| Configuration.WithLogLevel | src/context_guardian/main.py:71 | The command line's configuration is the defaults with only the log level changed. |
| Configuration.ValidateThreshold | src/context_guardian/config.py:36-47 | A value is accepted iff 50 ≤ value ≤ 95. A rejection carries the value. |
| Configuration.ThresholdEdges | src/context_guardian/config.py:46-47 | 50 and 95 pass, and 49 and 96 are rejected. |
| Configuration.AcceptedIsInterval | src/context_guardian/config.py:46 | Every value between two accepted values is accepted. |
| Configuration.DefaultThresholdValid | src/context_guardian/config.py:12-47 | The default threshold passes the check. |
| HistoryOrder.Below | src/context_guardian/daemon.py:179 | Python's `<` on strings: a proper prefix is below, otherwise the first differing character decides. |
| HistoryOrder.BelowIrreflexive | src/context_guardian/daemon.py:179 | No timestamp string sorts before itself. |
| HistoryOrder.BelowTransitive | src/context_guardian/daemon.py:179 | The string order is transitive. |
| HistoryOrder.BelowTotal | src/context_guardian/daemon.py:179 | Any two strings are equal or ordered one way. |
| HistoryOrder.BelowAsymmetric | src/context_guardian/daemon.py:179 | Two strings are never ordered both ways. |
| HistoryOrder.Insert | src/context_guardian/daemon.py:177-180 | One step of the stable descending sort: the element goes in front of the first element whose key is below its own. |
| HistoryOrder.SortDescending | src/context_guardian/daemon.py:177-180 | `sorted(history, key=timestamp, reverse=True)`: the events inserted one by one, oldest first. |
| HistoryOrder.InsertDescending | src/context_guardian/daemon.py:177-180 | Inserting into a descending list keeps it descending. |
| HistoryOrder.SortIsDescending | src/context_guardian/daemon.py:177-180 | The sorted history is latest first. |
| HistoryOrder.DescendingPairwise | src/context_guardian/daemon.py:177-180 | In a descending list, no entry's key is below that of a later entry. |
| HistoryOrder.InsertWithKey | src/context_guardian/daemon.py:177-180 | An inserted element goes after all elements with the same key. |
| HistoryOrder.WithKeyAppend | src/context_guardian/daemon.py:177-180 | The elements with a given key of `a + b` are those of `a`, then those of `b`. |
| HistoryOrder.SortIsStable | src/context_guardian/daemon.py:177-180 | Elements sharing a key keep their original order, oldest first. |
| HistoryOrder.InsertPermutes | src/context_guardian/daemon.py:177-180 | Inserting adds exactly the element. |
| HistoryOrder.SortPermutes | src/context_guardian/daemon.py:177-180 | Sorting only reorders: the multiset of events is the same. |
| HistoryOrder.SliceLength | src/context_guardian/daemon.py:181 | The length of `[:limit]` under Python's rules: min(limit, n) for a limit that is not negative, and max(n + limit, 0) for a negative one. |
| HistoryOrder.Front | src/context_guardian/daemon.py:181 | `[:limit]` is a prefix of the list. Its length follows Python's slice rules, negative limits included. |
| HistoryOrder.FrontOfNonNegative | src/context_guardian/daemon.py:181 | For a limit that is not negative, the length is min(limit, length). |
| HistoryOrder.FrontDescending | src/context_guardian/daemon.py:177-181 | A prefix of a descending list is descending. |
| HistoryOrder.FrontSubmultiset | src/context_guardian/daemon.py:181 | A prefix holds no element more often than the whole list. |
| HistoryOrder.WithKeyFront | src/context_guardian/daemon.py:181 | Cutting keeps the first elements of each key. |
| Daemon.Event.constructor | src/context_guardian/daemon.py:91-97 | A history entry holds the time, the two counts, the percentage and the action it was made with. Only its action ever changes. |
| Daemon.GetContextUsage | src/context_guardian/daemon.py:58-78 | There is a usage iff the probe completed and its stdout followed by its stderr parses to one. Timeouts, errors, no match and a `float()` failure all give none. |
| Daemon.ContextGuardian.constructor | src/context_guardian/daemon.py:18-39 | The configuration is the one given, or the defaults when none is given. The history reads as the stored events: none when the file is missing or unreadable, and [] when "events" is absent. Every entry is a new object. |
| Daemon.LoadEvents | src/context_guardian/daemon.py:37 | One new event object is made per stored record, in order. |
| Daemon.ContextGuardian.SaveHistory | src/context_guardian/daemon.py:41-56 | The file becomes `Saved(..)` of its previous state: a successful write stores the events as they read now, with the threshold and the time. A failure in `mkdir` or `open` leaves the file as it was. A failure in `json.dump` or the close, after `open(..., "w")` has emptied the file, leaves it cut short, so the next start reads no events. |
| Daemon.ContextGuardian.CheckAndHandle | src/context_guardian/daemon.py:80-123 | The result is `Succeeded(Decide(..))`. The history reads as before plus `Appended(..)`, and the old entries are kept as a prefix. When compacting, the same new object sits at both new positions. The document follows the first save ("check") and the second save. |
| Daemon.ContextGuardian.Handle | src/context_guardian/daemon.py:86-123 | The same, once the usage has been read. |
| Daemon.ContextGuardian.AppendCheck | src/context_guardian/daemon.py:91-99 | A new "check" event with the usage and the time is appended, then saved. |
| Daemon.ContextGuardian.Escalate | src/context_guardian/daemon.py:107-123 | At or above the threshold, with a dry run or a successful compaction, the event becomes "compact" and is appended again. Otherwise history, document and event are unchanged, and the result is false on a failed compaction. |
| Daemon.ContextGuardian.AppendCompacted | src/context_guardian/daemon.py:119-121 | The one event is changed to "compact" and appended again. The history reads as before, with two "compact" records in place of the "check". |
| Daemon.ContextGuardian.SetThreshold | src/context_guardian/main.py:134-144 | A rejected value changes nothing and gives exit status 1. An accepted value is assigned and then saved, and gives 0. |
| Daemon.ContextGuardian.GetHistory | src/context_guardian/daemon.py:168-181 | The result has the slice's length, is latest first, and holds only events of the history. |
| Daemon.ContextGuardian.GetHistoryKeepsTieOrder | src/context_guardian/daemon.py:177-181 | Events with equal timestamps come out in insertion order, oldest first. |
| Daemon.ContextGuardian.GetHistoryOmitsOnlyEarlier | src/context_guardian/daemon.py:177-181 | No event left out is later than one returned. |
| Daemon.ContextGuardian.GetHistoryLength | src/context_guardian/daemon.py:181 | For a limit that is not negative, the result has min(limit, length) events. |
| Daemon.ContextGuardian.GetHistoryWhole | src/context_guardian/daemon.py:177-181 | A limit covering the history returns every event. |
| Daemon.ContextGuardian.GetStatus | src/context_guardian/daemon.py:151-166 | The status carries the threshold and the history length. The three usage fields are all present, with the usage's values, iff a usage was read. |
| Daemon.CompactSucceeded | src/context_guardian/daemon.py:125-149 | `_compact`'s result: true for an exit with code 0, and false otherwise, or on a timeout or an error. |
| Daemon.Decide | src/context_guardian/daemon.py:80-123 | The branch `check_and_handle` takes: no usage, recorded below the threshold, compacted (a dry run, or a successful compaction), or a failed compaction. |
| Daemon.Appended | src/context_guardian/daemon.py:91-120 | The records a cycle adds, as written: nothing without a usage, one "check" record, or two "compact" records when it compacts. |
| Daemon.AppendedIntended | src/context_guardian/daemon.py:91-120 | The records a cycle was meant to add: a "check" record, followed by a "compact" record when it compacts. |
| Daemon.Saved | src/context_guardian/daemon.py:41-56 | The file after a save attempt. A written save holds the events, the threshold and the time. A failure before `open` leaves the file as it was. A failure after `open(..., "w")` leaves it cut short. |
| Daemon.LoadedEvents | src/context_guardian/daemon.py:29-39 | The events `_load_history` reads: [] for a missing or unreadable file or when "events" is absent, and the stored list otherwise. |
| Daemon.ReadBack | src/context_guardian/daemon.py:34-39 | How the file reads at the next start: a written document gives back its events and threshold, and a file cut short is unreadable. |
| Daemon.CompactSucceedsOnlyOnZeroExit | src/context_guardian/daemon.py:138-149 | Compaction succeeds iff it exits with 0. A timeout or an error fails. |
| Daemon.FailedProbeRecordsNothing | src/context_guardian/daemon.py:73-88 | A probe that timed out or failed gives no usage. The cycle then records nothing and fails. |
| Daemon.BelowThresholdRecordsCheck | src/context_guardian/daemon.py:91-123 | Below the threshold, exactly one "check" record of the reading is added, and the cycle succeeds. |
| Daemon.ThresholdIsInclusive | src/context_guardian/daemon.py:107 | A percentage equal to the threshold takes the compaction branch. |
| Daemon.DryRunCompacts | src/context_guardian/daemon.py:113-114 | A dry run counts as compacted, whatever the command would have done. |
| Daemon.FailedCompactionKeepsCheck | src/context_guardian/daemon.py:116-117 | A failed compaction leaves only the "check" record, and the cycle fails. |
| Daemon.AppendedDescribesReading | src/context_guardian/daemon.py:91-97 | A cycle adds at most two records, and none iff there is no usage. Each record carries the reading's counts, percentage and time. |
| Daemon.CompactingCycleLosesCheck | src/context_guardian/daemon.py:119-120 | As written, a compacting cycle adds two records, and both read "compact". |
| Daemon.IntendedCycleRecordsCheckThenCompact | src/context_guardian/daemon.py:119-120 | As intended, a compacting cycle adds "check", then "compact". |
| Daemon.IntendedDiffersOnlyWhenCompacting | src/context_guardian/daemon.py:119-120 | The two versions add records of the same number and the same second record. The records are equal iff the cycle does not compact. |
| Daemon.ContextGuardian.CheckAndHandleIntended | src/context_guardian/daemon.py:80-123 | The corrected cycle. It returns the same result, and the history reads as before plus `AppendedIntended(..)`. The file is `Saved` after the "check" save, then again after the "compact" save when the cycle compacts; it is unchanged when there is no usage. |
| Daemon.ContextGuardian.HandleIntended | src/context_guardian/daemon.py:86-123 | The same, once the usage has been read, with the file after each save stated the same way. |
| Daemon.ContextGuardian.AppendCompactCopy | src/context_guardian/daemon.py:119-121 | A separate new "compact" event is appended and saved. |
| Daemon.TableRowExample | src/context_guardian/parser.py:63-91 | The status table row "│ agent:main:main │ 84k/200k (42%) │" reads as 84000 of 200000 tokens at 42%. |
| Daemon.StatusExampleParses | src/context_guardian/parser.py:75-91 | "190k/200k (95%)" reads as 190000 of 200000 tokens at 95%. |
| Daemon.MillionsTenthExample | src/context_guardian/parser.py:48-91 | "1.5m/2m (75%)" reads as 1,500,000 of 2,000,000 tokens at 75%. |
| Daemon.ThousandsTenthExample | src/context_guardian/parser.py:48-91 | "0.5k/100k (0%)" reads as 500 of 100,000 tokens at 0%. |
| Daemon.ExampleUsage | src/context_guardian/daemon.py:72 | A probe printing that line yields that usage. |
| Daemon.CompactingExample | src/context_guardian/daemon.py:107-121 | With the default threshold of 75, that usage is Critical and compacts. As written it adds two "compact" records; as intended, "check" then "compact". |
| Daemon.AliasingExample | src/context_guardian/daemon.py:119-120 | A new guardian running that cycle ends with one object twice, and both entries read "compact". |
| Daemon.IntendedExample | src/context_guardian/daemon.py:119-120 | The corrected cycle ends with "check", then "compact". |
| Daemon.ConfiguredThresholdIsUsed | src/context_guardian/daemon.py:107 | Whatever threshold the configuration holds, validated or not, a reading is recorded without compaction iff it is below that threshold. |
| Daemon.UnvalidatedThresholdExample | src/context_guardian/daemon.py:18-27 | A guardian built with threshold 30, which validation rejects, takes it as given: a reading of 30% compacts, and the cycle succeeds. |
| Daemon.RestartKeepsHistoryExample | src/context_guardian/daemon.py:29-56 | Two stored events plus one check with a written save: the next start holds three events. |
| Daemon.InterruptedWriteLosesHistoryExample | src/context_guardian/daemon.py:29-56 | The same cycle with the write interrupted after the file was emptied: the guardian holds three events, and the next start holds none. |
| Daemon.StartGuardian | src/context_guardian/main.py:71-74 | Every command starts a guardian with the defaults and a log level, so its threshold is 75 whatever the file holds. |
| Daemon.ThresholdForgottenExample | src/context_guardian/main.py:134-139 | `set-threshold 60` succeeds and is saved. The next start has threshold 75, while the restoring start has 60. |
| Daemon.ContextGuardian.Restoring | src/context_guardian/daemon.py:29-39 | The corrected start: a stored threshold that passes validation replaces the configured one. |
| Daemon.RestoredThreshold | src/context_guardian/daemon.py:29-39 | The adopted threshold is the configured one, or one that passes validation. |
| Daemon.RestoringAdoptsValidThreshold | src/context_guardian/daemon.py:37-49 | A saved threshold is adopted iff it passes validation (or equals the configured one). |

## Left out

- Running `openclaw status` and `openclaw compact` is not modelled: their outcomes are the parameters `ProbeResult` and `CompactResult`. A missing executable and every other exception of the probe are `ProbeFailed`.
- Reading and writing the JSON file is not modelled, and neither is `mkdir`: the file at start is a `StoredFile`, and each write's success is a `SaveOutcome`.
- Ill-typed JSON content is not modelled: a non-list "events" value, or events without a "timestamp" (on which `get_history` would raise). Stored records are always well-formed.
- The ghost `persisted` holds only what this guardian's writes left in the file (`Untouched` before the first). What was on disk before is not part of it. A write that fails after `open(..., "w")` is modelled as leaving an unreadable file. A failure at the close after the whole document has reached the disk, which would leave a readable file, is not distinguished.
- `datetime.now()` is not modelled. Timestamps are strings passed in, compared as Python compares strings.
- Parser.ParseTokenCount: values are exact decimals, so binary floating-point rounding is not modelled. One decimal place is already enough for the two to differ: `float("64.1")` is slightly below 64.1, and times 1000 it rounds to 64099.99999999999, so "64.1k" gives 64099 in the program and 64100 here (`TenthsOfThousands`, `TenthsOfMillions`). This follows from IEEE 754 double arithmetic. Digit strings long enough to overflow `float` to infinity are not modelled either: `int()` then raises and the probe yields nothing, while the model gives a huge count.
- Parser.UsageOf: the limit of 4300 digits that `int()` puts on a decimal string (Python 3.11 and later, and the late 3.8-3.10 releases) is not modelled. A percentage of more than 4300 digits makes `int()` at `parser.py:85` raise, and `get_context_usage` then returns nothing (`daemon.py:76-78`). Here such a percentage gives `Found`, and `RowParses`, `ParseOpenclawStatus` and `GetContextUsage` inherit the difference.
- Parser.IsDigit: `\d`, `int()` and `float()` also accept non-ASCII decimal digits, and the model accepts only 0-9. The Kelvin sign, which IGNORECASE lets match `k` and which lowers to "k", and Python's whole whitespace set for `\s` are modelled.
- `value.strip()` in `parse_token_count` is not modelled: the matched value never holds whitespace, so the strip changes nothing.
- The display symbols attached to each `ContextLevel` are not modelled, only the order of the levels.
- In Python the configuration is one shared object, and `set-threshold` mutates it in place. Here `Config` is a value held by the guardian.
- Logging (`logger.py`), command-line parsing and printing (`main.py` apart from the start-up and `set-threshold` rules), and packaging are not modelled.
- Two processes writing the same history file at once is not modelled.

Four behaviours of the code are worth stating plainly:

- Equal timestamps keep their insertion order, oldest first, because `sorted(..., reverse=True)` at `daemon.py:177-180` is stable (`SortIsStable`, `GetHistoryKeepsTieOrder`).
- A failed compaction records no "compact" event: `check_and_handle` returns at `daemon.py:116-117` before line 119 (`FailedCompactionKeepsCheck`).
- Numbers without a unit letter are not read: the pattern at `parser.py:75` requires `[km]` after both counts (`NoUnitNoMatch`, `BareNumbersNeverMatch`).
- A compacting cycle leaves no "check" entry: `daemon.py:119-120` changes the event appended at line 98 to "compact" and appends it again (`CompactingCycleLosesCheck`, Findings, row 1).

## Findings

| source | as written | input that shows it | evidently intended | confidence | as-written member | corrected member |
|---|---|---|---|---|---|---|
| src/context_guardian/daemon.py:119-120 | The event appended at line 98 is mutated to "compact" and appended again. The history then holds one object twice, and the file holds no "check" entry for a compacting cycle. | Output "190k/200k (95%)" with the default threshold of 75, and compaction exiting with 0. | A "check" entry followed by a separate "compact" entry. | high; not executed | Daemon.AliasingExample | Daemon.ContextGuardian.CheckAndHandleIntended |
| src/context_guardian/daemon.py:29-39 | The threshold is written to the history document (line 49) but never read back. Every command also starts from `Config(log_level=...)` (main.py:71), so a saved threshold has no effect on any later command. | `set-threshold 60`, then any later command: the threshold is 75. | The saved threshold is in force at the next start. | medium; not executed | Daemon.ThresholdForgottenExample | Daemon.ContextGuardian.Restoring |
