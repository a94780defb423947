# alert_bot: a verified model of the instrument activity monitor

`bot.py` watches a fixed set of market-data instruments stored in ClickHouse.
Every ten minutes it asks each instrument's table for its latest exchange
timestamp. Instruments whose last update is older than ten minutes are
collected into one Telegram alert (MarkdownV2, labels escaped and in bold),
and a restart script is run once. At startup the bot announces itself with
its escaped user name. If that announcement fails, it stops before
monitoring anything.

This project models that core in Dafny. It has five modules, plus the shared
`Option` type (`wrappers.dfy`) and one shared sequence fact (`seqs.dfy`):

- `Markdown` (`markdown.dfy`): `escape_markdown`. `Escape` works character by
  character. `Unescape` is its inverse and also rejects text Escape cannot
  produce.
- `Registry` (`registry.dfy`): the `instruments` dictionary, as a sequence of
  entries with Python's dict insertion semantics. `InstrumentTable` is a
  class whose `Update` method is `dict.update`. `BuildInstruments` runs the
  three comprehensions and both updates.
- `Messages` (`messages.dfy`): the startup text and the alert text. It
  includes `str(n)` for the count and `", ".join`. Parsers read the alert
  back.
- `Monitor` (`monitor.dfy`): `alert_if_instrument_inactive`, as a method with
  the source's loop. It is proved equal to the reference function `Expected`.
- `Scheduler` (`scheduler.dfy`): `main`. `RunBot` handles startup.
  `MonitorLoop` is the `while True` loop, and `RunCycle` is one iteration of
  it.
  - `MonitorLoop` is proved equal to the recursive reference `RunFrom` and
    shown to satisfy the meaning `Ran`.
  - The loop part of `RunBot` satisfies `Ran`.
  - `RunCycle` is proved against `Expected` and `NextStart`.

The outside world is given as inputs:

- Each pass receives a `Replies` value: one `Observation` per instrument
  (a timestamp with the wall-clock reading taken just after it, or a failed
  query), whether the alert was delivered, and whether the script succeeded.
- The event loop's clock is integer seconds. It starts at `t0`, and cycle k's
  pass takes `cycles[k].duration`. `asyncio.sleep` may return late:
  `cycles[k].oversleep` seconds after the time asked for. The next cycle is
  timed from the reading taken on waking, as bot.py:224 does.
- Whether the task is cancelled during cycle k's sleep is an input. A cycle
  whose pass took the whole interval does not sleep (bot.py:232), so the
  flag has no effect on that cycle.
- `get_me` is an `Option` holding the user name. The startup delivery is a
  boolean.

## Model

| member | source | states |
|---|---|---|
| Markdown.EscapeChar | bot.py:154 | a reserved character becomes a backslash followed by the character; any other character is kept as is |
| Markdown.Escape | bot.py:130-154 | the escaped text is the input's length plus one for each reserved character |
| Markdown.EscapeAppend | bot.py:154 | escaping distributes over concatenation: escape(a + b) == escape(a) + escape(b) |
| Markdown.UnescapeEscape | bot.py:130-154 | round trip: removing the backslash before each escaped reserved character recovers the input exactly |
| Markdown.EscapeUnescape | bot.py:130-154 | conversely, every text that unescapes to s is exactly escape(s), so the two are mutually inverse |
| Markdown.EscapeWellEscaped | bot.py:154 | escaped text never contains an unescaped reserved character |
| Markdown.EscapeInjective | bot.py:154 | different inputs give different escaped texts |
| Markdown.CountSpecialAppend | bot.py:130-152 | the number of reserved characters in a + b is the sum of the two counts |
| Markdown.CountSpecialEscape | bot.py:130-154 | escaping doubles the number of reserved characters, because the backslash is itself reserved |
| Markdown.EscapeNoSpecial | bot.py:154 | text with no reserved character is returned unchanged |
| Markdown.EscapeTwiceIff | bot.py:130-154 | escaping is not idempotent: escaping twice equals escaping once exactly when the text holds no reserved character |
| Registry.Labels | bot.py:169 | the labels of a registry, one per entry and in iteration order |
| Registry.UniqueLabelsDistinct | bot.py:46-113 | a registry has unique labels exactly when its sequence of labels has no repeats |
| Registry.IndexOf | bot.py:46-113 | a label's position is its first occurrence, or the registry length when the label is absent |
| Registry.InsertSpec | bot.py:91-113 | one dict insertion keeps labels unique and is a map update on the dictionary view; a known label keeps its place, a new label is appended |
| Registry.InsertKnown | bot.py:91-113 | overwriting a known label keeps labels unique, leaves every label where it was, and updates that label's key in the view |
| Registry.InsertNew | bot.py:91-113 | appending a new label keeps labels unique and adds that label to the view |
| Registry.AsMapReplace | bot.py:91-113 | replacing an entry in place is the map update of its label |
| Registry.UpdatedUnique | bot.py:91-113 | `update` never creates duplicate labels |
| Registry.AsMapAppend | bot.py:91-113 | the view of x + y depends on x only through the view of x |
| Registry.UpdatedAsMap | bot.py:91-113 | on the dictionary view, `d.update(other)` is writing other's entries after d's, with later keys winning |
| Registry.UpdatedFresh | bot.py:91-113 | if no label of `other` is present yet, `update` only appends and moves or overwrites nothing |
| Registry.InstrumentTable.constructor | bot.py:46-89 | a dict comprehension inserts its items in order into an empty table, and its labels are unique |
| Registry.InstrumentTable.Update | bot.py:91-113 | `dict.update` in place: the new entries are the old ones updated with the items, and labels stay unique |
| Registry.BinanceFacts | bot.py:46-89 | the 14 Binance instruments are distinct, all in segment FutT |
| Registry.BitmexFacts | bot.py:91-98 | the 3 BitMEX instruments are distinct |
| Registry.CryptoFacts | bot.py:100-113 | the 8 Crypto instruments are distinct, their segments are Fut or Spt, and none shares a name with a BitMEX instrument |
| Registry.RegistryTemplates | bot.py:46-113 | every one of the 25 entries follows its comprehension's label and table template, in registry order |
| Registry.LabelInjective | bot.py:47 | a label `inst (segm)` determines inst and segm when the segment lengths agree |
| Registry.LabelLastChar | bot.py:47 | equal labels end in the same segment character |
| Registry.LabelsDiffer | bot.py:46-113 | distinct (instrument, segment) pairs of the registry give distinct labels |
| Registry.LabelPairsDistinct | bot.py:46-113 | the 25 (instrument, segment) pairs behind the labels are pairwise distinct |
| Registry.ConcatenatedUnique | bot.py:46-113 | all 25 labels are distinct |
| Registry.BuildAppends | bot.py:91-113 | a comprehension followed by two updates that bring no known label is plain concatenation |
| Registry.BuildInstruments | bot.py:46-113 | the finished registry is the three template lists one after another, 25 entries with unique labels, and neither update overwrote anything |
| Messages.DigitChar | bot.py:183 | each digit value maps to a digit character |
| Messages.DigitValue | bot.py:183 | a digit character reads back as a value below ten |
| Messages.DecimalString | bot.py:183 | `str(n)` is non-empty, all digits, and has no leading zero unless n is 0 |
| Messages.DecimalRoundTrip | bot.py:183 | reading `str(n)` back gives n |
| Messages.DigitRun | bot.py:183 | the length of the leading run of digits, which is followed by a non-digit or by the end |
| Messages.DigitRunPrefix | bot.py:183 | the count's digits, followed by the text after them, end where the count ends |
| Messages.EmphasizedList | bot.py:183 | one bold escaped label per failed instrument |
| Messages.ReadEmphasized | bot.py:183 | a read of one bold label consumes at least its closing `*` |
| Messages.ReadEmphasizedEscape | bot.py:183 | an escaped label ends exactly at the first `*` after it, and it reads back as the label |
| Messages.ParseNamesJoin | bot.py:183 | the `", "`-joined bold escaped labels read back as exactly the original list |
| Messages.ParseAlertShape | bot.py:183 | an alert's fixed words, count and list are recovered from its text |
| Messages.AlertTextParses | bot.py:180-185 | the alert text reads back as exactly (number of failed instruments, the failed labels in order) |
| Messages.UnescapeFramed | bot.py:209 | plain words around an escaped name unescape to those words around the name |
| Messages.StartupWordsPlain | bot.py:209 | the startup message's fixed words hold no reserved character |
| Messages.StartupTextUnescapes | bot.py:209 | the startup text reads as "Bot <user name> initialized successfully" with the name exactly as given |
| Messages.NoSpecialCount | bot.py:130-152 | a text none of whose characters is reserved has count zero |
| Monitor.FirstQueryError | bot.py:169-170 | every query before the first failing one succeeded |
| Monitor.FailedIndices | bot.py:167-178 | the failed positions, ascending, each failed and every failed one present |
| Monitor.AlertIfInstrumentInactive | bot.py:157-194 | the pass's outcome is `Expected`: the first failing query raises; otherwise a non-empty failed list sends one alert (raising if delivery fails) and runs the script once, and an empty list does nothing |
| Monitor.FailedLabelsAtIndices | bot.py:167-178 | the failed list is the registry's labels at the failed positions, in order, and as long as there are failed instruments |
| Monitor.FailedLabelsMembership | bot.py:167-178 | a label is in the failed list if and only if some entry with that label is stale |
| Monitor.FailedEntryListed | bot.py:174-178 | every stale instrument's label is in the failed list |
| Monitor.FailedLabelSource | bot.py:174-178 | every label in the failed list belongs to a stale instrument |
| Monitor.StaleBoundary | bot.py:174-175 | the threshold is strict: exactly ten minutes old is not stale, and one second older is |
| Monitor.FreshNotReported | bot.py:174-178 | with unique labels, an instrument updated within the last ten minutes (boundary included) is not reported |
| Monitor.FailedLabelsDistinct | bot.py:167-178 | with unique registry labels, no label is reported twice |
| Monitor.FailedLabelsEmpty | bot.py:180 | the failed list is empty exactly when no instrument is stale |
| Monitor.CompletedEffects | bot.py:180-194 | a completed pass with failures sends one alert and runs the script once, and the alert reads back as the count and the labels; without failures it does neither |
| Scheduler.SleepTime | bot.py:228-230 | the sleep is never negative; it is zero exactly when the pass used the whole interval, and otherwise it ends one interval after the start |
| Scheduler.NextStartAnchored | bot.py:223-234 | after a pass shorter than 600 s the loop sleeps and the next cycle starts 600 s after this one, plus however late the sleep returned; after a longer pass it starts at once, with no sleep |
| Scheduler.Outcomes | bot.py:223-226 | one pass outcome per cycle |
| Scheduler.Schedule | bot.py:224 | one recorded start per cycle |
| Scheduler.RunCycle | bot.py:224-234 | one iteration: its outcome is the pass's; unless the pass raised, the clock reading on waking is the next start, at least one interval later, and a cancellation is received exactly when the cycle sleeps and is cancelled |
| Scheduler.MonitorLoop | bot.py:222-238 | the loop equals the reference `RunFrom`, and it `Ran`: starts on schedule, effects of the passes in order, every earlier cycle continued, and the last one ended the loop as the exit says |
| Scheduler.RunBot | bot.py:197-238 | startup fails exactly when `get_me` or the announcement fails, and then nothing else happens; otherwise the announcement comes first, followed by the monitoring loop as `Ran` describes |
| Scheduler.ResumedStep | bot.py:223-234 | a cycle that lets the loop go on leaves the remaining run unchanged, one cycle later |
| Scheduler.ResumedStop | bot.py:235-238 | a cycle that raises or is cancelled ends the run with the meaning `Ran` states |
| Scheduler.RunFromMeaning | bot.py:222-238 | the loop resumed after any number of cycles has the meaning `Ran` |
| Scheduler.RunMeaning | bot.py:222-238 | the whole loop from its first cycle has the meaning `Ran` |
| Scheduler.OutcomesAt | bot.py:226 | the k-th recorded outcome is the pass of cycle k |
| Scheduler.OutcomesPrefix | bot.py:226 | the outcomes of a prefix of cycles are a prefix of the outcomes |
| Scheduler.ContinuedIff | bot.py:222-238 | the loop goes past a cycle exactly when its pass raised nothing and no cancellation arrived during its sleep (a pass that overran does not sleep) |
| Scheduler.CycleExitRaised | bot.py:235-238 | a cycle crashes the loop exactly when its pass raises, with that fault; it cancels the loop exactly when nothing was raised, the pass left time to sleep, and it was cancelled |
| Scheduler.ScriptFailureContinues | bot.py:187-194 | a failing restart script changes neither the reported failures nor whether the loop goes on |
| Scheduler.ContinuedAppend | bot.py:222-238 | the loop continues past one more cycle exactly when that cycle lets it |
| Scheduler.FlattenAppend | bot.py:226 | the loop's effects are those of each completed pass, in order |
| Scheduler.QuietLoop | bot.py:180 | if no instrument is ever stale, the loop sends nothing and runs nothing |
| Scheduler.ScheduleAt | bot.py:224 | the k-th recorded start is cycle k's start time |
| Scheduler.StartsClosedForm | bot.py:223-234 | cycle k starts at t0 plus, for each earlier cycle, the larger of 600 s and its pass's duration, plus how late its sleep returned |
| Scheduler.LatenessCarries | bot.py:223-234 | while every pass takes less than 600 s, cycle k starts k * 600 s after the first plus the total lateness of the earlier sleeps: lateness is never made up |
| Scheduler.NoDrift | bot.py:223-234 | while every pass takes less than 600 s and every sleep returns on time, cycle k starts exactly k * 600 s after the first |
| Scheduler.NeverEarly | bot.py:223-234 | cycle k never starts before t0 + k * 600 s: there is no catching up |

## Left out

- The ClickHouse client, SQL and pandas access (bot.py:44, bot.py:170-172) are foreign calls. Each query is modelled as its resulting timestamp, or as an exception.
- `logger` calls and the log directory setup (bot.py:20-39) are I/O with no behaviour to check.
- The Telegram `Bot` API is abstracted. `get_me` is an optional user name. Each `send_message` is a delivered-or-raised flag. A non-Telegram exception raised during startup is not modelled.
- `subprocess.run` is abstracted to a success flag. Only a non-zero exit (`CalledProcessError`, bot.py:193) is caught; it is recorded as a `Remediation(false)` effect.
- A failure to launch the restart script at all, such as an `OSError` from starting `bash`, is not modelled. In the source it escapes the pass after the alert was delivered, and `main`'s generic handler (bot.py:237-238) then ends the loop.
- `asyncio` is not modelled: no event loop, no real sleeping, and no task scheduling.
  - Cancellation is abstracted to the sleep between two cycles.
  - A cancellation during a pass, for example while the alert is being sent, is not modelled.
  - A cancellation requested during a cycle with no sleep would, in the source, arrive at a later `await`. The model only takes a cancellation in a cycle that sleeps.
- `datetime.now()`, `pd.Timedelta` and the float `loop.time()` are replaced by integer seconds. Sub-second timing is not represented.
- Timestamps are taken as given. `max(o_ts_exch)` of an empty table is not modelled, and neither are time zones.
- Commented-out registry entries (bot.py:51-88) are not part of the registry.
- Scheduler.MonitorLoop: the source loops forever. Here the loop stops, reporting `Running`, once the finite list of cycle inputs is used up.
- Markdown.Escape: `SPECIAL_CHARS` is only used for membership, so it is modelled as a set. Its order is not represented.
- The first failing ClickHouse query raises out of `alert_if_instrument_inactive`. It ends the whole loop through `main`'s generic handler, so no alert is sent for that pass. The model follows this code. It does not add a per-instrument fail-safe that would report such an instrument and carry on.
- The module docstring says "5 minutes", but the code uses 10 minutes (bot.py:174). The model uses the code's 600 seconds.
