# pomux session tracker, modelled in Dafny

`pomux` is a personal pomodoro timer. One record, `{started, last, count}`, is kept in
`~/.pomux`. `started` is nil while idle and holds the start time while a 25-minute session runs.
`last` is when the previous session ended or was aborted. `count` is the number of completed
sessions since the last reset. The class `Pomux` in `lib/pomux.rb` runs guarded transitions on
this record: `start`, `done!`, `abort`, `reset` and `log`. It also answers queries from the
record and the clock: `elapsed`, `remaining`, `done?`, `poll` and `progress`.

This project models that class and its summary logger:

- `wrappers.dfy` — `Option`, for Ruby's nil-or-value.
- `decimal.dfy` — `Integer#to_s` and `String#to_i` on digit strings, with both round trips.
- `session.dfy` — the record (`Info`), the clock arithmetic and the pure transitions
  (`Begin` = start, `Finish` = done!, `Abandon` = abort, `ClearCount` = reset, `PollStep` = poll).
  It also holds the lemmas for the behaviour the tests pin down: 25/24/20/1 minutes,
  0 at the deadline, and `done!` twice counting once.
- `commands.dfy` — the `method_missing` parser that turns `start_minus_5` into a slip of 5.
- `display.dfy` — `progress`: minutes left, a just-finished glyph, or the count glyph.
- `loggers.dfy` — the logger pipeline of `log`, plus the summary, git and journal loggers.
- `tracker.dfy` — class `Pomux` with fields `started`, `last`, `count` and `logString`.
  Its methods update the fields in place. Each method's contract ties the new record to the
  pure transition and says exactly what the ghost `trace` gains.

The clock is a parameter `now`, in whole seconds. Ruby's Float minutes are exact `real`s:
`elapsed` is `(now - last) / 60` and `remaining` is `(started + 1500 - now) / 60`. `poll` rounds
up (`Float#ceil`), and `.to_i` truncates toward zero (`Session.WholeMinutes`). The ghost `trace`
stands in for `save` and `notify`. Each save appends `Saved(snapshot)` and each notification
appends `Notified(message, sticky)`, so "nothing was saved or shown" reads `trace == old(trace)`.
`started?` is `Session.IsStarted`. It has no contract of its own and appears in the contracts
below.

Two behaviours of the code that are easy to miss:

- `start` is a no-op whenever `started` is set. That includes a session past its deadline that
  nobody has polled yet, not only a running one.
- `progress` with `count > 10` returns nil (`counters[count]` past the end of the table). The
  model returns `None` there.

## Model

| member | source | states |
|---|---|---|
| Decimal.NatToDecimal | lib/pomux.rb:116 | the text of a number is a non-empty string of digits whose first digit is `0` only for zero |
| Decimal.IntToDecimal | lib/pomux.rb:97 | the text of an integer starts with `-` exactly when it is negative; its digits read back as its absolute value and have no leading zero |
| Decimal.DecimalToNat | lib/pomux.rb:30 | `String#to_i` of digits: a leading zero does not change the value |
| Decimal.DecimalRoundTrip | lib/pomux.rb:29-30 | reading back the digits of any number gives that number |
| Decimal.DecimalCanonical | lib/pomux.rb:29-30 | a digit string without leading zeros is the text of its own value |
| Session.CeilMinutes | lib/pomux.rb:66 | the result is the least whole number of minutes covering the given seconds |
| Session.WholeMinutes | lib/pomux.rb:23 | seconds over 60 truncated toward zero: bounds for spans of either sign |
| Session.Elapsed | lib/pomux.rb:40-42 | minutes since `last`: zero exactly at `last`, positive exactly after it |
| Session.Ending | lib/pomux.rb:48-50 | the deadline lies 25 minutes after `started` |
| Session.Remaining | lib/pomux.rb:91-93 | minutes left are positive exactly before `started + 25 min` and non-positive from then on |
| Session.IsDone | lib/pomux.rb:71-73 | `done?` holds iff `now >= started + 1500` seconds |
| Session.PollMinutes | lib/pomux.rb:66 | `remaining.ceil`: one less than the result is below the minutes left, and the result is at least them |
| Session.Begin | lib/pomux.rb:18-20 | from idle, `started = now - 60*slip`; from started, the record is unchanged; `count` and `last` are always kept |
| Session.Finish | lib/pomux.rb:75-79 | afterwards idle; from active, `count + 1` and `last = now`; from idle, the record is unchanged |
| Session.Abandon | lib/pomux.rb:126-128 | from any state, idle afterwards with `last = now` and `count` kept |
| Session.ClearCount | lib/pomux.rb:114-117 | `count = 0` with `started` and `last` kept; with nothing to reset the record is unchanged |
| Session.PollStep | lib/pomux.rb:60-69 | nil and no change while idle; 0 and `done!` exactly at or after the deadline; otherwise the rounded-up minutes left, record unchanged |
| Session.StartTwiceKeepsFirst | lib/pomux.rb:18-19 | a second `start` keeps the first start's record |
| Session.SlipShortensSession | lib/pomux.rb:20 | a slip of N minutes leaves 25 - N minutes right away |
| Session.PollCountsDown | spec/pomux_spec.rb:111-126 | k whole minutes after a start, `poll` returns 25 - k (25, 24, 20 after 5, 1 after 24) and changes nothing |
| Session.PollRoundsUp | lib/pomux.rb:66 | part-way through a minute, `poll` reports the minute not yet finished |
| Session.PollAtDeadline | lib/pomux.rb:62-64 | at or after 25 minutes, `poll` returns 0, clears `started`, adds 1 to `count` and sets `last = now` |
| Session.FinishTwiceCountsOnce | spec/pomux_spec.rb:177-181 | `done!` twice equals `done!` once, and the count rises by exactly one only from active |
| Session.ElapsedAfterAbort | spec/pomux_spec.rb:74-80 | `elapsed` is 0 right after `abort` and k minutes k minutes later (45 after 45) |
| Session.ResetMessage | lib/pomux.rb:116 | the message is `Resetting from `, then digits without a leading zero, then `.` |
| Session.ResetMessageNamesCount | lib/pomux.rb:116 | the digits of the `reset` message read back as the prior count |
| Session.CountOnlyFallsOnReset | lib/pomux.rb:75-79 | start, abort, done! and poll never lower `count` |
| Session.FreshSessionEndToEnd | spec/pomux_spec.rb:156-159 | a fresh record started at T and polled at T + 25 min is idle with `count == 1` and `last` at the deadline |
| Commands.LeadingDigits | lib/pomux.rb:29 | `\d+` takes a prefix made of digits that stops only at a non-digit or the end |
| Commands.Capture | lib/pomux.rb:29 | a capture is a non-empty string of digits |
| Commands.ParseSlip | lib/pomux.rb:29-30 | nil exactly when no `minus_` plus a digit occurs; otherwise `to_i` of the digits after the leftmost occurrence |
| Commands.CaptureIsLeftmostMatch | lib/pomux.rb:29 | nil exactly when `minus_` plus a digit occurs nowhere; otherwise the digits after the leftmost occurrence |
| Commands.SkipPrefix | lib/pomux.rb:29 | characters before the first `m` never start a match |
| Commands.StartMinusParses | spec/pomux_spec.rb:56-61 | `start_minus_N` yields a slip of N for every N |
| Display.IdleProgress | lib/pomux.rb:98-106 | within 5 minutes of `last`, a just-finished glyph; later, the glyph of `count` for counts 0..10 and nil beyond |
| Display.ActiveText | lib/pomux.rb:97 | `"#{poll}m"`: ends in `m`; for non-negative minutes the rest reads back as the minutes, without a leading zero |
| Display.Render | lib/pomux.rb:95-107 | `0m` at or after the deadline (poll completes the session); the rounded-up minutes left before it; the idle glyph while idle |
| Display.GlyphTables | lib/pomux.rb:99 | each just-finished glyph can be drawn, and none is a count glyph |
| Display.CountersDistinct | lib/pomux.rb:105-106 | the count glyph determines the count |
| Display.ProgressCountsDown | spec/pomux_spec.rb:111-126 | `progress` of a running session reads `25m`, `24m`, ..., `1m` |
| Display.ProgressAfterDeadline | spec/pomux_spec.rb:128-132 | polled at the deadline, `poll` gives 0 and `progress` then shows a just-finished glyph |
| Display.ProgressOnBreak | spec/pomux_spec.rb:134-143 | more than 5 minutes after `done!`, `progress` shows the glyph of the new count |
| Loggers.Fragments | lib/pomux.rb:140 | one fragment per logger, each computed from the join of the fragments before it |
| Loggers.Report | lib/pomux.rb:140 | no loggers give the empty report; a single logger's report is that logger's output on the empty text |
| Loggers.FragmentsUnique | lib/pomux.rb:140 | any fragment sequence where each logger was handed the text before it is `Fragments` |
| Loggers.ReportSnoc | lib/pomux.rb:140 | an extra logger appends its fragment of the report so far |
| Loggers.ReportExtends | lib/pomux.rb:140 | the report of the first k loggers is a prefix of the whole report |
| Loggers.Minutes | lib/pomux.rb:164 | a multiple of 30: half an hour per completed session |
| Loggers.SummaryText | lib/pomux.rb:167-169 | the summary line is `count*30`, `m + `, the whole minutes elapsed, `m `, the directory name and the `---` separator, with nothing else between them |
| Loggers.SummaryLogger | lib/pomux.rb:156-170 | the summary logger gives the summary line whatever text was logged before it |
| Loggers.GitLogger | lib/pomux.rb:172-176 | the git logger gives the commits of the git window, whatever text was logged before it |
| Loggers.DayOneLogger | lib/pomux.rb:178-183 | the journal logger adds nothing to the report |
| Loggers.DefaultLoggers | lib/pomux.rb:147-149 | three loggers in order: summary, git, journal |
| Loggers.GitWindow | lib/pomux.rb:174 | the git window is `minutes + elapsed` truncated toward zero |
| Loggers.DefaultReport | lib/pomux.rb:147-149 | with the default loggers, the report is the summary line followed by the commits |
| Loggers.SummaryShowsElapsed | spec/pomux_spec.rb:248-251 | five minutes after `last`, the summary reads `m + 5m` after the session minutes |
| Loggers.SummaryOpensWithMinutes | spec/pomux_spec.rb:233-251 | the summary opens with `60m ` after two sessions and `0m ` after none |
| Tracker.BreakMessage | lib/pomux.rb:22-23 | the break summary opens with the whole minutes since `last` and ends `minute break, good job.` after more than 5 minutes, else `minute break, chill out!.`; nothing lies between the two |
| Tracker.Pomux.constructor | lib/pomux.rb:10-12 | the tracker holds the loaded record, no report and an empty trace |
| Tracker.Pomux.Save | lib/pomux.rb:14-16 | a snapshot of the record is appended to the trace |
| Tracker.Pomux.Notify | lib/pomux.rb:85-89 | the message is appended to the trace and returned |
| Tracker.Pomux.Start | lib/pomux.rb:18-26 | when started, nothing changes and nothing is saved or shown; from idle, `started = now - 60*slip` with `count` and `last` kept, then one save and the break summary |
| Tracker.Pomux.MethodMissing | lib/pomux.rb:28-34 | a name with `minus_N` starts with slip N, with the save and break summary when idle and no trace entry when already started; any other name is not found and changes nothing |
| Tracker.Pomux.Done | lib/pomux.rb:75-83 | from idle, nothing changes and nothing is saved; from active, `started` is cleared, `count + 1` and `last = now`, one save and a sticky `done!` |
| Tracker.Pomux.Poll | lib/pomux.rb:60-69 | returns and leaves what `PollStep` says; saves and notifies only when it completes the session |
| Tracker.Pomux.Abort | lib/pomux.rb:126-131 | from any state `started` is cleared and `last = now`, `count` is kept, then one save and `Aborted` |
| Tracker.Pomux.Reset | lib/pomux.rb:114-120 | idle with `count == 0`: nil, no change, no save; otherwise `count = 0`, `started` and `last` kept, one save and the message naming the prior count |
| Tracker.Pomux.Progress | lib/pomux.rb:95-108 | returns `Display.Render` of the prior record and leaves the record `poll` leaves |
| Tracker.Pomux.Log | lib/pomux.rb:139-145 | returns and keeps the in-order join of the loggers' fragments; afterwards `count == 0` and `last = now`; the `reset` save (if any) and then one more save |
| Tracker.RunLoggers | lib/pomux.rb:140 | the `inject` loop over the loggers returns exactly `Loggers.Report` of them |
| Tracker.FreshSession | spec/pomux_spec.rb:156-159 | a fresh tracker driven through `start` and then `poll` at 25 minutes ends idle with `count == 1` |

## Left out

- Reading and writing `~/.pomux` as YAML (`path`, `info`, `save`). The constructor takes the loaded record, and `save` appends a snapshot to the ghost trace.
- The processes `notify` and the transitions spawn: growlnotify, the tmux refresh, `killall Mail` in `start`, and the iTunes script in `done!`. These are external programs. Only the notification's message and stickiness are recorded.
- `growl` is `notify` applied to the result of `progress`, which is modelled (`Tracker.Pomux.Progress`, including the poll that can complete a session). Only the `notify` part, an external process, is left out.
- GitLogger's `git log` shell call is the parameter `commitsSince`, given the window in minutes.
- DayOneLogger's spawns and clipboard copy are not modelled. The model keeps its empty fragment.
- `Dir.pwd` in PomuxLogger is the parameter `dir`, the directory name already extracted.
- Loggers.SummaryText: prints `elapsed` as whole minutes truncated toward zero. Ruby prints the Float itself (for example `0.0`).
- `count(silent=false)` printing the count. `count` itself is the field.
- The aliases `report`, `stop` and `quit` are the same members as `progress` and `abort`. The readers `started`, `ended` and `log_string` are the fields.
- `respond_to_missing`, which is reflection glue.
- Aliasing in `log`: in Ruby each logger is handed the live tracker and the accumulator string itself, so a logger that changed either would change the report. A `Loggers.Logger` here is a pure function of a read-only view and a copy of the text. The default loggers change neither.
- The random `Array#sample` among the three just-finished glyphs is the parameter `sample`, an index taken modulo 3.
- Float rounding, and the sub-second precision of `Time`. Minutes are exact rationals over whole seconds.
- Session.Remaining, Session.IsDone, Session.Ending and Session.PollMinutes require a started record. In Ruby they raise `NoMethodError` on `nil + 1500`. Every caller in the source checks `started?` first.
