/**
 * The `Pomux` tracker: the record's three fields, updated in place by the transitions.
 * Each transition that writes the record to ~/.pomux appends a snapshot to the ghost `trace`,
 * and each notification it shows appends the message, so "nothing was saved or shown" is
 * `trace == old(trace)`.
 */
module Tracker {
  import opened Wrappers
  import opened Session
  import Decimal
  import Commands
  import Display
  import Loggers

  /** What a transition did outside the record: a save, or a notification. */
  datatype Effect = Saved(record: Info) | Notified(message: string, sticky: bool)

  /** The break summary `start` shows: whole minutes since the last session and a verdict. */
  function BreakMessage(i: Info, now: int): (msg: string)
    ensures var n := Decimal.IntToDecimal(WholeMinutes(now - i.last));
            |n| <= |msg| && msg[..|n|] == n
    ensures now - i.last > BreakSeconds ==> |msg| >= 24 && msg[|msg| - 24..] == " minute break, good job."
    ensures now - i.last <= BreakSeconds ==> |msg| >= 26 && msg[|msg| - 26..] == " minute break, chill out!."
    ensures |msg| == |Decimal.IntToDecimal(WholeMinutes(now - i.last))| + (if now - i.last > BreakSeconds then 24 else 26)
  {
    var n := Decimal.IntToDecimal(WholeMinutes(now - i.last));
    var tail := " minute break, " + (if now - i.last > BreakSeconds then "good job" else "chill out!") + ".";
    assert (n + tail)[..|n|] == n && (n + tail)[|n|..] == tail;
    n + tail
  }

  class Pomux {
    var started: Option<int>
    var last: int
    var count: nat
    /** The report of the last `log`, nil before any. */
    var logString: Option<string>
    ghost var trace: seq<Effect>

    /** The record as it would be saved. */
    function Record(): Info
      reads this
    {
      Info(started, last, count)
    }

    /** A tracker over the record loaded from ~/.pomux. */
    constructor (loaded: Info)
      ensures Record() == loaded && logString == None && trace == []
    {
      started, last, count := loaded.started, loaded.last, loaded.count;
      logString := None;
      trace := [];
    }

    /** `save`: the record is written out. */
    method Save()
      modifies this`trace
      ensures trace == old(trace) + [Saved(Record())]
    {
      trace := trace + [Saved(Record())];
    }

    /** `notify`: shows a message and returns it. */
    method Notify(message: string, sticky: bool) returns (shown: string)
      modifies this`trace
      ensures shown == message
      ensures trace == old(trace) + [Notified(message, sticky)]
    {
      trace := trace + [Notified(message, sticky)];
      shown := message;
    }

    /** `start(slip)`: from idle, starts `slip` minutes ago, saves and shows the break summary. */
    method Start(now: int, slip: int)
      modifies this
      ensures Record() == Begin(old(Record()), now, slip)
      ensures count == old(count) && last == old(last) && logString == old(logString)
      ensures old(started).Some? ==> started == old(started) && trace == old(trace)
      ensures old(started).None? ==> started == Some(now - 60 * slip)
      ensures old(started).None? ==>
                trace == old(trace) + [Saved(Record()), Notified(BreakMessage(old(Record()), now), false)]
    {
      if started.Some? {
        return;
      }
      started := Some(now - slip * 60);
      Save();
      var _ := Notify(BreakMessage(Record(), now), false);
    }

    /** `method_missing`: a name with `minus_N` starts with a slip of N; any other name is not found. */
    method MethodMissing(name: string, now: int) returns (found: bool)
      modifies this
      ensures found <==> Commands.ParseSlip(name).Some?
      ensures found ==> Record() == Begin(old(Record()), now, Commands.ParseSlip(name).value)
      ensures found ==>
                trace == old(trace) + (if old(started).None?
                                       then [Saved(Record()), Notified(BreakMessage(old(Record()), now), false)]
                                       else [])
      ensures !found ==> Record() == old(Record()) && trace == old(trace)
      ensures logString == old(logString)
    {
      var slip := Commands.ParseSlip(name);
      found := slip.Some?;
      if found {
        Start(now, slip.value);
      }
    }

    /** `done!`: ends and counts the running session, saves and shows a sticky "done!". */
    method Done(now: int) returns (shown: Option<string>)
      modifies this
      ensures Record() == Finish(old(Record()), now)
      ensures logString == old(logString)
      ensures old(started).None? ==> shown == None && trace == old(trace)
      ensures old(started).Some? ==>
                started == None && count == old(count) + 1 && last == now
                && shown == Some("done!")
                && trace == old(trace) + [Saved(Record()), Notified("done!", true)]
    {
      if started.None? {
        return None;
      }
      started := None;
      count := count + 1;
      last := now;
      Save();
      var m := Notify("done!", true);
      shown := Some(m);
    }

    /** `poll`: nil while idle; at the deadline `done!` and 0; else the minutes left, rounded up. */
    method Poll(now: int) returns (minutes: Option<int>)
      modifies this
      ensures Polled(minutes, Record()) == PollStep(old(Record()), now)
      ensures logString == old(logString)
      ensures trace == old(trace) + (if IsStarted(old(Record())) && now >= Ending(old(Record()))
                                     then [Saved(Record()), Notified("done!", true)] else [])
    {
      if started.None? {
        return None;
      }
      if IsDone(Record(), now) {
        var _ := Done(now);
        minutes := Some(0);
      } else {
        minutes := Some(PollMinutes(Record(), now));
      }
    }

    /** `abort` (`stop`, `quit`): ends the session from any state without counting it. */
    method Abort(now: int) returns (shown: string)
      modifies this
      ensures Record() == Abandon(old(Record()), now)
      ensures started == None && last == now && count == old(count)
      ensures logString == old(logString)
      ensures shown == "Aborted"
      ensures trace == old(trace) + [Saved(Record()), Notified("Aborted", false)]
    {
      started := None;
      last := now;
      Save();
      shown := Notify("Aborted", false);
    }

    /** `reset`: while started or after a session, zeroes the count, saves and says from what. */
    method Reset() returns (message: Option<string>)
      modifies this
      ensures Record() == ClearCount(old(Record()))
      ensures started == old(started) && last == old(last) && count == 0
      ensures logString == old(logString)
      ensures !CanReset(old(Record())) ==> message == None && trace == old(trace)
      ensures CanReset(old(Record())) ==>
                message == Some(ResetMessage(old(Record()))) && trace == old(trace) + [Saved(Record())]
    {
      if !(started.Some? || count > 0) {
        return None;
      }
      message := Some(ResetMessage(Record()));
      count := 0;
      Save();
    }

    /** `progress` (`report`): polls a running session, else shows the idle glyph. */
    method Progress(now: int, sample: nat) returns (text: Option<string>)
      modifies this
      ensures text == Display.Render(old(Record()), now, sample)
      ensures Record() == PollStep(old(Record()), now).after
      ensures logString == old(logString)
      ensures trace == old(trace) + (if IsStarted(old(Record())) && now >= Ending(old(Record()))
                                     then [Saved(Record()), Notified("done!", true)] else [])
    {
      if started.Some? {
        var m := Poll(now);
        text := Some(Display.ActiveText(m.value));
      } else {
        text := Display.IdleProgress(Record(), now, sample);
      }
    }

    /**
     * `log`: runs the loggers in order, each on the text logged before it, keeps the joined
     * report, then resets the count and stamps `last`.
     */
    method Log(now: int, loggers: seq<Loggers.Logger>) returns (report: string)
      modifies this
      ensures report == Loggers.Report(loggers, Loggers.View(old(Record()), now))
      ensures logString == Some(report)
      ensures Record() == Info(old(started), now, 0)
      ensures trace == old(trace)
                       + (if CanReset(old(Record())) then [Saved(ClearCount(old(Record())))] else [])
                       + [Saved(Record())]
    {
      var acc := RunLoggers(loggers, Loggers.View(Record(), now));
      logString := Some(acc);
      var _ := Reset();
      last := now;
      Save();
      report := acc;
    }
  }

  /** The `inject` of `log`: each logger in turn appends its fragment of the text so far. */
  method RunLoggers(loggers: seq<Loggers.Logger>, v: Loggers.View) returns (acc: string)
    ensures acc == Loggers.Report(loggers, v)
  {
    acc := "";
    var i := 0;
    while i < |loggers|
      invariant 0 <= i <= |loggers|
      invariant acc == Loggers.Report(loggers[..i], v)
    {
      Loggers.ReportSnoc(loggers[..i], loggers[i], v);
      assert loggers[..i + 1] == loggers[..i] + [loggers[i]];
      acc := acc + loggers[i](v, acc);
      i := i + 1;
    }
    assert loggers[..i] == loggers;
  }

  /** The session of a fresh record, driven through the tracker's methods. */
  method FreshSession(t0: int) returns (p: Pomux)
    ensures p.Record() == Info(None, t0 + SessionSeconds, 1)
  {
    p := new Pomux(Info(None, t0, 0));
    p.Start(t0, 0);
    assert p.started == Some(t0) && p.count == 0;
    var m := p.Poll(t0 + SessionSeconds);
    assert m == Some(0);
    var again := p.Done(t0 + SessionSeconds);
    assert again == None;
  }
}
