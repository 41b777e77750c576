/**
 * The persisted session record of lib/pomux.rb and everything the tracker computes from it
 * and the clock. Time is a whole number of seconds passed in as `now`; the source's Float
 * minute values are exact `real`s here.
 */
module Session {
  import opened Wrappers
  import Decimal

  /** One session lasts 25 minutes. */
  const SessionSeconds: int := 25 * 60

  /** Five minutes: the threshold of a "good job" break and of the just-finished glyphs. */
  const BreakSeconds: int := 5 * 60

  /** The record kept in ~/.pomux: `started` is nil while idle. */
  datatype Info = Info(started: Option<int>, last: int, count: nat)

  predicate IsStarted(i: Info) {
    i.started.Some?
  }

  // Whole minutes of a span of seconds, in the two roundings the source uses.

  /** Float#ceil of `seconds / 60`. */
  function CeilMinutes(seconds: int): (m: int)
    ensures 60 * (m - 1) < seconds <= 60 * m
  {
    (seconds + 59) / 60
  }

  /** Float#to_i of `seconds / 60`, which truncates toward zero. */
  function WholeMinutes(seconds: int): (m: int)
    ensures seconds >= 0 ==> 0 <= 60 * m <= seconds < 60 * (m + 1)
    ensures seconds < 0 ==> 60 * (m - 1) < seconds <= 60 * m <= 0
  {
    if seconds >= 0 then seconds / 60 else -((-seconds) / 60)
  }

  // Queries

  /** Minutes since the last session ended (or was aborted); defined while idle too. */
  function Elapsed(i: Info, now: int): (m: real)
    ensures m == 0.0 <==> now == i.last
    ensures m > 0.0 <==> now > i.last
  {
    (now - i.last) as real / 60.0
  }

  /** The deadline of the running session. */
  function Ending(i: Info): (e: int)
    requires IsStarted(i)
    ensures (e - i.started.value) as real / 60.0 == 25.0
  {
    i.started.value + SessionSeconds
  }

  /** Minutes left until the deadline. */
  function Remaining(i: Info, now: int): (m: real)
    requires IsStarted(i)
    ensures m <= 0.0 <==> now >= Ending(i)
    ensures m > 0.0 <==> now < Ending(i)
  {
    (Ending(i) - now) as real / 60.0
  }

  /** `done?`: no time remains. */
  function IsDone(i: Info, now: int): (done: bool)
    requires IsStarted(i)
    ensures done <==> now >= i.started.value + SessionSeconds
  {
    Remaining(i, now) <= 0.0
  }

  /** `remaining.ceil`: the minutes `poll` reports while the session runs. */
  function PollMinutes(i: Info, now: int): (m: int)
    requires IsStarted(i)
    ensures (m - 1) as real < Remaining(i, now) <= m as real
  {
    var s := Ending(i) - now;
    assert 60 * (CeilMinutes(s) - 1) < s <= 60 * CeilMinutes(s);
    CeilMinutes(s)
  }

  // Transitions of the record

  /** `start(slip)`: backdates the start by `slip` minutes; a no-op when already started. */
  function Begin(i: Info, now: int, slip: int): (r: Info)
    ensures IsStarted(r) && r.count == i.count && r.last == i.last
    ensures IsStarted(i) ==> r == i
    ensures !IsStarted(i) ==> r.started == Some(now - 60 * slip)
  {
    if IsStarted(i) then i else i.(started := Some(now - slip * 60))
  }

  /** `done!`: ends the running session and counts it; a no-op when idle. */
  function Finish(i: Info, now: int): (r: Info)
    ensures !IsStarted(r)
    ensures !IsStarted(i) ==> r == i
    ensures IsStarted(i) ==> r.count == i.count + 1 && r.last == now
  {
    if !IsStarted(i) then i else Info(None, now, i.count + 1)
  }

  /** `abort`: ends the session from any state without counting it. */
  function Abandon(i: Info, now: int): (r: Info)
    ensures !IsStarted(r) && r.last == now && r.count == i.count
  {
    i.(started := None, last := now)
  }

  /** `reset` does something only while started or after a completed session. */
  predicate CanReset(i: Info) {
    IsStarted(i) || i.count > 0
  }

  /** `reset`: zeroes the count and keeps the rest. */
  function ClearCount(i: Info): (r: Info)
    ensures r.count == 0 && r.started == i.started && r.last == i.last
    ensures !CanReset(i) ==> r == i
  {
    if CanReset(i) then i.(count := 0) else i
  }

  /** The message `reset` returns. */
  function ResetMessage(i: Info): (msg: string)
    ensures |msg| >= 17 && msg[..15] == "Resetting from " && msg[|msg| - 1] == '.'
    ensures Decimal.AllDigits(msg[15..|msg| - 1])
    ensures msg[15] == '0' ==> |msg| == 17
  {
    var digits := Decimal.NatToDecimal(i.count);
    var msg := "Resetting from " + digits + ".";
    assert msg[15..|msg| - 1] == digits;
    msg
  }

  /** The value `poll` returns and the record after it. */
  datatype Polled = Polled(minutes: Option<int>, after: Info)

  /** `poll`: nil while idle; 0 and `done!` at or after the deadline; else minutes left, rounded up. */
  function PollStep(i: Info, now: int): (p: Polled)
    ensures !IsStarted(i) ==> p == Polled(None, i)
    ensures IsStarted(i) ==> p.minutes.Some? && (p.minutes.value == 0 <==> now >= Ending(i))
    ensures IsStarted(i) && now >= Ending(i) ==> p.after == Finish(i, now)
    ensures IsStarted(i) && now < Ending(i) ==>
              p.after == i && (p.minutes.value - 1) as real < Remaining(i, now) <= p.minutes.value as real
  {
    if !IsStarted(i) then Polled(None, i)
    else if IsDone(i, now) then Polled(Some(0), Finish(i, now))
    else Polled(Some(PollMinutes(i, now)), i)
  }

  // Properties of the transitions that relate several calls

  /** Starting twice in a row keeps the first start. */
  lemma StartTwiceKeepsFirst(i: Info, t1: int, slip1: int, t2: int, slip2: int)
    ensures Begin(Begin(i, t1, slip1), t2, slip2) == Begin(i, t1, slip1)
  {
  }

  /** A slip of N minutes leaves 25 - N minutes of the session. */
  lemma SlipShortensSession(i: Info, now: int, slip: int)
    requires !IsStarted(i)
    ensures Remaining(Begin(i, now, slip), now) == (25 - slip) as real
  {
  }

  /** After a start, `poll` counts down whole minutes: 25, 24, ..., 1, and changes nothing. */
  lemma PollCountsDown(i: Info, t: int, k: int)
    requires !IsStarted(i) && 0 <= k < 25
    ensures PollStep(Begin(i, t, 0), t + 60 * k) == Polled(Some(25 - k), Begin(i, t, 0))
  {
    var s := Begin(i, t, 0);
    var m := PollMinutes(s, t + 60 * k);
    assert 60 * (m - 1) < 60 * (25 - k) <= 60 * m;
  }

  /** Between whole minutes `poll` rounds up. */
  lemma PollRoundsUp(i: Info, t: int, k: int, sec: int)
    requires !IsStarted(i) && 0 <= k < 25 && 0 < sec < 60
    ensures PollStep(Begin(i, t, 0), t + 60 * k + sec) == Polled(Some(25 - k), Begin(i, t, 0))
  {
    var s := Begin(i, t, 0);
    var m := PollMinutes(s, t + 60 * k + sec);
    assert 60 * (m - 1) < 60 * (25 - k) - sec <= 60 * m;
  }

  /** At or after the deadline `poll` reports 0, ends the session, counts it and stamps `last`. */
  lemma PollAtDeadline(i: Info, t: int, now: int)
    requires !IsStarted(i) && now >= t + SessionSeconds
    ensures PollStep(Begin(i, t, 0), now) == Polled(Some(0), Info(None, now, i.count + 1))
  {
  }

  /** `done!` twice in a row counts the session once. */
  lemma FinishTwiceCountsOnce(i: Info, t1: int, t2: int)
    ensures Finish(Finish(i, t1), t2) == Finish(i, t1)
    ensures Finish(Finish(i, t1), t2).count == i.count + (if IsStarted(i) then 1 else 0)
  {
  }

  /** Right after `abort` no time has elapsed; 45 minutes later 45 have. */
  lemma ElapsedAfterAbort(i: Info, t: int, k: int)
    ensures Elapsed(Abandon(i, t), t) == 0.0
    ensures Elapsed(Abandon(i, t), t + 60 * k) == k as real
  {
  }

  /** The message of `reset` names the count it reset from. */
  lemma ResetMessageNamesCount(i: Info)
    ensures var msg := ResetMessage(i);
            Decimal.DecimalToNat(msg[15..|msg| - 1]) == i.count
  {
    var msg := ResetMessage(i);
    assert msg[15..|msg| - 1] == Decimal.NatToDecimal(i.count);
    Decimal.DecimalRoundTrip(i.count);
  }

  /** Only `reset` lowers the count: every other transition keeps or raises it. */
  lemma CountOnlyFallsOnReset(i: Info, now: int, slip: int)
    ensures Begin(i, now, slip).count == i.count
    ensures Abandon(i, now).count == i.count
    ensures Finish(i, now).count >= i.count
    ensures PollStep(i, now).after.count >= i.count
  {
  }

  /** A fresh record, started and polled 25 minutes later: one session done, idle again. */
  lemma FreshSessionEndToEnd(t0: int)
    ensures Begin(Info(None, t0, 0), t0, 0) == Info(Some(t0), t0, 0)
    ensures PollStep(Info(Some(t0), t0, 0), t0 + SessionSeconds)
            == Polled(Some(0), Info(None, t0 + SessionSeconds, 1))
  {
  }
}
