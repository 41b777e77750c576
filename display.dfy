/** The short status text of `progress`: minutes left, a just-finished glyph, or a count glyph. */
module Display {
  import opened Wrappers
  import opened Session
  import Decimal

  /** The three glyphs shown during the first five minutes after a session (U+21C8, U+169A, U+21F6). */
  const JustFinished: seq<string> := ["\U{21C8}", "\U{169A}", "\U{21F6}"]

  /** One glyph per completed-session count 0..10 (U+29BF, then U+278A..U+2793). */
  const Counters: seq<string> := [
    "\U{29BF}", "\U{278A}", "\U{278B}", "\U{278C}", "\U{278D}", "\U{278E}",
    "\U{278F}", "\U{2790}", "\U{2791}", "\U{2792}", "\U{2793}"
  ]

  /**
   * `progress` while idle. `sample` stands for the random choice of `Array#sample`;
   * `counters[count]` is nil past the end of the table.
   */
  function IdleProgress(i: Info, now: int, sample: nat): (r: Option<string>)
    ensures now - i.last <= BreakSeconds ==> r.Some? && r.value in JustFinished
    ensures now - i.last > BreakSeconds ==> (r.Some? <==> i.count <= 10)
    ensures now - i.last > BreakSeconds && r.Some? ==> r.value == Counters[i.count]
  {
    if now - i.last <= BreakSeconds then Some(JustFinished[sample % |JustFinished|])
    else if i.count < |Counters| then Some(Counters[i.count])
    else None
  }

  /** `"#{poll}m"`: the text of the running session. */
  function ActiveText(minutes: int): (s: string)
    ensures |s| >= 2 && s[|s| - 1] == 'm'
    ensures minutes >= 0 ==>
              Decimal.AllDigits(s[..|s| - 1]) && Decimal.DecimalToNat(s[..|s| - 1]) == minutes
    ensures minutes >= 0 ==> (s[0] == '0' ==> |s| == 2)
  {
    var digits := Decimal.IntToDecimal(minutes);
    assert (digits + "m")[..|digits|] == digits;
    digits + "m"
  }

  /** `progress`: the running session's minutes (after `poll`), or the idle glyph. */
  function Render(i: Info, now: int, sample: nat): (r: Option<string>)
    ensures IsStarted(i) && now >= Ending(i) ==> r == Some("0m")
    ensures IsStarted(i) && now < Ending(i) ==> r == Some(ActiveText(PollMinutes(i, now)))
    ensures !IsStarted(i) ==> r == IdleProgress(i, now, sample)
  {
    assert Decimal.NatToDecimal(0) == "0";
    assert ActiveText(0) == "0m";
    if IsStarted(i) then Some(ActiveText(PollStep(i, now).minutes.value))
    else IdleProgress(i, now, sample)
  }

  /** Every just-finished glyph can be drawn, and no glyph of one table is in the other. */
  lemma GlyphTables(g: string)
    ensures g in JustFinished ==> exists sample: nat :: JustFinished[sample % |JustFinished|] == g
    ensures g in JustFinished ==> g !in Counters
  {
    if g in JustFinished {
      var k :| 0 <= k < |JustFinished| && JustFinished[k] == g;
      assert JustFinished[k % |JustFinished|] == g;
    }
  }

  /** The count glyph determines the count. */
  lemma CountersDistinct(a: nat, b: nat)
    requires a < |Counters| && b < |Counters| && Counters[a] == Counters[b]
    ensures a == b
  {
  }

  /** A started session shows 25m, 24m after one minute, ..., 1m after 24. */
  lemma ProgressCountsDown(i: Info, t: int, k: int, sample: nat)
    requires !IsStarted(i) && 0 <= k < 25
    ensures Render(Begin(i, t, 0), t + 60 * k, sample) == Some(Decimal.NatToDecimal(25 - k) + "m")
  {
    PollCountsDown(i, t, k);
    var m := PollStep(Begin(i, t, 0), t + 60 * k).minutes.value;
    assert m == 25 - k && m >= 0;
    assert Decimal.IntToDecimal(m) == Decimal.NatToDecimal(m);
  }

  /** Polled at the deadline, the session ends and `progress` shows a just-finished glyph. */
  lemma ProgressAfterDeadline(i: Info, t: int, sample: nat)
    requires !IsStarted(i)
    ensures var p := PollStep(Begin(i, t, 0), t + SessionSeconds);
            p.minutes == Some(0)
            && Render(p.after, t + SessionSeconds, sample).Some?
            && Render(p.after, t + SessionSeconds, sample).value in JustFinished
  {
    PollAtDeadline(i, t, t + SessionSeconds);
  }

  /** After more than five minutes of break, `progress` shows the glyph of the count. */
  lemma ProgressOnBreak(i: Info, t: int, now: int, sample: nat)
    requires IsStarted(i) && now > t + BreakSeconds && i.count + 1 <= 10
    ensures Render(Finish(i, t), now, sample) == Some(Counters[i.count + 1])
  {
  }
}
