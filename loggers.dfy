/**
 * The logger pipeline of `log`: an ordered list of loggers, each handed the tracker and the
 * log text accumulated before it, whose fragments are joined in order into one report.
 */
module Loggers {
  import opened Session
  import Decimal

  /** What a logger sees of the tracker: its record and the clock. */
  datatype View = View(info: Info, now: int)

  /** A logger turns that view and the text logged so far into its fragment. */
  type Logger = (View, string) -> string

  /** The fragments joined in order. */
  function Concat(fs: seq<string>): string {
    if fs == [] then "" else Concat(fs[..|fs| - 1]) + fs[|fs| - 1]
  }

  /** The fragment of each logger, computed from the text of the fragments before it. */
  function Fragments(ls: seq<Logger>, v: View): (fs: seq<string>)
    ensures |fs| == |ls|
    ensures forall k :: 0 <= k < |ls| ==> fs[k] == ls[k](v, Concat(fs[..k]))
  {
    if ls == [] then []
    else
      var prev := Fragments(ls[..|ls| - 1], v);
      var fs := prev + [ls[|ls| - 1](v, Concat(prev))];
      assert forall k :: 0 <= k < |prev| ==> fs[..k] == prev[..k];
      assert fs[..|prev|] == prev;
      fs
  }

  /** The report `log` returns. */
  function Report(ls: seq<Logger>, v: View): (r: string)
    ensures ls == [] ==> r == ""
    ensures |ls| == 1 ==> r == ls[0](v, "")
  {
    var fs := Fragments(ls, v);
    assert |ls| == 1 ==> fs[..0] == [] && fs[..|fs| - 1] == [];
    Concat(fs)
  }

  /** Fragments are the only sequence in which each logger is handed the text before it. */
  lemma {:induction false} FragmentsUnique(ls: seq<Logger>, v: View, fs: seq<string>)
    requires |fs| == |ls|
    requires forall k :: 0 <= k < |ls| ==> fs[k] == ls[k](v, Concat(fs[..k]))
    ensures fs == Fragments(ls, v)
  {
    if ls != [] {
      var n := |ls| - 1;
      var init := fs[..n];
      forall k | 0 <= k < n
        ensures init[k] == ls[..n][k](v, Concat(init[..k]))
      {
        assert init[..k] == fs[..k];
      }
      FragmentsUnique(ls[..n], v, init);
      var prev := Fragments(ls[..n], v);
      assert prev == init;
      assert fs[n] == ls[n](v, Concat(prev));
      assert Fragments(ls, v) == prev + [ls[n](v, Concat(prev))];
      assert fs == init + [fs[n]];
    }
  }

  /** One more logger appends its fragment, computed from the report so far. */
  lemma ReportSnoc(ls: seq<Logger>, l: Logger, v: View)
    ensures Report(ls + [l], v) == Report(ls, v) + l(v, Report(ls, v))
  {
    var all := ls + [l];
    assert all[..|all| - 1] == ls;
    var fs := Fragments(all, v);
    assert fs[..|fs| - 1] == Fragments(ls, v);
  }

  lemma PrefixTransitive(a: string, b: string, c: string)
    requires a <= b && b <= c
    ensures a <= c
  {
    assert c[..|a|] == b[..|a|];
  }

  /** The report of the first k loggers is how the report begins. */
  lemma {:induction false} ReportExtends(ls: seq<Logger>, v: View, k: nat)
    requires k <= |ls|
    ensures Report(ls[..k], v) <= Report(ls, v)
    decreases |ls| - k
  {
    if k < |ls| {
      ReportExtends(ls, v, k + 1);
      assert ls[..k + 1] == ls[..k] + [ls[k]];
      ReportSnoc(ls[..k], ls[k], v);
      var a := Report(ls[..k], v);
      PrefixTransitive(a, a + ls[k](v, a), Report(ls, v));
    } else {
      assert ls[..k] == ls;
    }
  }

  // The default loggers

  /** PomuxLogger#minutes: half an hour per completed session. */
  function Minutes(v: View): (m: nat)
    ensures m % 30 == 0 && m / 30 == v.info.count
  {
    v.info.count * 30
  }

  /** PomuxLogger#log: the summary line; `dir` is the working directory's name. */
  function SummaryText(v: View, dir: string): (s: string)
    ensures var m := Decimal.NatToDecimal(Minutes(v)) + "m + ";
            |m| + 7 <= |s| && s[..|m|] == m && s[|s| - 7..] == "\n\n---\n\n"
    ensures var m := Decimal.NatToDecimal(Minutes(v)) + "m + ";
            var e := Decimal.IntToDecimal(WholeMinutes(v.now - v.info.last));
            |m| + |e| + 2 + |dir| + 7 == |s|
            && s[|m|..|m| + |e| + 2] == e + "m " && s[|m| + |e| + 2..|s| - 7] == dir
  {
    var m := Decimal.NatToDecimal(Minutes(v)) + "m + ";
    var e := Decimal.IntToDecimal(WholeMinutes(v.now - v.info.last));
    var s := m + (e + "m ") + dir + "\n\n---\n\n";
    assert s[..|m|] == m;
    assert s[|m|..|m| + |e| + 2] == e + "m ";
    assert s[|m| + |e| + 2..|s| - 7] == dir;
    s
  }

  /** The summary logger ignores the text logged before it. */
  function SummaryLogger(dir: string): (l: Logger)
    ensures forall v, prior :: l(v, prior) == SummaryText(v, dir)
  {
    (v: View, prior: string) => SummaryText(v, dir)
  }

  /** The whole minutes of `(minutes + elapsed).to_i`, the window of GitLogger. */
  function GitWindow(v: View): (w: int)
    ensures Minutes(v) as real + Elapsed(v.info, v.now) >= 0.0 ==>
              w as real <= Minutes(v) as real + Elapsed(v.info, v.now) < (w + 1) as real
    ensures Minutes(v) as real + Elapsed(v.info, v.now) < 0.0 ==>
              (w - 1) as real < Minutes(v) as real + Elapsed(v.info, v.now) <= w as real
  {
    var s := Minutes(v) * 60 + (v.now - v.info.last);
    assert Minutes(v) as real + Elapsed(v.info, v.now) == s as real / 60.0;
    WholeMinutes(s)
  }

  /** GitLogger: the commits of the last `GitWindow` minutes, as `commitsSince` reports them. */
  function GitLogger(commitsSince: int -> string): (l: Logger)
    ensures forall v, prior :: l(v, prior) == commitsSince(GitWindow(v))
  {
    (v: View, prior: string) => commitsSince(GitWindow(v))
  }

  /** DayOneLogger: hands the text so far to the journal and adds nothing. */
  function DayOneLogger(): (l: Logger)
    ensures forall v, prior :: l(v, prior) == ""
  {
    (v: View, prior: string) => ""
  }

  /** `[PomuxLogger, GitLogger, DayOneLogger]`. */
  function DefaultLoggers(dir: string, commitsSince: int -> string): (ls: seq<Logger>)
    ensures |ls| == 3
    ensures forall v, prior :: ls[0](v, prior) == SummaryText(v, dir)
    ensures forall v, prior :: ls[1](v, prior) == commitsSince(GitWindow(v))
    ensures forall v, prior :: ls[2](v, prior) == ""
  {
    [SummaryLogger(dir), GitLogger(commitsSince), DayOneLogger()]
  }

  /** With the default loggers the report is the summary line followed by the commits. */
  lemma DefaultReport(dir: string, commitsSince: int -> string, v: View)
    ensures Report(DefaultLoggers(dir, commitsSince), v) == SummaryText(v, dir) + commitsSince(GitWindow(v))
  {
    var ls := DefaultLoggers(dir, commitsSince);
    assert ls == [] + [ls[0]] + [ls[1]] + [ls[2]];
    ReportSnoc([], ls[0], v);
    ReportSnoc([ls[0]], ls[1], v);
    ReportSnoc([ls[0], ls[1]], ls[2], v);
  }

  /** Five minutes after the last session, the summary line reads `… m + 5m …`. */
  lemma SummaryShowsElapsed(v: View, dir: string)
    requires v.now - v.info.last == 300
    ensures var n := Decimal.NatToDecimal(Minutes(v));
            SummaryText(v, dir)[|n|..][..6] == "m + 5m"
  {
    assert WholeMinutes(300) == 5;
    assert Decimal.IntToDecimal(5) == "5";
    var n := Decimal.NatToDecimal(Minutes(v));
    var s := SummaryText(v, dir);
    assert s[|n|..][..6] == s[|n|..|n| + 4] + s[|n| + 4..|n| + 6];
  }

  /** The summary line opens with the session minutes: "60m" after two sessions, "0m" after none. */
  lemma SummaryOpensWithMinutes(v: View, dir: string)
    ensures v.info.count == 2 ==> SummaryText(v, dir)[..4] == "60m "
    ensures v.info.count == 0 ==> SummaryText(v, dir)[..3] == "0m "
  {
    if v.info.count == 2 {
      assert Decimal.NatToDecimal(60) == "60";
    }
    if v.info.count == 0 {
      assert Decimal.NatToDecimal(0) == "0";
    }
  }
}
