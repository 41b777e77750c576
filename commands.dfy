/**
 * The command-name parser of `method_missing`: an unknown command whose name contains
 * `minus_` followed by digits (`start_minus_5`) starts a session with that many minutes of slip.
 */
module Commands {
  import opened Wrappers
  import Decimal

  const Marker: string := "minus_"

  /** The pattern /minus_(\d+)/ matches `s` at position `k`. */
  predicate MatchesAt(s: string, k: int) {
    0 <= k && k + |Marker| < |s| && s[k..k + |Marker|] == Marker && Decimal.IsDigit(s[k + |Marker|])
  }

  /** The longest run of digits at the front of `s` (what the greedy `\d+` takes). */
  function LeadingDigits(s: string): (d: string)
    ensures d <= s && Decimal.AllDigits(d)
    ensures |d| == |s| || !Decimal.IsDigit(s[|d|])
  {
    if s != [] && Decimal.IsDigit(s[0]) then [s[0]] + LeadingDigits(s[1..]) else []
  }

  /** `m[/minus_(\d+)/, 1]`: the digits captured at the leftmost match, or nil. */
  function Capture(s: string): (c: Option<string>)
    ensures c.Some? ==> |c.value| > 0 && Decimal.AllDigits(c.value)
    decreases |s|
  {
    if |s| <= |Marker| then None
    else if MatchesAt(s, 0) then Some(LeadingDigits(s[|Marker|..]))
    else Capture(s[1..])
  }

  /** The slip a command name asks for (`slip.to_i`), or None when it names no slip. */
  function ParseSlip(name: string): (r: Option<nat>)
    ensures r.None? <==> forall k :: !MatchesAt(name, k)
    ensures r.Some? ==>
              exists k :: MatchesAt(name, k) && (forall j :: j < k ==> !MatchesAt(name, j))
                          && r.value == Decimal.DecimalToNat(LeadingDigits(name[k + |Marker|..]))
  {
    CaptureIsLeftmostMatch(name);
    match Capture(name)
    case None => None
    case Some(d) => Some(Decimal.DecimalToNat(d))
  }

  lemma ShiftMatch(s: string, k: int)
    requires |s| > 0 && k >= 0
    ensures MatchesAt(s[1..], k) <==> MatchesAt(s, k + 1)
  {
    if k + |Marker| < |s| - 1 {
      assert s[1..][k..k + |Marker|] == s[k + 1..k + 1 + |Marker|];
    }
  }

  /** Capture finds a match exactly when there is one, and then the leftmost one. */
  lemma {:induction false} CaptureIsLeftmostMatch(s: string)
    ensures Capture(s).None? <==> forall k :: !MatchesAt(s, k)
    ensures Capture(s).Some? ==>
              exists k :: MatchesAt(s, k) && (forall j :: j < k ==> !MatchesAt(s, j))
                          && Capture(s).value == LeadingDigits(s[k + |Marker|..])
    decreases |s|
  {
    if |s| <= |Marker| {
    } else if MatchesAt(s, 0) {
      assert MatchesAt(s, 0) && (forall j :: j < 0 ==> !MatchesAt(s, j));
    } else {
      var t := s[1..];
      CaptureIsLeftmostMatch(t);
      forall k | k >= 0
        ensures MatchesAt(t, k) <==> MatchesAt(s, k + 1)
      {
        ShiftMatch(s, k);
      }
      if Capture(t).Some? {
        var k :| MatchesAt(t, k) && (forall j :: j < k ==> !MatchesAt(t, j))
                 && Capture(t).value == LeadingDigits(t[k + |Marker|..]);
        assert t[k + |Marker|..] == s[k + 1 + |Marker|..];
        forall j | j < k + 1
          ensures !MatchesAt(s, j)
        {
          if j >= 1 {
            assert !MatchesAt(t, j - 1);
          }
        }
        assert MatchesAt(s, k + 1);
      } else {
        forall k ensures !MatchesAt(s, k) {
          if k >= 1 {
            assert !MatchesAt(t, k - 1);
          }
        }
      }
    }
  }

  /** Characters before the first `m` of a name cannot start a match. */
  lemma {:induction false} SkipPrefix(p: string, rest: string)
    requires forall i :: 0 <= i < |p| ==> p[i] != 'm'
    ensures Capture(p + rest) == Capture(rest)
    decreases |p|
  {
    if p == [] {
      assert p + rest == rest;
    } else {
      var s := p + rest;
      SkipPrefix(p[1..], rest);
      if |s| > |Marker| {
        assert s[0..|Marker|][0] == p[0] != Marker[0];
        assert !MatchesAt(s, 0);
        assert s[1..] == p[1..] + rest;
        assert Capture(s) == Capture(s[1..]);
      } else {
        assert Capture(s) == None;
        assert Capture(p[1..] + rest) == None;
      }
    }
  }

  /** A digit string is taken whole by the greedy `\d+`. */
  lemma {:induction false} LeadingDigitsOfDigits(d: string)
    requires Decimal.AllDigits(d)
    ensures LeadingDigits(d) == d
    decreases |d|
  {
    if d != [] {
      LeadingDigitsOfDigits(d[1..]);
    }
  }

  /** `start_minus_N` asks for a slip of N minutes. */
  lemma StartMinusParses(n: nat)
    ensures ParseSlip("start_minus_" + Decimal.NatToDecimal(n)) == Some(n)
  {
    var d := Decimal.NatToDecimal(n);
    assert "start_minus_" + d == "start_" + ("minus_" + d);
    SkipPrefix("start_", "minus_" + d);
    var s := "minus_" + d;
    assert s[..|Marker|] == Marker;
    assert s[|Marker|..] == d;
    LeadingDigitsOfDigits(d);
    Decimal.DecimalRoundTrip(n);
  }
}
