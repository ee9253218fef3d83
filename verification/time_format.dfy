/** `formatTime(ms)` of both player screens: `"%d:%02d"` of whole minutes and the seconds left,
    with the JVM's truncating division. */
module TimeFormat {
  import opened Wrappers
  import opened KotlinText
  import opened Decimal

  function FormatTime(ms: int): string {
    var totalSeconds := TDiv(ms, 1000);
    LongToString(TDiv(totalSeconds, 60)) + ":" + Pad2(TRem(totalSeconds, 60))
  }

  /** Reads an "m:ss" clock back to whole seconds: minutes as `toLongOrNull` reads them, then
      exactly two digits below 60 after the last ':'. */
  function ParseClock(s: string): Option<int> {
    var i := LastIndexOf(s, ':');
    if i < 0 then None
    else
      var minutes := ParseLong(s[..i]);
      var ss := s[i + 1..];
      if minutes.None? || |ss| != 2 || !AllDigits(ss) || DigitsValue(ss) >= 60 then None
      else Some(minutes.value * 60 + DigitsValue(ss))
  }

  /** For a non-negative time the seconds part is two digits below 60, and reading the clock
      back gives the whole seconds of the input. */
  lemma FormatTimeRoundTrip(ms: int)
    requires 0 <= ms <= LONG_MAX
    ensures var s := FormatTime(ms);
            |s| >= 4 && s[|s| - 3] == ':' && AllDigits(s[|s| - 2..]) &&
            DigitsValue(s[|s| - 2..]) == (ms / 1000) % 60
    ensures ParseClock(FormatTime(ms)) == Some(ms / 1000)
  {
    var t := ms / 1000;
    var m := LongToString(t / 60);
    var ss := Pad2(t % 60);
    var s := FormatTime(ms);
    assert s == m + ":" + ss;
    assert s[|m|] == ':';
    assert s[|m| + 1..] == ss;
    assert s[..|m|] == m;
    var i := LastIndexOf(s, ':');
    assert i == |m| by {
      assert IsDigit(ss[0]) && IsDigit(ss[1]);
      assert s[|m| + 1] == ss[0] && s[|m| + 2] == ss[1];
    }
    LongRoundTrip(t / 60);
    assert t / 60 * 60 + t % 60 == t;
  }
}
