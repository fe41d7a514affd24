/**
 * The rendering of a video's length in whole seconds as `H:MM:SS`, or
 * `M:SS` under an hour, and a reader for that text that recovers the
 * number of seconds.
 */
module Duration {
  import opened Text

  /** `n.toString().padStart(2, '0')` */
  function TwoDigits(n: nat): string
  {
    PadStart(NatToString(n), 2, '0')
  }

  /** `formatDuration(seconds)` for a non-negative whole number of seconds:
      hours, minutes and seconds by integer division and remainder; hours shown only when there is at least one,
      minutes zero-padded only after hours, seconds always zero-padded. */
  function FormatDuration(seconds: nat): string
  {
    var hours := seconds / 3600;
    var minutes := (seconds % 3600) / 60;
    var secs := seconds % 60;
    if hours > 0 then NatToString(hours) + ":" + TwoDigits(minutes) + ":" + TwoDigits(secs)
    else NatToString(minutes) + ":" + TwoDigits(secs)
  }

  /** `t.split(':')` */
  function Fields(t: string): (r: seq<string>)
    ensures |r| >= 1
  {
    if |t| == 0 then [""]
    else
      var rest := Fields(t[1..]);
      if t[0] == ':' then [""] + rest else [[t[0]] + rest[0]] + rest[1..]
  }

  /** Reads `M:SS` or `H:MM:SS` back into seconds. */
  function ParseDuration(t: string): Option<nat>
  {
    var f := Fields(t);
    if |f| == 2 && ParseNat(f[0]).Some? && ParseNat(f[1]).Some? then
      Some(ParseNat(f[0]).value * 60 + ParseNat(f[1]).value)
    else if |f| == 3 && ParseNat(f[0]).Some? && ParseNat(f[1]).Some? && ParseNat(f[2]).Some? then
      Some(ParseNat(f[0]).value * 3600 + ParseNat(f[1]).value * 60 + ParseNat(f[2]).value)
    else None
  }

  /** A text without ':' is one field. */
  lemma {:induction false} FieldsNoColon(a: string)
    requires ':' !in a
    ensures Fields(a) == [a]
  {
    if |a| > 0 {
      FieldsNoColon(a[1..]);
      assert [a[0]] + a[1..] == a;
    }
  }

  /** A colon after a colon-free text splits it off as the first field. */
  lemma {:induction false} FieldsCons(a: string, b: string)
    requires ':' !in a
    ensures Fields(a + ":" + b) == [a] + Fields(b)
  {
    if |a| == 0 {
      assert a + ":" + b == [':'] + b;
      assert (a + ":" + b)[1..] == b;
    } else {
      assert (a + ":" + b)[1..] == a[1..] + ":" + b;
      FieldsCons(a[1..], b);
      assert [a[0]] + a[1..] == a;
    }
  }

  /** The three parts recompose the number of seconds. */
  lemma SplitSeconds(seconds: nat)
    ensures seconds == (seconds / 3600) * 3600 + ((seconds % 3600) / 60) * 60 + seconds % 60
    ensures (seconds % 3600) / 60 < 60 && seconds % 60 < 60
    ensures seconds < 3600 ==> seconds / 3600 == 0 && (seconds % 3600) / 60 == seconds / 60
  {
  }

  /** Three colon-free texts joined by colons split back into themselves. */
  lemma FieldsOfThree(a: string, b: string, c: string)
    requires ':' !in a && ':' !in b && ':' !in c
    ensures Fields(a + ":" + b + ":" + c) == [a, b, c]
  {
    var bc := b + ":" + c;
    FieldsNoColon(c);
    FieldsCons(b, c);
    assert Fields(bc) == [b, c];
    FieldsCons(a, bc);
    assert a + ":" + b + ":" + c == a + ":" + bc;
  }

  /** Two colon-free texts joined by a colon split back into themselves. */
  lemma FieldsOfTwo(a: string, b: string)
    requires ':' !in a && ':' !in b
    ensures Fields(a + ":" + b) == [a, b]
  {
    FieldsNoColon(b);
    FieldsCons(a, b);
  }

  /** With at least one hour: three fields, hours, then minutes and
      seconds two digits wide each. */
  lemma HoursShape(seconds: nat)
    requires seconds >= 3600
    ensures var f := Fields(FormatDuration(seconds));
      |f| == 3 && |f[1]| == 2 && |f[2]| == 2
      && f[0] == NatToString(seconds / 3600)
      && ParseNat(f[1]) == Some((seconds % 3600) / 60)
      && ParseNat(f[2]) == Some(seconds % 60)
  {
    var hours, minutes, secs := seconds / 3600, (seconds % 3600) / 60, seconds % 60;
    assert minutes < 60 && secs < 60;
    var h, mm, ss := NatToString(hours), TwoDigits(minutes), TwoDigits(secs);
    PadTwoKeepsValue(minutes);
    PadTwoKeepsValue(secs);
    DigitsHaveNoColon(h);
    DigitsHaveNoColon(mm);
    DigitsHaveNoColon(ss);
    assert hours > 0;
    assert FormatDuration(seconds) == h + ":" + mm + ":" + ss;
    FieldsOfThree(h, mm, ss);
    assert Fields(FormatDuration(seconds)) == [h, mm, ss];
  }

  /** Under an hour: two fields, minutes unpadded, then seconds two digits
      wide. */
  lemma MinutesShape(seconds: nat)
    requires seconds < 3600
    ensures var f := Fields(FormatDuration(seconds));
      |f| == 2 && |f[1]| == 2
      && f[0] == NatToString(seconds / 60)
      && ParseNat(f[1]) == Some(seconds % 60)
  {
    var secs := seconds % 60;
    assert (seconds % 3600) / 60 == seconds / 60 && seconds / 3600 == 0;
    var m, ss := NatToString(seconds / 60), TwoDigits(secs);
    PadTwoKeepsValue(secs);
    DigitsHaveNoColon(m);
    DigitsHaveNoColon(ss);
    assert FormatDuration(seconds) == m + ":" + ss;
    FieldsOfTwo(m, ss);
  }

  /** The shape of the text: with at least one hour, three colon-separated
      fields, the hours as a plain numeral, then minutes and seconds, the last two exactly two
      digits wide; under an hour, two fields reading minutes (unpadded) and
      seconds (two digits). */
  lemma DurationShape(seconds: nat)
    ensures var f := Fields(FormatDuration(seconds));
      (seconds >= 3600 ==>
        |f| == 3 && |f[1]| == 2 && |f[2]| == 2
        && f[0] == NatToString(seconds / 3600)
        && ParseNat(f[1]) == Some((seconds % 3600) / 60)
        && ParseNat(f[2]) == Some(seconds % 60))
      && (seconds < 3600 ==>
        |f| == 2 && |f[1]| == 2
        && f[0] == NatToString(seconds / 60)
        && ParseNat(f[1]) == Some(seconds % 60))
  {
    if seconds >= 3600 { HoursShape(seconds); } else { MinutesShape(seconds); }
  }

  lemma DigitsHaveNoColon(s: string)
    requires AllDigits(s)
    ensures ':' !in s
  {
  }

  /** How `ParseDuration` reads two or three numeric fields. */
  lemma ParseFields(t: string, a: nat, b: nat, c: nat)
    ensures var f := Fields(t);
      ((|f| == 2 && ParseNat(f[0]) == Some(a) && ParseNat(f[1]) == Some(b))
        ==> ParseDuration(t) == Some(a * 60 + b))
      && ((|f| == 3 && ParseNat(f[0]) == Some(a) && ParseNat(f[1]) == Some(b) && ParseNat(f[2]) == Some(c))
        ==> ParseDuration(t) == Some(a * 3600 + b * 60 + c))
  {
  }

  /** Hours, minutes and seconds written as numerals joined by colons
      read back as their total. */
  lemma ParseThree(h: string, mm: string, ss: string, a: nat, b: nat, c: nat)
    requires ':' !in h && ':' !in mm && ':' !in ss
    requires ParseNat(h) == Some(a) && ParseNat(mm) == Some(b) && ParseNat(ss) == Some(c)
    ensures ParseDuration(h + ":" + mm + ":" + ss) == Some(a * 3600 + b * 60 + c)
  {
    var t := h + ":" + mm + ":" + ss;
    FieldsOfThree(h, mm, ss);
    ParseFields(t, a, b, c);
  }

  /** The hours form, read back, is the total of its parts. */
  lemma ParseHoursForm(a: nat, b: nat, c: nat)
    requires b < 60 && c < 60
    ensures ParseDuration(NatToString(a) + ":" + TwoDigits(b) + ":" + TwoDigits(c)) == Some(a * 3600 + b * 60 + c)
  {
    var h, mm, ss := NatToString(a), TwoDigits(b), TwoDigits(c);
    PadTwoKeepsValue(b);
    PadTwoKeepsValue(c);
    DigitsHaveNoColon(h);
    DigitsHaveNoColon(mm);
    DigitsHaveNoColon(ss);
    ParseThree(h, mm, ss, a, b, c);
  }

  lemma HoursRoundTrip(seconds: nat)
    requires seconds >= 3600
    ensures ParseDuration(FormatDuration(seconds)) == Some(seconds)
  {
    SplitSeconds(seconds);
    FormatHours(seconds);
    ParseHoursForm(seconds / 3600, (seconds % 3600) / 60, seconds % 60);
  }

  lemma FormatHours(seconds: nat)
    requires seconds >= 3600
    ensures FormatDuration(seconds)
      == NatToString(seconds / 3600) + ":" + TwoDigits((seconds % 3600) / 60) + ":" + TwoDigits(seconds % 60)
  {
  }

  lemma MinutesRoundTrip(seconds: nat)
    requires seconds < 3600
    ensures ParseDuration(FormatDuration(seconds)) == Some(seconds)
  {
    var m, c := seconds / 60, seconds % 60;
    assert seconds == m * 60 + c;
    var t := FormatDuration(seconds);
    assert ParseDuration(t) == Some(m * 60 + c) by {
      MinutesShape(seconds);
      ParseFields(t, m, c, 0);
    }
  }

  /** Reading the text back gives the number of seconds. */
  lemma DurationRoundTrip(seconds: nat)
    ensures ParseDuration(FormatDuration(seconds)) == Some(seconds)
  {
    if seconds >= 3600 { HoursRoundTrip(seconds); } else { MinutesRoundTrip(seconds); }
  }

  /** Worked example: 3661 seconds is "1:01:01". */
  lemma HourExample()
    ensures FormatDuration(3661) == "1:01:01"
  {
    assert 3661 / 3600 == 1 && (3661 % 3600) / 60 == 1 && 3661 % 60 == 1;
    assert NatToString(1) == "1";
    assert TwoDigits(1) == "01" by { assert Repeat('0', 1) == "0"; }
  }

  /** Worked example: 65 seconds is "1:05". */
  lemma MinuteExample()
    ensures FormatDuration(65) == "1:05"
  {
    assert 65 / 3600 == 0 && (65 % 3600) / 60 == 1 && 65 % 60 == 5;
    assert NatToString(1) == "1";
    assert TwoDigits(5) == "05" by { assert NatToString(5) == "5"; assert Repeat('0', 1) == "0"; }
  }
}
