/** `TimeParser` and `TimingParser` of Sources/WebVTTParser.swift. A time is
    read as two or three colon-separated integers, a dot and the milliseconds,
    with the parser's own horizontal whitespace skipped before and after it; it
    is printed with the hours left out when they are 0, the other groups
    zero-padded to two digits and the milliseconds to three. Printers prepend
    to the text that follows, as the library's printers do; here the
    following text is an input string and the printed text is returned. */
module TimeCodec {
  import opened Wrappers
  import opened Lexical
  import opened WebVTT

  /** The whitespace `TimeParser` skips around a time: space, tab, line
      tabulation and form feed. */
  predicate IsTimeSpace(c: char) {
    c == ' ' || c == '\t' || c == '\U{000B}' || c == '\U{000C}'
  }

  function SkipTimeSpace(s: string): (r: string)
    ensures IsSuffix(r, s)
    ensures r == [] || !IsTimeSpace(r[0])
  {
    TrimStart(s, IsTimeSpace)
  }

  predicate AllTimeSpace(s: string) {
    forall i :: 0 <= i < |s| ==> IsTimeSpace(s[i])
  }

  /** Every field fits a Swift `Int`. */
  predicate TimeInRange(t: Time) {
    IsInt64(t.hours) && IsInt64(t.minutes) && IsInt64(t.seconds) && IsInt64(t.milliseconds)
  }

  predicate TimingInRange(t: Timing) {
    TimeInRange(t.start) && TimeInRange(t.end)
  }

  // ---------------------------------------------------------------------------
  // Parsing

  /** The optional third group: a colon and an integer, or nothing (and no
      input consumed) when either is missing. */
  function OptionalGroup(s: string): (r: (Option<int>, string))
    ensures r.0.None? ==> r.1 == s
    ensures r.0.Some? ==> |r.1| < |s|
  {
    match Expect(s, ":")
    case None => (None, s)
    case Some(s1) =>
      match ParseInt(s1)
      case None => (None, s)
      case Some((n, rest)) => (Some(n), rest)
  }

  /** `TimeParser.parse`: skip whitespace, integer, `:`, integer, an optional
      `:` integer, `.`, integer, skip whitespace. With three groups they are
      hours, minutes and seconds; with two, minutes and seconds. */
  function ParseTime(s: string): (r: Option<(Time, string)>)
    ensures r.Some? ==> |r.value.1| < |s|
  {
    match ParseInt(SkipTimeSpace(s))
    case None => None
    case Some((first, s1)) =>
      match Expect(s1, ":")
      case None => None
      case Some(s2) =>
        match ParseInt(s2)
        case None => None
        case Some((second, s3)) =>
          var (third, s4) := OptionalGroup(s3);
          match Expect(s4, ".")
          case None => None
          case Some(s5) =>
            match ParseInt(s5)
            case None => None
            case Some((milliseconds, s6)) =>
              Some((TimeFromGroups(first, second, third, milliseconds), SkipTimeSpace(s6)))
  }

  /** `TimingParser.parse`: a time, `-->`, a time. */
  function ParseTiming(s: string): (r: Option<(Timing, string)>)
    ensures r.Some? ==> |r.value.1| < |s|
  {
    match ParseTime(s)
    case None => None
    case Some((start, s1)) => ParseTimingEnd(start, s1)
  }

  /** The rest of a timing after its start time: `-->` and the end time. */
  function ParseTimingEnd(start: Time, s1: string): (r: Option<(Timing, string)>)
    ensures r.Some? ==> |r.value.1| < |s1|
  {
    match Expect(s1, "-->")
    case None => None
    case Some(s2) =>
      match ParseTime(s2)
      case None => None
      case Some((end, s3)) => Some((Timing(start, end), s3))
  }

  // ---------------------------------------------------------------------------
  // Printing

  /** Minutes, seconds and milliseconds: `MM:SS.mmm`. */
  function ClockText(minutes: int, seconds: int, milliseconds: int): string {
    FormatInt(minutes, 2) + (":" + (FormatInt(seconds, 2) + ("." + FormatInt(milliseconds, 3))))
  }

  /** The text `TimeParser.print` writes: `HH:` only when the hours are not
      0, then `MM:SS.mmm`. Each field is printed in full (see
      TimeTextAsWritten for the 32-bit conversion `%d` applies). */
  function TimeText(t: Time): string {
    if t.hours == 0 then ClockText(t.minutes, t.seconds, t.milliseconds)
    else FormatInt(t.hours, 2) + (":" + ClockText(t.minutes, t.seconds, t.milliseconds))
  }

  /** `TimeParser.print`: the non-nil groups joined with `:`, then `.` and
      the milliseconds, prepended to `input`. */
  method PrintTime(t: Time, input: string) returns (output: string)
    ensures output == TimeText(t) + input
  {
    var components: seq<string> := if t.hours == 0 then [] else [FormatInt(t.hours, 2)];
    components := components + [FormatInt(t.minutes, 2), FormatInt(t.seconds, 2)];
    var text := Join(components, ":") + "." + FormatInt(t.milliseconds, 3);
    JoinedClock(t);
    output := text + input;
  }

  lemma JoinedClock(t: Time)
    ensures Join((if t.hours == 0 then [] else [FormatInt(t.hours, 2)])
              + [FormatInt(t.minutes, 2), FormatInt(t.seconds, 2)], ":")
            + "." + FormatInt(t.milliseconds, 3) == TimeText(t)
  {
    var m, s, ms := FormatInt(t.minutes, 2), FormatInt(t.seconds, 2), FormatInt(t.milliseconds, 3);
    if t.hours != 0 {
      var h := FormatInt(t.hours, 2);
      assert [h] + [m, s] == [h, m, s];
      JoinThree(h, m, s, ms);
    } else {
      assert [] + [m, s] == [m, s];
      JoinTwo(m, s, ms);
    }
  }

  lemma JoinTwo(m: string, s: string, ms: string)
    ensures Join([m, s], ":") + "." + ms == m + (":" + (s + ("." + ms)))
  {
    assert [m, s][1..] == [s];
    assert Join([m, s], ":") == m + ":" + s;
  }

  lemma JoinThree(h: string, m: string, s: string, ms: string)
    ensures Join([h, m, s], ":") + "." + ms == h + (":" + (m + (":" + (s + ("." + ms)))))
  {
    assert [h, m, s][1..] == [m, s];
    assert Join([h, m, s], ":") == h + ":" + Join([m, s], ":");
    JoinTwo(m, s, ms);
  }

  /** The text `TimingParser.print` writes: start, ` --> `, end. */
  function TimingText(t: Timing): string {
    TimeText(t.start) + (" --> " + TimeText(t.end))
  }

  /** `TimingParser.print`: the end, then ` --> `, then the start, each
      prepended. */
  method PrintTiming(t: Timing, input: string) returns (output: string)
    ensures output == TimingText(t) + input
  {
    output := PrintTime(t.end, input);
    output := " --> " + output;
    output := PrintTime(t.start, output);
    AppendAssoc(" --> ", TimeText(t.end), input);
    AppendAssoc(TimeText(t.start), " --> " + TimeText(t.end), input);
  }

  // ---------------------------------------------------------------------------
  // Round trips

  /** Leading time whitespace is skipped up to the first other character. */
  lemma {:induction false} SkipLeading(lead: string, x: string)
    requires AllTimeSpace(lead)
    requires x == [] || !IsTimeSpace(x[0])
    ensures SkipTimeSpace(lead + x) == x
  {
    if lead != [] {
      assert (lead + x)[0] == lead[0];
      assert (lead + x)[1..] == lead[1..] + x;
      SkipLeading(lead[1..], x);
    } else {
      assert lead + x == x;
    }
  }

  /** The milliseconds group and what follows it: `.mmm` then `tail`. */
  lemma ParseFraction(milliseconds: int, tail: string)
    requires IsInt64(milliseconds)
    requires tail == [] || !IsDigit(tail[0])
    ensures Expect("." + (FormatInt(milliseconds, 3) + tail), ".") == Some(FormatInt(milliseconds, 3) + tail)
    ensures ParseInt(FormatInt(milliseconds, 3) + tail) == Some((milliseconds, tail))
  {
    ExpectConcat(".", FormatInt(milliseconds, 3) + tail);
    ParseFormattedInt(milliseconds, 3, tail);
  }

  /** An integer group followed by a separator character. */
  lemma ParseGroup(n: int, sep: char, rest: string)
    requires IsInt64(n) && !IsDigit(sep)
    ensures ParseInt(FormatInt(n, 2) + ([sep] + rest)) == Some((n, [sep] + rest))
    ensures Expect([sep] + rest, [sep]) == Some(rest)
  {
    ParseFormattedInt(n, 2, [sep] + rest);
    ExpectConcat([sep], rest);
  }

  /** Reading `MM:SS.mmm` then `tail`: the pieces after each group. */
  lemma ParseClockPieces(m: int, s: int, ms: int, tail: string)
    requires IsInt64(m) && IsInt64(s) && IsInt64(ms)
    requires tail == [] || !IsDigit(tail[0])
    ensures ClockText(m, s, ms) + tail
      == FormatInt(m, 2) + (":" + (FormatInt(s, 2) + ("." + (FormatInt(ms, 3) + tail))))
    ensures ParseInt(FormatInt(m, 2) + (":" + (FormatInt(s, 2) + ("." + (FormatInt(ms, 3) + tail)))))
      == Some((m, ":" + (FormatInt(s, 2) + ("." + (FormatInt(ms, 3) + tail)))))
    ensures Expect(":" + (FormatInt(s, 2) + ("." + (FormatInt(ms, 3) + tail))), ":")
      == Some(FormatInt(s, 2) + ("." + (FormatInt(ms, 3) + tail)))
    ensures ParseInt(FormatInt(s, 2) + ("." + (FormatInt(ms, 3) + tail)))
      == Some((s, "." + (FormatInt(ms, 3) + tail)))
  {
    var f := FormatInt(ms, 3);
    AppendAssoc(".", f, tail);
    AppendAssoc(FormatInt(s, 2), "." + f, tail);
    AppendAssoc(":", FormatInt(s, 2) + ("." + f), tail);
    AppendAssoc(FormatInt(m, 2), ":" + (FormatInt(s, 2) + ("." + f)), tail);
    ParseGroup(m, ':', FormatInt(s, 2) + ("." + (f + tail)));
    ParseGroup(s, '.', f + tail);
  }

  /** With nothing but the milliseconds left, the optional group is absent. */
  lemma NoThirdGroup(rest: string)
    ensures OptionalGroup("." + rest) == (None, "." + rest)
  {
    ExpectMismatch("." + rest, ":");
  }

  /** One successful reading of a time, step by step. */
  lemma ParseTimeSteps(s: string, first: int, s1: string, s2: string, second: int, s3: string,
                       third: Option<int>, s4: string, s5: string, milliseconds: int, s6: string)
    requires ParseInt(SkipTimeSpace(s)) == Some((first, s1))
    requires Expect(s1, ":") == Some(s2)
    requires ParseInt(s2) == Some((second, s3))
    requires OptionalGroup(s3) == (third, s4)
    requires Expect(s4, ".") == Some(s5)
    requires ParseInt(s5) == Some((milliseconds, s6))
    ensures ParseTime(s) == Some((TimeFromGroups(first, second, third, milliseconds), SkipTimeSpace(s6)))
  {
  }

  /** `MM:SS.mmm` reads back as minutes and seconds with zero hours. */
  lemma ParseMinutesForm(m: int, s: int, ms: int, tail: string)
    requires IsInt64(m) && IsInt64(s) && IsInt64(ms)
    requires tail == [] || !IsDigit(tail[0])
    ensures ParseTime(ClockText(m, s, ms) + tail) == Some((Time(0, m, s, ms), SkipTimeSpace(tail)))
  {
    var s5 := FormatInt(ms, 3) + tail;
    var s4 := "." + s5;
    var s2 := FormatInt(s, 2) + s4;
    var s1 := ":" + s2;
    var x := FormatInt(m, 2) + s1;
    ParseClockPieces(m, s, ms, tail);
    NoSpaceBeforeNumber(m, 2, s1);
    NoThirdGroup(s5);
    ParseFraction(ms, tail);
    ParseTimeSteps(x, m, s1, s2, s, s4, None, s4, s5, ms, tail);
  }

  /** `HH:MM:SS.mmm` reads back as hours, minutes and seconds, whatever the
      hours are (0 included). */
  lemma ParseHoursForm(h: int, m: int, s: int, ms: int, tail: string)
    requires IsInt64(h) && IsInt64(m) && IsInt64(s) && IsInt64(ms)
    requires tail == [] || !IsDigit(tail[0])
    ensures ParseTime(FormatInt(h, 2) + (":" + ClockText(m, s, ms)) + tail)
      == Some((Time(h, m, s, ms), SkipTimeSpace(tail)))
  {
    var s5 := FormatInt(ms, 3) + tail;
    var after := "." + s5;
    var sec := FormatInt(s, 2) + after;
    var s3 := ":" + sec;
    var clock := FormatInt(m, 2) + s3;
    var s1 := ":" + clock;
    var x := FormatInt(h, 2) + s1;
    ParseClockPieces(m, s, ms, tail);
    HoursPieces(h, ClockText(m, s, ms), tail);
    NoSpaceBeforeNumber(h, 2, s1);
    ParseGroup(h, ':', clock);
    ThirdGroup(s, after);
    ParseFraction(ms, tail);
    ParseTimeSteps(x, h, s1, clock, m, s3, Some(s), after, s5, ms, tail);
  }

  lemma HoursPieces(h: int, clock: string, tail: string)
    ensures FormatInt(h, 2) + (":" + clock) + tail == FormatInt(h, 2) + (":" + (clock + tail))
  {
    AppendAssoc(":", clock, tail);
    AppendAssoc(FormatInt(h, 2), ":" + clock, tail);
  }

  /** A number's text starts with no whitespace to skip. */
  lemma NoSpaceBeforeNumber(n: int, width: nat, rest: string)
    ensures SkipTimeSpace(FormatInt(n, width) + rest) == FormatInt(n, width) + rest
  {
    FormatIntStart(n, width);
    assert (FormatInt(n, width) + rest)[0] == FormatInt(n, width)[0];
  }

  /** A colon and a seconds group before the milliseconds form the third
      group. */
  lemma ThirdGroup(s: int, after: string)
    requires IsInt64(s) && after != [] && after[0] == '.'
    ensures OptionalGroup(":" + (FormatInt(s, 2) + after)) == (Some(s), after)
  {
    ExpectConcat(":", FormatInt(s, 2) + after);
    assert after == ['.'] + after[1..];
    ParseFormattedInt(s, 2, after);
  }

  /** Printing a time and parsing it back gives the same time, for every
      time whose fields fit an `Int`, before any text that does not start
      with a digit; the whitespace after the time is consumed with it. */
  lemma TimeRoundTrip(t: Time, tail: string)
    requires TimeInRange(t)
    requires tail == [] || !IsDigit(tail[0])
    ensures ParseTime(TimeText(t) + tail) == Some((t, SkipTimeSpace(tail)))
  {
    if t.hours == 0 {
      ParseMinutesForm(t.minutes, t.seconds, t.milliseconds, tail);
    } else {
      ParseHoursForm(t.hours, t.minutes, t.seconds, t.milliseconds, tail);
    }
  }

  /** Whitespace before a time changes nothing. */
  lemma ParseAfterSpace(lead: string, x: string)
    requires AllTimeSpace(lead)
    requires x == [] || !IsTimeSpace(x[0])
    ensures ParseTime(lead + x) == ParseTime(x)
  {
    SkipLeading(lead, x);
    SkipNothing(x);
  }

  lemma SkipNothing(x: string)
    requires x == [] || !IsTimeSpace(x[0])
    ensures SkipTimeSpace(x) == x
  {
  }

  /** A printed time starts with a sign or a digit. */
  lemma TimeTextStart(t: Time, tail: string)
    ensures TimeText(t) + tail != [] && !IsTimeSpace((TimeText(t) + tail)[0])
  {
    if t.hours == 0 {
      FormatIntStart(t.minutes, 2);
      assert (TimeText(t) + tail)[0] == FormatInt(t.minutes, 2)[0];
    } else {
      FormatIntStart(t.hours, 2);
      assert (TimeText(t) + tail)[0] == FormatInt(t.hours, 2)[0];
    }
  }

  /** Printing a timing and parsing it back gives the same timing. */
  lemma TimingRoundTrip(t: Timing, tail: string)
    requires TimingInRange(t)
    requires tail == [] || !IsDigit(tail[0])
    ensures ParseTiming(TimingText(t) + tail) == Some((t, SkipTimeSpace(tail)))
  {
    var s2 := " " + (TimeText(t.end) + tail);
    TimingStart(t, tail);
    ExpectConcat("-->", s2);
    TimingEnd(t, tail);
    ParseTimingSteps(TimingText(t) + tail, t.start, "-->" + s2, s2, t.end, SkipTimeSpace(tail));
  }

  /** The start time of a printed timing reads back, up to the arrow. */
  lemma TimingStart(t: Timing, tail: string)
    requires TimeInRange(t.start)
    ensures ParseTime(TimingText(t) + tail) == Some((t.start, "-->" + (" " + (TimeText(t.end) + tail))))
  {
    var arrow := "-->" + (" " + (TimeText(t.end) + tail));
    TimingPieces(t, tail);
    TimeRoundTrip(t.start, " " + arrow);
    ArrowAfterSpace(arrow);
  }

  lemma ArrowAfterSpace(arrow: string)
    requires arrow != [] && arrow[0] == '-'
    ensures SkipTimeSpace(" " + arrow) == arrow
  {
    SkipLeading(" ", arrow);
  }

  /** The end time of a printed timing reads back after the arrow. */
  lemma TimingEnd(t: Timing, tail: string)
    requires TimeInRange(t.end)
    requires tail == [] || !IsDigit(tail[0])
    ensures ParseTime(" " + (TimeText(t.end) + tail)) == Some((t.end, SkipTimeSpace(tail)))
  {
    TimeTextStart(t.end, tail);
    ParseAfterSpace(" ", TimeText(t.end) + tail);
    TimeRoundTrip(t.end, tail);
  }

  /** One successful reading of a timing, step by step. */
  lemma ParseTimingSteps(s: string, start: Time, s1: string, s2: string, end: Time, s3: string)
    requires ParseTime(s) == Some((start, s1))
    requires Expect(s1, "-->") == Some(s2)
    requires ParseTime(s2) == Some((end, s3))
    ensures ParseTiming(s) == Some((Timing(start, end), s3))
  {
  }

  lemma TimingPieces(t: Timing, tail: string)
    ensures TimingText(t) + tail == TimeText(t.start) + (" " + ("-->" + (" " + (TimeText(t.end) + tail))))
  {
    assert " --> " == " " + ("-->" + " ");
    AppendAssoc(" ", TimeText(t.end), tail);
    AppendAssoc("-->", " " + TimeText(t.end), tail);
    AppendAssoc("-->", " ", TimeText(t.end));
    AppendAssoc(" ", "-->" + (" " + TimeText(t.end)), tail);
    AppendAssoc(" ", "-->" + " ", TimeText(t.end));
    AppendAssoc(TimeText(t.start), " --> " + TimeText(t.end), tail);
  }

  // ---------------------------------------------------------------------------
  // `%02d` as written

  /** `%d` with a Swift `Int` argument reads only its low 32 bits, as a
      signed 32-bit value. */
  function Int32Of(n: int): (r: int)
    ensures -0x8000_0000 <= r < 0x8000_0000
    ensures -0x8000_0000 <= n < 0x8000_0000 ==> r == n
    ensures (n - r) % 0x1_0000_0000 == 0
  {
    var w := n % 0x1_0000_0000;
    if w >= 0x8000_0000 then w - 0x1_0000_0000 else w
  }

  /** What `TimeParser.print` writes as written, with `%02d`/`%03d`: the
      hours group is chosen on the full value but each field is printed from
      its low 32 bits. */
  function TimeTextAsWritten(t: Time): string {
    var clock := ClockText(Int32Of(t.minutes), Int32Of(t.seconds), Int32Of(t.milliseconds));
    if t.hours == 0 then clock
    else FormatInt(Int32Of(t.hours), 2) + (":" + clock)
  }

  /** Both printers agree on every time whose fields fit 32 bits. */
  lemma TimeTextAgrees(t: Time)
    requires -0x8000_0000 <= t.hours < 0x8000_0000 && -0x8000_0000 <= t.minutes < 0x8000_0000
    requires -0x8000_0000 <= t.seconds < 0x8000_0000 && -0x8000_0000 <= t.milliseconds < 0x8000_0000
    ensures TimeTextAsWritten(t) == TimeText(t)
  {
  }

  /** 2^32 hours are printed as `00:00:00.000`, which reads back as zero. */
  lemma HoursPastInt32Lost()
    ensures ParseTime(TimeTextAsWritten(Time(0x1_0000_0000, 0, 0, 0)))
      == Some((Time(0, 0, 0, 0), ""))
  {
    assert Int32Of(0x1_0000_0000) == 0;
    var text := TimeTextAsWritten(Time(0x1_0000_0000, 0, 0, 0));
    assert text == FormatInt(0, 2) + (":" + ClockText(0, 0, 0)) + "";
    ParseHoursForm(0, 0, 0, 0, "");
  }
}
