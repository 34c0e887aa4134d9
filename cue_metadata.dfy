/** `CueMetadataParser` of Sources/WebVTTParser.swift: the lines of a cue
    before its payload. The first line is tried as a timing; when it is one,
    the cue has no identifier and its settings follow on the same line.
    Otherwise the first line, entities decoded, is the identifier, and the
    next line must hold the timing and the settings. Printing prepends the
    settings line, then the timing, then the identifier line. */
module CueMetadataCodec {
  import opened Wrappers
  import opened Lexical
  import opened Sequences
  import opened Entities
  import opened Text
  import opened WebVTT
  import opened Settings
  import opened TimeCodec
  import opened SettingsRoundTrip

  // ---------------------------------------------------------------------------
  // Parsing

  /** `CueMetadataParser.parse`. A first line that reads as a timing decides
      the form: its settings must follow, and there is no second try as an
      identifier. */
  function ParseCueMetadata(table: Table, s: string): (r: Option<(CueMetadata, string)>)
    ensures r.Some? ==> |r.value.1| < |s|
    ensures r.Some? ==> NoDuplicates(r.value.0.settings)
    ensures r.Some? ==> (r.value.0.identifier.None? <==> ParseTiming(s).Some?)
  {
    match ParseTiming(s)
    case Some((timing, s1)) =>
      (match ParseSettings(table, s1)
       case None => None
       case Some((settings, s2)) => Some((NewCueMetadata(None, timing, settings), s2)))
    case None =>
      var (identifier, s1) := ParseText(table, s, IsNewline, 1);
      match LineEnd(s1)
      case None => None
      case Some(s2) =>
        match ParseTiming(s2)
        case None => None
        case Some((timing, s3)) =>
          match ParseSettings(table, s3)
          case None => None
          case Some((settings, s4)) => Some((NewCueMetadata(Some(identifier), timing, settings), s4))
  }

  // ---------------------------------------------------------------------------
  // Printing

  /** The timing line: the timing and the settings line after it. */
  function TimingLine(m: CueMetadata): string {
    TimingText(m.timing) + SettingsLine(m.settings)
  }

  /** The identifier line as `CueMetadataParser.print` writes it: the
      identifier as it is, and a line feed. */
  function IdentifierLineAsWritten(identifier: Option<string>): string {
    match identifier
    case None => ""
    case Some(id) => id + "\n"
  }

  function CueMetadataTextAsWritten(m: CueMetadata): string {
    IdentifierLineAsWritten(m.identifier) + TimingLine(m)
  }

  /** `CueMetadataParser.print` as written: settings, timing, then a line
      feed and the identifier without entity encoding. */
  method PrintCueMetadataAsWritten(m: CueMetadata, input: string) returns (output: string)
    ensures output == CueMetadataTextAsWritten(m) + input
  {
    var settingsOut := PrintSettings(m.settings, input);
    output := PrintTiming(m.timing, settingsOut);
    AppendAssoc(TimingText(m.timing), SettingsLine(m.settings), input);
    if m.identifier.Some? {
      var id := m.identifier.value;
      output := id + ("\n" + output);
      PrependLine(id, TimingLine(m), input);
    } else {
      assert CueMetadataTextAsWritten(m) == TimingLine(m);
    }
  }

  lemma PrependLine(head: string, body: string, input: string)
    ensures head + ("\n" + (body + input)) == (head + "\n" + body) + input
  {
  }

  /** The identifier line written through `TextParser.print`, which encodes
      the characters the parser decodes. */
  function IdentifierLine(identifier: Option<string>): string {
    match identifier
    case None => ""
    case Some(id) => EscapeText(id) + "\n"
  }

  function CueMetadataText(m: CueMetadata): string {
    IdentifierLine(m.identifier) + TimingLine(m)
  }

  /** The printer with the identifier encoded. */
  method PrintCueMetadata(m: CueMetadata, input: string) returns (output: string)
    ensures output == CueMetadataText(m) + input
  {
    var settingsOut := PrintSettings(m.settings, input);
    output := PrintTiming(m.timing, settingsOut);
    AppendAssoc(TimingText(m.timing), SettingsLine(m.settings), input);
    if m.identifier.Some? {
      var id := m.identifier.value;
      output := PrintText(id, "\n" + output);
      PrependLine(EscapeText(id), TimingLine(m), input);
    } else {
      assert CueMetadataText(m) == TimingLine(m);
    }
  }

  // ---------------------------------------------------------------------------
  // A timing never reads past the end of its line

  /** `r` is what is left of `s` after reading characters that are not line
      feeds. */
  predicate SameLine(s: string, r: string) {
    IsSuffix(r, s) && forall i :: 0 <= i < |s| - |r| ==> s[i] != '\n'
  }

  lemma SameLineTrans(s: string, r: string, t: string)
    requires SameLine(s, r) && SameLine(r, t)
    ensures SameLine(s, t)
  {
    forall i | |s| - |r| <= i < |s| - |t|
      ensures s[i] != '\n'
    {
      assert s[i] == r[i - (|s| - |r|)];
    }
  }

  lemma {:induction false} SkipSameLine(s: string)
    ensures SameLine(s, TrimStart(s, IsTimeSpace))
    decreases |s|
  {
    if s != [] && IsTimeSpace(s[0]) {
      SkipSameLine(s[1..]);
      SameLineTrans(s, s[1..], TrimStart(s[1..], IsTimeSpace));
    }
  }

  lemma ParseIntSameLine(s: string)
    requires ParseInt(s).Some?
    ensures SameLine(s, ParseInt(s).value.1)
  {
    var signed := |s| > 0 && (s[0] == '-' || s[0] == '+');
    var body := if signed then s[1..] else s;
    var k := DigitRun(body);
    assert ParseInt(s).value.1 == body[k..];
    forall i | 0 <= i < |s| - |body[k..]|
      ensures s[i] != '\n'
    {
      if !signed {
        assert body[..k][i] == s[i];
      } else if i > 0 {
        assert body[..k][i - 1] == s[i];
      }
    }
  }

  lemma ExpectSameLine(s: string, lit: string)
    requires Expect(s, lit).Some? && '\n' !in lit
    ensures SameLine(s, Expect(s, lit).value)
  {
    forall i | 0 <= i < |lit|
      ensures s[i] != '\n'
    {
      assert s[..|lit|][i] == s[i];
    }
  }

  lemma OptionalGroupSameLine(s: string)
    ensures SameLine(s, OptionalGroup(s).1)
  {
    if OptionalGroup(s).0.Some? {
      var s1 := Expect(s, ":").value;
      ExpectSameLine(s, ":");
      ParseIntSameLine(s1);
      SameLineTrans(s, s1, OptionalGroup(s).1);
    }
  }

  lemma ParseTimeSameLine(s: string)
    requires ParseTime(s).Some?
    ensures SameLine(s, ParseTime(s).value.1)
  {
    var s0 := SkipTimeSpace(s);
    var s1 := ParseInt(s0).value.1;
    var s2 := Expect(s1, ":").value;
    var s3 := ParseInt(s2).value.1;
    var s4 := OptionalGroup(s3).1;
    var s5 := Expect(s4, ".").value;
    var s6 := ParseInt(s5).value.1;
    assert ParseTime(s).value.1 == SkipTimeSpace(s6);
    HeadSameLine(s, s0, s1, s2);
    TailSameLine(s2, s3, s4, s5, s6);
    SameLineTrans(s, s2, SkipTimeSpace(s6));
  }

  /** Whitespace, the first number and its colon stay on the line. */
  lemma HeadSameLine(s: string, s0: string, s1: string, s2: string)
    requires s0 == SkipTimeSpace(s)
    requires ParseInt(s0).Some? && s1 == ParseInt(s0).value.1
    requires Expect(s1, ":").Some? && s2 == Expect(s1, ":").value
    ensures SameLine(s, s2)
  {
    SkipSameLine(s);
    ParseIntSameLine(s0);
    ExpectSameLine(s1, ":");
    SameLineTrans(s, s0, s1);
    SameLineTrans(s, s1, s2);
  }

  /** The rest of a time, and the whitespace after it, stay on the line. */
  lemma TailSameLine(s2: string, s3: string, s4: string, s5: string, s6: string)
    requires ParseInt(s2).Some? && s3 == ParseInt(s2).value.1
    requires s4 == OptionalGroup(s3).1
    requires Expect(s4, ".").Some? && s5 == Expect(s4, ".").value
    requires ParseInt(s5).Some? && s6 == ParseInt(s5).value.1
    ensures SameLine(s2, SkipTimeSpace(s6))
  {
    ParseIntSameLine(s2);
    OptionalGroupSameLine(s3);
    ExpectSameLine(s4, ".");
    ParseIntSameLine(s5);
    SkipSameLine(s6);
    SameLineTrans(s2, s3, s4);
    SameLineTrans(s2, s4, s5);
    SameLineTrans(s2, s5, s6);
    SameLineTrans(s2, s6, SkipTimeSpace(s6));
  }

  /** After reading only within a first line that has no `>`, the input
      does not start with an arrow. */
  lemma NoArrowOnLine(line: string, next: string, rest: string)
    requires '>' !in line && '\n' !in line
    requires SameLine(line + ("\n" + next), rest)
    ensures Expect(rest, "-->").None?
  {
    var s := line + ("\n" + next);
    var k := |s| - |rest|;
    assert s[|line|] == '\n';
    assert k <= |line|;
    var j := if k + 2 < |line| then 2 else |line| - k;
    if j < |rest| {
      assert rest[j] == s[k + j];
    }
    ExpectDiffersAt(rest, "-->", j);
  }

  /** A literal does not match where the input differs from it. */
  lemma ExpectDiffersAt(s: string, lit: string, j: nat)
    requires j < |lit| && (j < |s| ==> s[j] != lit[j])
    ensures Expect(s, lit).None?
  {
    if |lit| <= |s| {
      assert s[..|lit|][j] != lit[j];
    }
  }

  lemma TimingNeedsArrow(s: string)
    requires ParseTime(s).Some? ==> Expect(ParseTime(s).value.1, "-->").None?
    ensures ParseTiming(s).None?
  {
  }

  /** A first line with no `>` in it is not a timing, whatever follows it. */
  lemma NoTimingOnLine(line: string, next: string)
    requires '>' !in line && '\n' !in line
    ensures ParseTiming(line + ("\n" + next)).None?
  {
    var s := line + ("\n" + next);
    if ParseTime(s).Some? {
      ParseTimeSameLine(s);
      NoArrowOnLine(line, next, ParseTime(s).value.1);
    }
    TimingNeedsArrow(s);
  }

  // ---------------------------------------------------------------------------
  // Round trip

  /** The characters an identifier may hold and still be read back: no
      newline character, which would end it. */
  predicate IsPrintableCueMetadata(m: CueMetadata) {
    (m.identifier.Some? ==> Avoids(m.identifier.value, IsNewline))
    && TimingInRange(m.timing) && AllPrintable(m.settings) && NoDuplicates(m.settings)
  }

  /** What is left of the settings line once the space before its first
      setting is skipped. */
  function SettingsAfterSpace(settings: seq<Setting>, rest: string): string {
    if settings == [] then "\n" + rest
    else SettingText(settings[0]) + (SettingsWords(settings[1..]) + ("\n" + rest))
  }

  lemma SettingsLineStart(settings: seq<Setting>, rest: string)
    ensures (SettingsLine(settings) + rest)[0] == ' ' || (SettingsLine(settings) + rest)[0] == '\n'
    ensures SkipTimeSpace(SettingsLine(settings) + rest) == SettingsAfterSpace(settings, rest)
  {
    AppendAssoc(SettingsWords(settings), "\n", rest);
    if settings == [] {
      assert SettingsLine(settings) + rest == "\n" + rest;
      SkipNothing("\n" + rest);
    } else {
      WordsUnfold(settings, "\n" + rest);
      SkipBeforeSettings(settings, rest);
    }
  }

  lemma SettingsAfterSpaceRoundTrip(table: Table, settings: seq<Setting>, rest: string)
    requires HasRequiredEntries(table) && AllPrintable(settings)
    ensures ParseSettings(table, SettingsAfterSpace(settings, rest)) == Some((settings, rest))
  {
    SettingsRoundTrip.SettingsRoundTrip(table, settings, rest);
    if settings == [] {
      assert SettingsLine(settings) + rest == "\n" + rest;
    }
  }

  /** The timing line reads back as the timing, and the settings after it. */
  lemma TimingLineRoundTrip(timing: Timing, settings: seq<Setting>, rest: string)
    requires TimingInRange(timing)
    ensures ParseTiming(TimingText(timing) + (SettingsLine(settings) + rest))
      == Some((timing, SettingsAfterSpace(settings, rest)))
  {
    SettingsLineStart(settings, rest);
    TimingRoundTrip(timing, SettingsLine(settings) + rest);
  }

  lemma TimingFirstSteps(table: Table, s: string, timing: Timing, s1: string, settings: seq<Setting>, s2: string)
    requires ParseTiming(s) == Some((timing, s1))
    requires ParseSettings(table, s1) == Some((settings, s2))
    ensures ParseCueMetadata(table, s) == Some((NewCueMetadata(None, timing, settings), s2))
  {
  }

  lemma IdentifierSteps(table: Table, s: string, identifier: string, s1: string, s2: string,
                        timing: Timing, s3: string, settings: seq<Setting>, s4: string)
    requires ParseTiming(s).None?
    requires ParseText(table, s, IsNewline, 1) == (identifier, s1)
    requires LineEnd(s1) == Some(s2)
    requires ParseTiming(s2) == Some((timing, s3))
    requires ParseSettings(table, s3) == Some((settings, s4))
    ensures ParseCueMetadata(table, s) == Some((NewCueMetadata(Some(identifier), timing, settings), s4))
  {
  }

  lemma BodyPieces(a: string, b: string, c: string, rest: string)
    ensures (a + "\n") + (b + c) + rest == a + ("\n" + (b + (c + rest)))
  {
  }

  lemma NoLinePieces(b: string, c: string, rest: string)
    ensures "" + (b + c) + rest == b + (c + rest)
  {
  }

  lemma ByLineEnd(next: string)
    ensures LineEnd("\n" + next) == Some(next)
  {
    assert ("\n" + next)[1..] == next;
  }

  /** Printing with the identifier encoded and parsing back gives the
      metadata and the rest of the input. */
  lemma CueMetadataRoundTrip(table: Table, m: CueMetadata, rest: string)
    requires HasRequiredEntries(table) && IsPrintableCueMetadata(m)
    ensures ParseCueMetadata(table, CueMetadataText(m) + rest) == Some((m, rest))
  {
    match m.identifier
    case None => WithoutIdentifierRoundTrip(table, m, rest);
    case Some(id) => WithIdentifierRoundTrip(table, m, rest);
  }

  lemma WithoutIdentifierRoundTrip(table: Table, m: CueMetadata, rest: string)
    requires HasRequiredEntries(table) && IsPrintableCueMetadata(m) && m.identifier.None?
    ensures ParseCueMetadata(table, CueMetadataText(m) + rest) == Some((m, rest))
  {
    var body := TimingText(m.timing) + (SettingsLine(m.settings) + rest);
    BodyRoundTrip(table, m.timing, m.settings, rest);
    assert NewCueMetadata(None, m.timing, m.settings) == m;
    assert CueMetadataText(m) == "" + TimingLine(m);
    NoLinePieces(TimingText(m.timing), SettingsLine(m.settings), rest);
    TimingFirstSteps(table, body, m.timing, SettingsAfterSpace(m.settings, rest), m.settings, rest);
  }

  lemma WithIdentifierRoundTrip(table: Table, m: CueMetadata, rest: string)
    requires HasRequiredEntries(table) && IsPrintableCueMetadata(m) && m.identifier.Some?
    ensures ParseCueMetadata(table, CueMetadataText(m) + rest) == Some((m, rest))
  {
    var id := m.identifier.value;
    var body := TimingText(m.timing) + (SettingsLine(m.settings) + rest);
    BodyRoundTrip(table, m.timing, m.settings, rest);
    assert NewCueMetadata(Some(id), m.timing, m.settings) == m;
    BodyPieces(EscapeText(id), TimingText(m.timing), SettingsLine(m.settings), rest);
    IdentifierRoundTrip(table, id, body, m.timing, SettingsAfterSpace(m.settings, rest), m.settings, rest);
  }

  /** The timing line and what follows it, read back. */
  lemma BodyRoundTrip(table: Table, timing: Timing, settings: seq<Setting>, rest: string)
    requires HasRequiredEntries(table) && TimingInRange(timing) && AllPrintable(settings)
    ensures ParseTiming(TimingText(timing) + (SettingsLine(settings) + rest))
      == Some((timing, SettingsAfterSpace(settings, rest)))
    ensures ParseSettings(table, SettingsAfterSpace(settings, rest)) == Some((settings, rest))
  {
    TimingLineRoundTrip(timing, settings, rest);
    SettingsAfterSpaceRoundTrip(table, settings, rest);
  }

  /** An encoded identifier line before a line that reads as timing and
      settings. */
  lemma IdentifierRoundTrip(table: Table, id: string, body: string, timing: Timing, after: string,
                            settings: seq<Setting>, rest: string)
    requires HasRequiredEntries(table) && Avoids(id, IsNewline)
    requires ParseTiming(body) == Some((timing, after))
    requires ParseSettings(table, after) == Some((settings, rest))
    ensures ParseCueMetadata(table, EscapeText(id) + ("\n" + body))
      == Some((NewCueMetadata(Some(id), timing, settings), rest))
  {
    IdentifierLineRead(table, id, body);
    IdentifierSteps(table, EscapeText(id) + ("\n" + body), id, "\n" + body, body, timing, after, settings, rest);
  }

  /** An encoded identifier line is not a timing, and it is read back as
      the identifier up to its line feed. */
  lemma IdentifierLineRead(table: Table, id: string, body: string)
    requires HasRequiredEntries(table) && Avoids(id, IsNewline)
    ensures ParseTiming(EscapeText(id) + ("\n" + body)).None?
    ensures ParseText(table, EscapeText(id) + ("\n" + body), IsNewline, 1) == (id, "\n" + body)
    ensures LineEnd("\n" + body) == Some(body)
  {
    EscapedLineAvoids(id);
    NoTimingOnLine(EscapeText(id), body);
    TextRoundTrip(table, id, "\n" + body, IsNewline);
    ByLineEnd(body);
  }

  /** An encoded identifier line has no `>` and, when the identifier has no
      newline character, no line feed. */
  lemma EscapedLineAvoids(id: string)
    requires Avoids(id, IsNewline)
    ensures '>' !in EscapeText(id) && '\n' !in EscapeText(id)
  {
    EscapeTextIsSafe(id);
    EscapeTextAvoids(id, IsNewline);
    AvoidsLineFeed(EscapeText(id));
  }

  lemma AvoidsLineFeed(s: string)
    requires Avoids(s, IsNewline)
    ensures '\n' !in s
  {
    forall i | 0 <= i < |s| ensures s[i] != '\n' { assert !IsNewline(s[i]); }
  }

  // ---------------------------------------------------------------------------
  // The printer as written

  /** With the identifier written as it is, parsing gives back its decoding
      rather than the identifier. */
  lemma AsWrittenDecodesIdentifier(table: Table, m: CueMetadata, rest: string)
    requires m.identifier.Some? && '>' !in m.identifier.value
    requires Avoids(m.identifier.value, IsNewline)
    requires TimingInRange(m.timing) && HasRequiredEntries(table)
    requires AllPrintable(m.settings) && NoDuplicates(m.settings)
    ensures ParseCueMetadata(table, CueMetadataTextAsWritten(m) + rest)
      == Some((CueMetadata(Some(DecodeText(table, m.identifier.value)), m.timing, m.settings), rest))
  {
    var id := m.identifier.value;
    var body := TimingText(m.timing) + (SettingsLine(m.settings) + rest);
    var after := SettingsAfterSpace(m.settings, rest);
    TimingLineRoundTrip(m.timing, m.settings, rest);
    SettingsAfterSpaceRoundTrip(table, m.settings, rest);
    BodyPieces(id, TimingText(m.timing), SettingsLine(m.settings), rest);
    AvoidsLineFeed(id);
    NoTimingOnLine(id, body);
    PrefixBeforeTerminator(id, "\n" + body, IsNewline);
    assert (id + ("\n" + body))[|id|..] == "\n" + body;
    ByLineEnd(body);
    IdentifierSteps(table, id + ("\n" + body), DecodeText(table, id), "\n" + body, body, m.timing, after, m.settings, rest);
  }

  /** The identifier `&lt;` is printed as it is and read back as `<`. */
  lemma EscapedIdentifierLost(table: Table, timing: Timing, rest: string)
    requires HasRequiredEntries(table) && TimingInRange(timing)
    ensures ParseCueMetadata(table, CueMetadataTextAsWritten(CueMetadata(Some("&lt;"), timing, [])) + rest)
      == Some((CueMetadata(Some("<"), timing, []), rest))
  {
    var m := CueMetadata(Some("&lt;"), timing, []);
    AsWrittenDecodesIdentifier(table, m, rest);
    LessThanDecodes(table);
  }

  lemma LessThanDecodes(table: Table)
    requires HasRequiredEntries(table)
    ensures DecodeText(table, "&lt;") == "<"
  {
    assert EscapeChar('<') + "" == "&lt;";
    DecodeToken(table, '<', "");
    DecodeWithoutAmpersand(table, "");
    assert "<" + "" == "<";
  }
}
