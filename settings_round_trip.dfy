/** What the setting grammars promise together with their printers: every
    printed setting is read back as itself, whichever alternative comes
    first in the grammar's order, and so is a printed settings line; region
    settings read back with either separator. */
module SettingsRoundTrip {
  import opened Wrappers
  import opened Lexical
  import opened Entities
  import opened Text
  import opened WebVTT
  import opened Settings
  import opened TimeCodec

  /** A text value that prints and reads back: not empty (an empty value
      would let the whitespace after it be skipped), and every whitespace
      character in it one that encoding replaces (U+00A0). */
  predicate IsPrintableName(name: string) {
    name != [] && forall i :: 0 <= i < |name| ==> IsEscaped(name[i]) || !IsWhitespace(name[i])
  }

  predicate IsPrintableSetting(setting: Setting) {
    match setting
    case LineNumber(n) => IsInt64(n)
    case LinePercentage(n) => IsInt64(n)
    case Position(n) => IsInt64(n)
    case Size(n) => IsInt64(n)
    case Region(name) => IsPrintableName(name)
    case _ => true
  }

  predicate IsPrintableRegionSetting(setting: RegionSetting) {
    match setting
    case Id(id) => IsPrintableName(id)
    case Lines(n) => IsInt64(n)
    case WidthPercentage(n) => IsInt64(n)
    case Scroll(_) => true
    case Anchor(a) => IsInt64(a.xPercentage) && IsInt64(a.yPercentage)
    case ViewPortAnchor(a) => IsInt64(a.xPercentage) && IsInt64(a.yPercentage)
  }

  /** The input after a value: nothing, or whitespace. */
  predicate EndsValue(rest: string) {
    rest == [] || IsWhitespace(rest[0])
  }

  // ---------------------------------------------------------------------------
  // Building blocks

  lemma FieldAppend(key: string, sep: string, value: string, rest: string)
    ensures key + (sep + value) + rest == key + (sep + (value + rest))
  {
    AppendAssoc(sep, value, rest);
    AppendAssoc(key, sep + value, rest);
  }

  lemma SkipNoSpace(s: string)
    requires s == [] || !IsHorizontalSpace(s[0])
    ensures SkipHorizontal(s) == s
  {
  }

  /** `key:` or `key=` before a value reads as the introducer. */
  lemma IntroducerOf(key: string, sep: string, tail: string, acceptEquals: bool)
    requires sep == ":" || (sep == "=" && acceptEquals)
    requires tail == [] || !IsHorizontalSpace(tail[0])
    ensures Introducer(key + (sep + tail), key, acceptEquals) == Some(tail)
  {
    ExpectConcat(key, sep + tail);
    assert (sep + tail)[0] == sep[0];
    SkipNoSpace(sep + tail);
    ExpectConcat(sep, tail);
    SkipNoSpace(tail);
    if sep == "=" {
      ExpectMismatch(sep + tail, ":");
    }
  }

  /** An input that starts with another character than the key does not
      read as that key's introducer. */
  lemma IntroducerMismatch(s: string, key: string, acceptEquals: bool)
    requires key != [] && s != [] && s[0] != key[0]
    ensures Introducer(s, key, acceptEquals).None?
  {
    ExpectMismatch(s, key);
  }

  lemma IntValueOf(key: string, sep: string, n: int, rest: string, acceptEquals: bool)
    requires sep == ":" || (sep == "=" && acceptEquals)
    requires IsInt64(n)
    requires rest == [] || !IsDigit(rest[0])
    ensures IntValue(key + (sep + IntText(n)) + rest, key, acceptEquals) == Some((n, rest))
  {
    FieldAppend(key, sep, IntText(n), rest);
    FormatIntStart(n, 0);
    assert (IntText(n) + rest)[0] == IntText(n)[0];
    IntroducerOf(key, sep, IntText(n) + rest, acceptEquals);
    ParseFormattedInt(n, 0, rest);
  }

  lemma PercentValueOf(key: string, sep: string, n: int, rest: string, acceptEquals: bool)
    requires sep == ":" || (sep == "=" && acceptEquals)
    requires IsInt64(n)
    ensures PercentValue(key + (sep + (IntText(n) + "%")) + rest, key, acceptEquals) == Some((n, rest))
  {
    AppendAssoc(IntText(n), "%", rest);
    FieldAppend(key, sep, IntText(n) + "%", rest);
    AppendAssoc(key, sep + IntText(n), "%" + rest);
    AppendAssoc(sep, IntText(n), "%" + rest);
    IntValueOf(key, sep, n, "%" + rest, acceptEquals);
    ExpectConcat("%", rest);
  }

  lemma NoTokenCharIsWhitespace()
    ensures forall c :: IsTokenChar(c) ==> !IsWhitespace(c)
  {
  }

  lemma TextValueOf(table: Table, key: string, sep: string, name: string, rest: string, acceptEquals: bool)
    requires sep == ":" || (sep == "=" && acceptEquals)
    requires HasRequiredEntries(table) && IsPrintableName(name) && EndsValue(rest)
    ensures TextValue(table, key + (sep + EscapeText(name)) + rest, key, acceptEquals) == Some((name, rest))
  {
    FieldAppend(key, sep, EscapeText(name), rest);
    EscapeTextStart(name);
    assert (EscapeText(name) + rest)[0] == EscapeText(name)[0];
    IntroducerOf(key, sep, EscapeText(name) + rest, acceptEquals);
    NoTokenCharIsWhitespace();
    TextRoundTrip(table, name, rest, IsWhitespace);
  }

  lemma DirectionOf(d: Direction, rest: string)
    ensures ParseDirection(DirectionText(d) + rest) == Some((d, rest))
  {
    ExpectConcat(DirectionText(d), rest);
    if d == Rl {
      ExpectMismatch(DirectionText(d) + rest, "lr");
    }
  }

  lemma AlignmentOf(a: Alignment, rest: string)
    ensures ParseAlignment(AlignmentText(a) + rest) == Some((a, rest))
  {
    var s := AlignmentText(a) + rest;
    ExpectConcat(AlignmentText(a), rest);
    assert s[0] == AlignmentText(a)[0];
    if a != Start { ExpectMismatch(s, "start"); }
    if a != AlignLeft { ExpectMismatch(s, "left"); }
    if a != Center { ExpectMismatch(s, "center"); }
    if a != Middle { ExpectMismatch(s, "middle"); }
    if a != End { ExpectMismatch(s, "end"); }
  }

  lemma ScrollOf(d: RegionScroll, rest: string)
    ensures ParseScroll(ScrollText(d) + rest) == Some((d, rest))
  {
    var s := ScrollText(d) + rest;
    ExpectConcat(ScrollText(d), rest);
    assert s[0] == ScrollText(d)[0];
    if d != Up { ExpectMismatch(s, "up"); }
    if d != Down { ExpectMismatch(s, "down"); }
    if d != ScrollLeft { ExpectMismatch(s, "left"); }
  }

  // ---------------------------------------------------------------------------
  // One cue setting

  /** A printed setting starts with the first letter of its key. */
  function KeyLetter(setting: Setting): char {
    match setting
    case Vertical(_) => 'v'
    case Align(_) => 'a'
    case Position(_) => 'p'
    case Size(_) => 's'
    case LineNumber(_) => 'l'
    case LinePercentage(_) => 'l'
    case Region(_) => 'r'
  }

  lemma SettingTextStart(setting: Setting, rest: string)
    ensures SettingText(setting) + rest != []
    ensures (SettingText(setting) + rest)[0] == KeyLetter(setting)
  {
  }

  lemma VerticalMismatch(s: string)
    requires s != [] && s[0] != 'v'
    ensures ParseVertical(s).None?
  {
    IntroducerMismatch(s, "vertical", false);
  }

  lemma AlignMismatch(s: string)
    requires s != [] && s[0] != 'a'
    ensures ParseAlign(s).None?
  {
    IntroducerMismatch(s, "align", false);
  }

  lemma PositionMismatch(s: string)
    requires s != [] && s[0] != 'p'
    ensures ParsePosition(s).None?
  {
    IntroducerMismatch(s, "position", false);
  }

  lemma SizeMismatch(s: string)
    requires s != [] && s[0] != 's'
    ensures ParseSize(s).None?
  {
    IntroducerMismatch(s, "size", false);
  }

  lemma LineMismatch(s: string)
    requires s != [] && s[0] != 'l'
    ensures ParseLinePercentage(s).None? && ParseLineNumber(s).None?
  {
    IntroducerMismatch(s, "line", false);
  }

  /** The alternatives before a setting's own grammar all fail on its
      text. */
  lemma EarlierAlternativesFail(table: Table, setting: Setting, rest: string)
    ensures setting.Vertical? || ParseVertical(SettingText(setting) + rest).None?
    ensures setting.Vertical? || setting.Align? || ParseAlign(SettingText(setting) + rest).None?
    ensures setting.Vertical? || setting.Align? || setting.Position?
      || ParsePosition(SettingText(setting) + rest).None?
    ensures setting.Vertical? || setting.Align? || setting.Position? || setting.Size?
      || ParseSize(SettingText(setting) + rest).None?
  {
    var s := SettingText(setting) + rest;
    SettingTextStart(setting, rest);
    if !setting.Vertical? { VerticalMismatch(s); }
    if !setting.Align? { AlignMismatch(s); }
    if !setting.Position? { PositionMismatch(s); }
    if !setting.Size? { SizeMismatch(s); }
  }

  /** An enumeration value is a word starting with a letter. */
  lemma WordStart(word: string, rest: string)
    requires word != [] && 'a' <= word[0] <= 'z'
    ensures (word + rest)[0] == word[0] && !IsHorizontalSpace((word + rest)[0])
  {
  }

  lemma DirectionWord(d: Direction)
    ensures DirectionText(d) != [] && 'a' <= DirectionText(d)[0] <= 'z'
  {
  }

  lemma AlignmentWord(a: Alignment)
    ensures AlignmentText(a) != [] && 'a' <= AlignmentText(a)[0] <= 'z'
  {
  }

  lemma ScrollWord(d: RegionScroll)
    ensures ScrollText(d) != [] && 'a' <= ScrollText(d)[0] <= 'z'
  {
  }

  lemma VerticalSteps(s: string, s1: string, d: Direction, s2: string)
    requires Introducer(s, "vertical", false) == Some(s1)
    requires ParseDirection(s1) == Some((d, s2))
    ensures ParseVertical(s) == Some((Vertical(d), s2))
  {
  }

  lemma AlignSteps(s: string, s1: string, a: Alignment, s2: string)
    requires Introducer(s, "align", false) == Some(s1)
    requires ParseAlignment(s1) == Some((a, s2))
    ensures ParseAlign(s) == Some((Align(a), s2))
  {
  }

  lemma VerticalRoundTrip(d: Direction, rest: string)
    ensures ParseVertical(SettingText(Vertical(d)) + rest) == Some((Vertical(d), rest))
  {
    FieldAppend("vertical", ":", DirectionText(d), rest);
    DirectionWord(d);
    WordStart(DirectionText(d), rest);
    IntroducerOf("vertical", ":", DirectionText(d) + rest, false);
    DirectionOf(d, rest);
    VerticalSteps(SettingText(Vertical(d)) + rest, DirectionText(d) + rest, d, rest);
  }

  lemma AlignRoundTrip(a: Alignment, rest: string)
    ensures ParseAlign(SettingText(Align(a)) + rest) == Some((Align(a), rest))
  {
    FieldAppend("align", ":", AlignmentText(a), rest);
    AlignmentWord(a);
    AlignmentOf(a, rest);
    AlignGeneric(SettingText(Align(a)) + rest, a, AlignmentText(a), rest);
  }

  lemma AlignGeneric(s: string, a: Alignment, word: string, rest: string)
    requires s == "align" + (":" + (word + rest))
    requires word != [] && 'a' <= word[0] <= 'z'
    requires ParseAlignment(word + rest) == Some((a, rest))
    ensures ParseAlign(s) == Some((Align(a), rest))
  {
    WordStart(word, rest);
    IntroducerOf("align", ":", word + rest, false);
    AlignSteps(s, word + rest, a, rest);
  }

  /** A line number is not read as a line percentage: no `%` follows. */
  lemma LineNumberIsNoPercentage(n: int, rest: string)
    requires IsInt64(n) && EndsValue(rest)
    ensures ParseLinePercentage(SettingText(LineNumber(n)) + rest).None?
    ensures ParseLineNumber(SettingText(LineNumber(n)) + rest) == Some((LineNumber(n), rest))
  {
    assert SettingText(LineNumber(n)) == "line" + (":" + IntText(n));
    IntValueOf("line", ":", n, rest, false);
    if rest != [] {
      ExpectMismatch(rest, "%");
    }
    LineSteps(SettingText(LineNumber(n)) + rest, n, rest);
  }

  lemma LineSteps(s: string, n: int, s1: string)
    requires IntValue(s, "line", false) == Some((n, s1))
    requires Expect(s1, "%").None?
    ensures ParseLinePercentage(s).None?
    ensures ParseLineNumber(s) == Some((LineNumber(n), s1))
  {
  }

  /** Why line percentages are tried before line numbers: the line-number
      grammar alone reads `line:N%` as the number N and leaves the `%`
      unread. */
  lemma LineNumberStopsBeforePercent(n: int, rest: string)
    requires IsInt64(n)
    ensures ParseLineNumber(SettingText(LinePercentage(n)) + rest) == Some((LineNumber(n), "%" + rest))
  {
    PercentPieces("line", IntText(n), rest);
    IntValueOf("line", ":", n, "%" + rest, false);
    LineNumberSteps(SettingText(LinePercentage(n)) + rest, n, "%" + rest);
  }

  lemma PercentPieces(key: string, value: string, rest: string)
    ensures key + (":" + (value + "%")) + rest == key + (":" + value) + ("%" + rest)
  {
    FieldAppend(key, ":", value + "%", rest);
    AppendAssoc(value, "%", rest);
    FieldAppend(key, ":", value, "%" + rest);
  }

  lemma LineNumberSteps(s: string, n: int, s1: string)
    requires IntValue(s, "line", false) == Some((n, s1))
    ensures ParseLineNumber(s) == Some((LineNumber(n), s1))
  {
  }

  lemma RegionRoundTrip(table: Table, name: string, rest: string)
    requires HasRequiredEntries(table) && IsPrintableName(name) && EndsValue(rest)
    ensures ParseRegionIdentifier(table, SettingText(Region(name)) + rest) == Some((Region(name), rest))
  {
    RegionText(name);
    RegionGeneric(table, SettingText(Region(name)), EscapeText(name), name, rest);
  }

  lemma RegionText(name: string)
    ensures SettingText(Region(name)) == "region" + (":" + EscapeText(name))
  {
  }

  lemma RegionGeneric(table: Table, t: string, word: string, name: string, rest: string)
    requires HasRequiredEntries(table) && IsPrintableName(name) && EndsValue(rest)
    requires t == "region" + (":" + word) && word == EscapeText(name)
    ensures ParseRegionIdentifier(table, t + rest) == Some((Region(name), rest))
  {
    TextValueOf(table, "region", ":", name, rest, false);
    RegionIdentifierSteps(table, t + rest, name, rest);
  }

  lemma RegionIdentifierSteps(table: Table, s: string, name: string, s1: string)
    requires TextValue(table, s, "region", false) == Some((name, s1))
    ensures ParseRegionIdentifier(table, s) == Some((Region(name), s1))
  {
  }

  /** Printing a setting and reading it back with `SettingParser` gives the
      same setting, before nothing or before whitespace; the line
      percentage is read as such although the line-number grammar would
      also accept its beginning. */
  lemma SettingRoundTrip(table: Table, setting: Setting, rest: string)
    requires HasRequiredEntries(table) && IsPrintableSetting(setting) && EndsValue(rest)
    ensures ParseSetting(table, SettingText(setting) + rest) == Some((setting, rest))
  {
    EarlierAlternativesFail(table, setting, rest);
    match setting
    case Vertical(d) => VerticalRoundTrip(d, rest);
    case Align(a) => AlignRoundTrip(a, rest);
    case Position(n) => PercentValueOf("position", ":", n, rest, false);
    case Size(n) => PercentValueOf("size", ":", n, rest, false);
    case LinePercentage(n) => PercentValueOf("line", ":", n, rest, false);
    case LineNumber(n) => LineNumberIsNoPercentage(n, rest);
    case Region(name) => RegionSettingPicked(table, name, rest);
  }

  lemma RegionSettingPicked(table: Table, name: string, rest: string)
    requires HasRequiredEntries(table) && IsPrintableName(name) && EndsValue(rest)
    requires ParseVertical(SettingText(Region(name)) + rest).None?
    requires ParseAlign(SettingText(Region(name)) + rest).None?
    requires ParsePosition(SettingText(Region(name)) + rest).None?
    requires ParseSize(SettingText(Region(name)) + rest).None?
    ensures ParseSetting(table, SettingText(Region(name)) + rest) == Some((Region(name), rest))
  {
    var s := SettingText(Region(name)) + rest;
    SettingTextStart(Region(name), rest);
    LineMismatch(s);
    RegionRoundTrip(table, name, rest);
  }

  // ---------------------------------------------------------------------------
  // The settings line

  predicate AllPrintable(settings: seq<Setting>) {
    forall i :: 0 <= i < |settings| ==> IsPrintableSetting(settings[i])
  }

  /** The settings line without its leading space. */
  lemma WordsUnfold(settings: seq<Setting>, rest: string)
    requires settings != []
    ensures SettingsWords(settings) + rest == " " + (SettingText(settings[0]) + (SettingsWords(settings[1..]) + rest))
  {
    AppendAssoc(" ", SettingText(settings[0]), SettingsWords(settings[1..]));
    AppendAssoc(" " + SettingText(settings[0]), SettingsWords(settings[1..]), rest);
    AppendAssoc(" ", SettingText(settings[0]), SettingsWords(settings[1..]) + rest);
  }

  /** A line feed is no separator. */
  lemma NoSeparatorAtLineEnd(rest: string)
    ensures Separator("\n" + rest).None?
  {
    ExpectMismatch("\n" + rest, ",");
  }

  /** `Many` after a setting with a separator and more settings. */
  lemma SettingsFromMore(table: Table, s: string, setting: Setting, s1: string, s2: string,
                         more: seq<Setting>, s3: string)
    requires ParseSetting(table, s) == Some((setting, s1))
    requires Separator(s1) == Some(s2)
    requires SettingsFrom(table, s2) == (more, s3) && more != []
    ensures SettingsFrom(table, s) == ([setting] + more, s3)
  {
  }

  /** `Many` after a setting with no separator. */
  lemma SettingsFromLast(table: Table, s: string, setting: Setting, s1: string)
    requires ParseSetting(table, s) == Some((setting, s1))
    requires Separator(s1).None?
    ensures SettingsFrom(table, s) == ([setting], s1)
  {
  }

  /** `Many` on the last setting of the line. */
  lemma SettingsFromSingle(table: Table, setting: Setting, rest: string)
    requires HasRequiredEntries(table) && IsPrintableSetting(setting)
    ensures SettingsFrom(table, SettingText(setting) + ("\n" + rest)) == ([setting], "\n" + rest)
  {
    SettingRoundTrip(table, setting, "\n" + rest);
    NoSeparatorAtLineEnd(rest);
    SettingsFromLast(table, SettingText(setting) + ("\n" + rest), setting, "\n" + rest);
  }

  lemma WordsOfNone(settings: seq<Setting>, x: string)
    requires |settings| == 1
    ensures SettingText(settings[0]) + (SettingsWords(settings[1..]) + x) == SettingText(settings[0]) + x
  {
    assert SettingsWords(settings[1..]) == "";
  }

  /** `Many` reads the printed settings, separated by single spaces, up to
      the line feed. */
  lemma {:induction false} SettingsFromWords(table: Table, settings: seq<Setting>, rest: string)
    requires HasRequiredEntries(table) && settings != [] && AllPrintable(settings)
    ensures SettingsFrom(table, SettingText(settings[0]) + (SettingsWords(settings[1..]) + ("\n" + rest)))
      == (settings, "\n" + rest)
    decreases |settings|
  {
    if |settings| == 1 {
      WordsOfNone(settings, "\n" + rest);
      SettingsFromSingle(table, settings[0], rest);
      assert settings == [settings[0]];
    } else {
      PrintableTail(settings);
      SettingsFromWords(table, settings[1..], rest);
      SettingsFromNext(table, settings, rest);
    }
  }

  lemma PrintableTail(settings: seq<Setting>)
    requires settings != [] && AllPrintable(settings)
    ensures IsPrintableSetting(settings[0]) && AllPrintable(settings[1..])
  {
    assert forall i :: 0 <= i < |settings[1..]| ==> settings[1..][i] == settings[i + 1];
  }

  /** One setting, a space, and the settings `Many` reads after it. */
  lemma SettingsFromNext(table: Table, settings: seq<Setting>, rest: string)
    requires HasRequiredEntries(table) && |settings| > 1 && IsPrintableSetting(settings[0])
    requires SettingsFrom(table, SettingText(settings[1..][0]) + (SettingsWords(settings[1..][1..]) + ("\n" + rest)))
      == (settings[1..], "\n" + rest)
    ensures SettingsFrom(table, SettingText(settings[0]) + (SettingsWords(settings[1..]) + ("\n" + rest))) == (settings, "\n" + rest)
  {
    NextPieces(settings[1..], "\n" + rest);
    ConsTail(settings);
    SettingsFromSpaced(table, settings[0], SettingsWords(settings[1..]) + ("\n" + rest),
      SettingText(settings[1..][0]) + (SettingsWords(settings[1..][1..]) + ("\n" + rest)), settings[1..], "\n" + rest);
  }

  lemma ConsTail<T>(s: seq<T>)
    requires s != []
    ensures [s[0]] + s[1..] == s
  {
  }

  lemma NextPieces(tail: seq<Setting>, x: string)
    requires tail != []
    ensures SettingsWords(tail) + x == " " + (SettingText(tail[0]) + (SettingsWords(tail[1..]) + x))
    ensures SettingText(tail[0]) + (SettingsWords(tail[1..]) + x) != []
    ensures !IsHorizontalSpace((SettingText(tail[0]) + (SettingsWords(tail[1..]) + x))[0])
  {
    WordsUnfold(tail, x);
    SettingTextStart(tail[0], SettingsWords(tail[1..]) + x);
  }

  /** A setting, then a space, then what `Many` reads on. */
  lemma SettingsFromSpaced(table: Table, setting: Setting, after: string, next: string,
                           more: seq<Setting>, left: string)
    requires HasRequiredEntries(table) && IsPrintableSetting(setting)
    requires after == " " + next && next != [] && !IsHorizontalSpace(next[0])
    requires SettingsFrom(table, next) == (more, left) && more != []
    ensures SettingsFrom(table, SettingText(setting) + after) == ([setting] + more, left)
  {
    SettingRoundTrip(table, setting, after);
    SkipNoSpace(next);
    assert after[1..] == next;
    SettingsFromMore(table, SettingText(setting) + after, setting, after, next, more, left);
  }

  /** What is left after the time before a settings line: the settings
      without the leading space. */
  lemma SkipBeforeSettings(settings: seq<Setting>, rest: string)
    requires settings != []
    ensures SkipTimeSpace(SettingsLine(settings) + rest) == SettingText(settings[0]) + (SettingsWords(settings[1..]) + ("\n" + rest))
  {
    var x := SettingText(settings[0]) + (SettingsWords(settings[1..]) + ("\n" + rest));
    AppendAssoc(SettingsWords(settings), "\n", rest);
    WordsUnfold(settings, "\n" + rest);
    SettingTextStart(settings[0], SettingsWords(settings[1..]) + ("\n" + rest));
    SkipLeading(" ", x);
  }

  /** Printing settings and reading them back gives the same settings and
      consumes the line. `words` is the printed line with its leading space
      already consumed, as the time before it does. */
  lemma SettingsRoundTrip(table: Table, settings: seq<Setting>, rest: string)
    requires HasRequiredEntries(table) && AllPrintable(settings)
    ensures settings == [] ==> ParseSettings(table, SettingsLine(settings) + rest) == Some((settings, rest))
    ensures settings != [] ==>
      ParseSettings(table, SettingText(settings[0]) + (SettingsWords(settings[1..]) + ("\n" + rest)))
        == Some((settings, rest))
  {
    if settings == [] {
      assert SettingsLine(settings) + rest == "\n" + rest;
      assert ParseVertical("\n" + rest).None? by { VerticalMismatch("\n" + rest); }
      assert ParseAlign("\n" + rest).None? by { AlignMismatch("\n" + rest); }
      assert ParsePosition("\n" + rest).None? by { PositionMismatch("\n" + rest); }
      assert ParseSize("\n" + rest).None? by { SizeMismatch("\n" + rest); }
      LineMismatch("\n" + rest);
      IntroducerMismatch("\n" + rest, "region", false);
      assert ("\n" + rest)[1..] == rest;
    } else {
      SettingsFromWords(table, settings, rest);
      assert ("\n" + rest)[1..] == rest;
    }
  }

  // ---------------------------------------------------------------------------
  // Region settings

  /** The region setting as written with separator `sep`. */
  function RegionSettingWith(setting: RegionSetting, sep: string): string {
    match setting
    case Id(id) => "id" + (sep + EscapeText(id))
    case Lines(n) => "lines" + (sep + IntText(n))
    case WidthPercentage(n) => "width" + (sep + (IntText(n) + "%"))
    case Scroll(d) => "scroll" + (sep + ScrollText(d))
    case Anchor(a) => "regionanchor" + (sep + AnchorText(a))
    case ViewPortAnchor(a) => "viewportanchor" + (sep + AnchorText(a))
  }

  lemma RegionSettingWithColon(setting: RegionSetting)
    ensures RegionSettingWith(setting, ":") == RegionSettingText(setting)
  {
  }

  lemma AnchorOf(a: RegionAnchor, rest: string)
    requires IsInt64(a.xPercentage) && IsInt64(a.yPercentage)
    ensures ParseAnchor(AnchorText(a) + rest) == Some((a, rest))
  {
    var x, y := IntText(a.xPercentage), IntText(a.yPercentage);
    var s4 := "%" + rest;
    var s3 := y + s4;
    var s2 := "," + s3;
    var s1 := "%" + s2;
    AnchorPieces(x, y, rest);
    ParseFormattedInt(a.xPercentage, 0, s1);
    SkipNoSpace(s1);
    ExpectConcat("%", s2);
    SkipNoSpace(s2);
    ExpectConcat(",", s3);
    FormatIntStart(a.yPercentage, 0);
    assert s3[0] == y[0];
    SkipNoSpace(s3);
    ParseFormattedInt(a.yPercentage, 0, s4);
    SkipNoSpace(s4);
    ExpectConcat("%", rest);
    AnchorSteps(AnchorText(a) + rest, a.xPercentage, s1, s2, s3, a.yPercentage, s4, rest);
  }

  lemma AnchorPieces(x: string, y: string, rest: string)
    ensures x + ("%" + ("," + (y + "%"))) + rest == x + ("%" + ("," + (y + ("%" + rest))))
  {
    AppendAssoc(y, "%", rest);
    AppendAssoc(",", y + "%", rest);
    AppendAssoc("%", "," + (y + "%"), rest);
    AppendAssoc(x, "%" + ("," + (y + "%")), rest);
  }

  lemma AnchorSteps(s: string, x: int, s1: string, s2: string, s3: string, y: int, s4: string, s5: string)
    requires ParseInt(s) == Some((x, s1))
    requires Expect(SkipHorizontal(s1), "%") == Some(s2)
    requires Expect(SkipHorizontal(s2), ",") == Some(s3)
    requires ParseInt(SkipHorizontal(s3)) == Some((y, s4))
    requires Expect(SkipHorizontal(s4), "%") == Some(s5)
    ensures ParseAnchor(s) == Some((RegionAnchor(x, y), s5))
  {
  }

  /** The key letters of the region grammars: `i`, `l`, `w`, `s`, `r`,
      `v`. */
  function RegionKeyLetter(setting: RegionSetting): char {
    match setting
    case Id(_) => 'i'
    case Lines(_) => 'l'
    case WidthPercentage(_) => 'w'
    case Scroll(_) => 's'
    case Anchor(_) => 'r'
    case ViewPortAnchor(_) => 'v'
  }

  lemma RegionTextStart(setting: RegionSetting, sep: string, rest: string)
    ensures RegionSettingWith(setting, sep) + rest != []
    ensures (RegionSettingWith(setting, sep) + rest)[0] == RegionKeyLetter(setting)
  {
  }

  /** The region alternatives before a setting's own grammar fail on its
      text. */
  lemma EarlierRegionAlternativesFail(table: Table, setting: RegionSetting, sep: string, rest: string)
    ensures setting.Id? || ParseRegionId(table, RegionSettingWith(setting, sep) + rest).None?
    ensures setting.Id? || setting.Lines? || ParseRegionLines(RegionSettingWith(setting, sep) + rest).None?
    ensures setting.Id? || setting.Lines? || setting.WidthPercentage?
      || ParseRegionWidth(RegionSettingWith(setting, sep) + rest).None?
    ensures setting.Id? || setting.Lines? || setting.WidthPercentage? || setting.Scroll?
      || ParseRegionScroll(RegionSettingWith(setting, sep) + rest).None?
    ensures setting.Id? || setting.Lines? || setting.WidthPercentage? || setting.Scroll? || setting.Anchor?
      || ParseRegionAnchor(RegionSettingWith(setting, sep) + rest).None?
  {
    var s := RegionSettingWith(setting, sep) + rest;
    RegionTextStart(setting, sep, rest);
    if !setting.Id? { IntroducerMismatch(s, "id", true); }
    if !setting.Lines? { IntroducerMismatch(s, "lines", true); }
    if !setting.WidthPercentage? { IntroducerMismatch(s, "width", true); }
    if !setting.Scroll? { IntroducerMismatch(s, "scroll", true); }
    if !setting.Anchor? { IntroducerMismatch(s, "regionanchor", true); }
  }

  lemma ScrollSteps(s: string, s1: string, d: RegionScroll, s2: string)
    requires Introducer(s, "scroll", true) == Some(s1)
    requires ParseScroll(s1) == Some((d, s2))
    ensures ParseRegionScroll(s) == Some((Scroll(d), s2))
  {
  }

  lemma ScrollValueOf(sep: string, d: RegionScroll, rest: string)
    requires sep == ":" || sep == "="
    ensures ParseRegionScroll(RegionSettingWith(Scroll(d), sep) + rest) == Some((Scroll(d), rest))
  {
    assert RegionSettingWith(Scroll(d), sep) == "scroll" + (sep + ScrollText(d));
    ScrollWord(d);
    ScrollOf(d, rest);
    ScrollGeneric(RegionSettingWith(Scroll(d), sep) + rest, sep, d, ScrollText(d), rest);
  }

  lemma ScrollGeneric(s: string, sep: string, d: RegionScroll, word: string, rest: string)
    requires sep == ":" || sep == "="
    requires s == "scroll" + (sep + word) + rest
    requires word != [] && 'a' <= word[0] <= 'z'
    requires ParseScroll(word + rest) == Some((d, rest))
    ensures ParseRegionScroll(s) == Some((Scroll(d), rest))
  {
    FieldAppend("scroll", sep, word, rest);
    WordStart(word, rest);
    IntroducerOf("scroll", sep, word + rest, true);
    ScrollSteps(s, word + rest, d, rest);
  }

  lemma AnchorValueOf(key: string, sep: string, a: RegionAnchor, rest: string)
    requires sep == ":" || sep == "="
    requires IsInt64(a.xPercentage) && IsInt64(a.yPercentage)
    ensures Introducer(key + (sep + AnchorText(a)) + rest, key, true) == Some(AnchorText(a) + rest)
    ensures ParseAnchor(AnchorText(a) + rest) == Some((a, rest))
  {
    FieldAppend(key, sep, AnchorText(a), rest);
    FormatIntStart(a.xPercentage, 0);
    assert (AnchorText(a) + rest)[0] == IntText(a.xPercentage)[0];
    IntroducerOf(key, sep, AnchorText(a) + rest, true);
    AnchorOf(a, rest);
  }

  /** Printing a region setting and reading it back with
      `RegionSettingParser` gives the same setting, and so does the same
      text with `=` in place of `:`. */
  lemma RegionSettingRoundTrip(table: Table, setting: RegionSetting, sep: string, rest: string)
    requires sep == ":" || sep == "="
    requires HasRequiredEntries(table) && IsPrintableRegionSetting(setting) && EndsValue(rest)
    ensures ParseRegionSetting(table, RegionSettingWith(setting, sep) + rest) == Some((setting, rest))
  {
    EarlierRegionAlternativesFail(table, setting, sep, rest);
    match setting
    case Id(id) => TextValueOf(table, "id", sep, id, rest, true);
    case Lines(n) => IntValueOf("lines", sep, n, rest, true);
    case WidthPercentage(n) => PercentValueOf("width", sep, n, rest, true);
    case Scroll(d) => ScrollValueOf(sep, d, rest);
    case Anchor(a) => AnchorValueOf("regionanchor", sep, a, rest);
    case ViewPortAnchor(a) => AnchorValueOf("viewportanchor", sep, a, rest);
  }
}
