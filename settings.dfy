/** Cue settings (`SettingsParser`, `SettingParser` and the seven setting
    grammars) and region settings (`RegionSettingParser`, its six grammars
    and `RegionAnchorParser`) of Sources/WebVTTParser.swift. A setting is a
    key, optional horizontal whitespace, a separator (`:` for cue settings,
    `:` or `=` for region settings), optional horizontal whitespace and a
    value; printing writes `key:value` with no whitespace. The alternatives
    are tried in a fixed order and the first that succeeds wins. */
module Settings {
  import opened Wrappers
  import opened Lexical
  import opened Entities
  import opened Text
  import opened WebVTT

  /** `Whitespace(.horizontal)` when parsing: any run of spaces and tabs. */
  function SkipHorizontal(s: string): (r: string)
    ensures IsSuffix(r, s)
    ensures r == [] || !IsHorizontalSpace(r[0])
  {
    TrimStart(s, IsHorizontalSpace)
  }

  /** `key`, whitespace, the separator, whitespace: the input left for the
      value. `acceptEquals` adds `=` as an alternative to `:`. */
  function Introducer(s: string, key: string, acceptEquals: bool): (r: Option<string>)
    ensures r.Some? ==> |r.value| < |s|
  {
    match Expect(s, key)
    case None => None
    case Some(s1) =>
      var s2 := SkipHorizontal(s1);
      match Expect(s2, ":")
      case Some(s3) => Some(SkipHorizontal(s3))
      case None =>
        if !acceptEquals then None
        else
          match Expect(s2, "=")
          case None => None
          case Some(s3) => Some(SkipHorizontal(s3))
  }

  /** An `Int` value after the introducer. */
  function IntValue(s: string, key: string, acceptEquals: bool): (r: Option<(int, string)>)
    ensures r.Some? ==> |r.value.1| < |s|
  {
    match Introducer(s, key, acceptEquals)
    case None => None
    case Some(s1) => ParseInt(s1)
  }

  /** An `Int` value followed by `%`. */
  function PercentValue(s: string, key: string, acceptEquals: bool): (r: Option<(int, string)>)
    ensures r.Some? ==> |r.value.1| < |s|
  {
    match IntValue(s, key, acceptEquals)
    case None => None
    case Some((n, s1)) =>
      match Expect(s1, "%")
      case None => None
      case Some(s2) => Some((n, s2))
  }

  /** A text value: decoded, up to the next whitespace or newline. */
  function TextValue(table: Table, s: string, key: string, acceptEquals: bool): (r: Option<(string, string)>)
    ensures r.Some? ==> |r.value.1| < |s|
  {
    match Introducer(s, key, acceptEquals)
    case None => None
    case Some(s1) => Some(ParseText(table, s1, IsWhitespace, 1))
  }

  // ---------------------------------------------------------------------------
  // Enumerations: parsed by their raw values, printed as them

  function DirectionText(d: Direction): string {
    match d
    case Lr => "lr"
    case Rl => "rl"
  }

  function ParseDirection(s: string): (r: Option<(Direction, string)>)
    ensures r.Some? ==> Expect(s, DirectionText(r.value.0)) == Some(r.value.1)
  {
    match Expect(s, "lr")
    case Some(rest) => Some((Lr, rest))
    case None =>
      match Expect(s, "rl")
      case Some(rest) => Some((Rl, rest))
      case None => None
  }

  function AlignmentText(a: Alignment): string {
    match a
    case Start => "start"
    case AlignLeft => "left"
    case Center => "center"
    case Middle => "middle"
    case End => "end"
    case AlignRight => "right"
  }

  function ParseAlignment(s: string): (r: Option<(Alignment, string)>)
    ensures r.Some? ==> Expect(s, AlignmentText(r.value.0)) == Some(r.value.1)
  {
    if Expect(s, "start").Some? then Some((Start, Expect(s, "start").value))
    else if Expect(s, "left").Some? then Some((AlignLeft, Expect(s, "left").value))
    else if Expect(s, "center").Some? then Some((Center, Expect(s, "center").value))
    else if Expect(s, "middle").Some? then Some((Middle, Expect(s, "middle").value))
    else if Expect(s, "end").Some? then Some((End, Expect(s, "end").value))
    else if Expect(s, "right").Some? then Some((AlignRight, Expect(s, "right").value))
    else None
  }

  function ScrollText(d: RegionScroll): string {
    match d
    case Up => "up"
    case Down => "down"
    case ScrollLeft => "left"
    case ScrollRight => "right"
  }

  function ParseScroll(s: string): (r: Option<(RegionScroll, string)>)
    ensures r.Some? ==> Expect(s, ScrollText(r.value.0)) == Some(r.value.1)
  {
    if Expect(s, "up").Some? then Some((Up, Expect(s, "up").value))
    else if Expect(s, "down").Some? then Some((Down, Expect(s, "down").value))
    else if Expect(s, "left").Some? then Some((ScrollLeft, Expect(s, "left").value))
    else if Expect(s, "right").Some? then Some((ScrollRight, Expect(s, "right").value))
    else None
  }

  // ---------------------------------------------------------------------------
  // Cue settings

  function ParseVertical(s: string): (r: Option<(Setting, string)>)
    ensures r.Some? ==> |r.value.1| < |s|
  {
    match Introducer(s, "vertical", false)
    case None => None
    case Some(s1) =>
      match ParseDirection(s1)
      case None => None
      case Some((d, s2)) => Some((Vertical(d), s2))
  }

  function ParseAlign(s: string): (r: Option<(Setting, string)>)
    ensures r.Some? ==> |r.value.1| < |s|
  {
    match Introducer(s, "align", false)
    case None => None
    case Some(s1) =>
      match ParseAlignment(s1)
      case None => None
      case Some((a, s2)) => Some((Align(a), s2))
  }

  function ParsePosition(s: string): (r: Option<(Setting, string)>)
    ensures r.Some? ==> |r.value.1| < |s|
  {
    match PercentValue(s, "position", false)
    case None => None
    case Some((n, s1)) => Some((Position(n), s1))
  }

  function ParseSize(s: string): (r: Option<(Setting, string)>)
    ensures r.Some? ==> |r.value.1| < |s|
  {
    match PercentValue(s, "size", false)
    case None => None
    case Some((n, s1)) => Some((Size(n), s1))
  }

  function ParseLinePercentage(s: string): (r: Option<(Setting, string)>)
    ensures r.Some? ==> |r.value.1| < |s|
  {
    match PercentValue(s, "line", false)
    case None => None
    case Some((n, s1)) => Some((LinePercentage(n), s1))
  }

  function ParseLineNumber(s: string): (r: Option<(Setting, string)>)
    ensures r.Some? ==> |r.value.1| < |s|
  {
    match IntValue(s, "line", false)
    case None => None
    case Some((n, s1)) => Some((LineNumber(n), s1))
  }

  function ParseRegionIdentifier(table: Table, s: string): (r: Option<(Setting, string)>)
    ensures r.Some? ==> |r.value.1| < |s|
  {
    match TextValue(table, s, "region", false)
    case None => None
    case Some((name, s1)) => Some((Region(name), s1))
  }

  /** `SettingParser`: direction, alignment, position, size, line
      percentage, line number, region, in that order. */
  function ParseSetting(table: Table, s: string): (r: Option<(Setting, string)>)
    ensures r.Some? ==> |r.value.1| < |s|
  {
    if ParseVertical(s).Some? then ParseVertical(s)
    else if ParseAlign(s).Some? then ParseAlign(s)
    else if ParsePosition(s).Some? then ParsePosition(s)
    else if ParseSize(s).Some? then ParseSize(s)
    else if ParseLinePercentage(s).Some? then ParseLinePercentage(s)
    else if ParseLineNumber(s).Some? then ParseLineNumber(s)
    else ParseRegionIdentifier(table, s)
  }

  /** `key:value`. */
  function Field(key: string, value: string): string {
    key + (":" + value)
  }

  /** What `SettingParser.print` writes for one setting. */
  function SettingText(setting: Setting): string {
    match setting
    case Vertical(d) => Field("vertical", DirectionText(d))
    case LineNumber(n) => Field("line", IntText(n))
    case LinePercentage(n) => Field("line", IntText(n) + "%")
    case Position(n) => Field("position", IntText(n) + "%")
    case Size(n) => Field("size", IntText(n) + "%")
    case Align(a) => Field("align", AlignmentText(a))
    case Region(name) => Field("region", EscapeText(name))
  }

  // ---------------------------------------------------------------------------
  // The settings line

  /** The separator between settings: a run of horizontal whitespace, or a
      comma. */
  function Separator(s: string): (r: Option<string>)
    ensures r.Some? ==> |r.value| < |s|
  {
    if s != [] && IsHorizontalSpace(s[0]) then Some(SkipHorizontal(s))
    else Expect(s, ",")
  }

  /** `Whitespace(1, .vertical)`: exactly one line feed or carriage
      return. */
  function LineEnd(s: string): (r: Option<string>)
    ensures r.Some? ==> |r.value| < |s|
  {
    if s != [] && IsVerticalSpace(s[0]) then Some(s[1..]) else None
  }

  /** The repetition of `Many`: settings with separators between them. It
      stops at the first setting that does not parse, or at the first
      missing separator, and then gives back the separator it read before
      that setting, so the input left starts right after the last setting. */
  function SettingsFrom(table: Table, s: string): (r: (seq<Setting>, string))
    ensures |r.1| <= |s|
    ensures r.0 == [] ==> r.1 == s
    decreases |s|
  {
    match ParseSetting(table, s)
    case None => ([], s)
    case Some((setting, s1)) =>
      match Separator(s1)
      case None => ([setting], s1)
      case Some(s2) =>
        var (more, s3) := SettingsFrom(table, s2);
        if more == [] then ([setting], s1) else ([setting] + more, s3)
  }

  /** `SettingsParser.parse`: the settings, then one line end, which is
      required. The settings are returned as read; `CueMetadata` drops the
      repeats. */
  function ParseSettings(table: Table, s: string): (r: Option<(seq<Setting>, string)>)
    ensures r.Some? ==> |r.value.1| < |s|
  {
    var (settings, s1) := SettingsFrom(table, s);
    match LineEnd(s1)
    case None => None
    case Some(s2) => Some((settings, s2))
  }

  /** The settings as `SettingsParser.print` writes them: each preceded by a
      space. */
  function SettingsWords(settings: seq<Setting>): string {
    if settings == [] then "" else " " + SettingText(settings[0]) + SettingsWords(settings[1..])
  }

  /** What `SettingsParser.print` writes: the words and a line feed. */
  function SettingsLine(settings: seq<Setting>): string {
    SettingsWords(settings) + "\n"
  }

  /** `SettingsParser.print`: first the line feed, then, from the last
      setting back to the first, the setting and a space before it. */
  method PrintSettings(settings: seq<Setting>, input: string) returns (output: string)
    ensures output == SettingsLine(settings) + input
  {
    output := "\n" + input;
    var i := |settings|;
    while i > 0
      invariant 0 <= i <= |settings|
      invariant output == SettingsWords(settings[i..]) + ("\n" + input)
    {
      i := i - 1;
      output := SettingText(settings[i]) + output;
      output := " " + output;
      WordsStep(settings, i, "\n" + input);
    }
    AppendAssoc(SettingsWords(settings), "\n", input);
  }

  lemma WordsStep(settings: seq<Setting>, i: nat, after: string)
    requires i < |settings|
    ensures " " + (SettingText(settings[i]) + (SettingsWords(settings[i + 1..]) + after))
      == SettingsWords(settings[i..]) + after
  {
    assert settings[i..][1..] == settings[i + 1..];
    AppendAssoc(SettingText(settings[i]), SettingsWords(settings[i + 1..]), after);
    AppendAssoc(" ", SettingText(settings[i]) + SettingsWords(settings[i + 1..]), after);
  }

  // ---------------------------------------------------------------------------
  // Region settings

  /** `RegionAnchorParser`: `Int %, Int %`, whitespace allowed around the
      `%` and `,` signs. */
  function ParseAnchor(s: string): (r: Option<(RegionAnchor, string)>)
    ensures r.Some? ==> |r.value.1| < |s|
  {
    match ParseInt(s)
    case None => None
    case Some((x, s1)) =>
      match Expect(SkipHorizontal(s1), "%")
      case None => None
      case Some(s2) =>
        match Expect(SkipHorizontal(s2), ",")
        case None => None
        case Some(s3) =>
          match ParseInt(SkipHorizontal(s3))
          case None => None
          case Some((y, s4)) =>
            match Expect(SkipHorizontal(s4), "%")
            case None => None
            case Some(s5) => Some((RegionAnchor(x, y), s5))
  }

  function ParseRegionId(table: Table, s: string): (r: Option<(RegionSetting, string)>)
    ensures r.Some? ==> |r.value.1| < |s|
  {
    match TextValue(table, s, "id", true)
    case None => None
    case Some((id, s1)) => Some((Id(id), s1))
  }

  function ParseRegionLines(s: string): (r: Option<(RegionSetting, string)>)
    ensures r.Some? ==> |r.value.1| < |s|
  {
    match IntValue(s, "lines", true)
    case None => None
    case Some((n, s1)) => Some((Lines(n), s1))
  }

  function ParseRegionWidth(s: string): (r: Option<(RegionSetting, string)>)
    ensures r.Some? ==> |r.value.1| < |s|
  {
    match PercentValue(s, "width", true)
    case None => None
    case Some((n, s1)) => Some((WidthPercentage(n), s1))
  }

  function ParseRegionScroll(s: string): (r: Option<(RegionSetting, string)>)
    ensures r.Some? ==> |r.value.1| < |s|
  {
    match Introducer(s, "scroll", true)
    case None => None
    case Some(s1) =>
      match ParseScroll(s1)
      case None => None
      case Some((d, s2)) => Some((Scroll(d), s2))
  }

  function ParseRegionAnchor(s: string): (r: Option<(RegionSetting, string)>)
    ensures r.Some? ==> |r.value.1| < |s|
  {
    match Introducer(s, "regionanchor", true)
    case None => None
    case Some(s1) =>
      match ParseAnchor(s1)
      case None => None
      case Some((a, s2)) => Some((Anchor(a), s2))
  }

  function ParseViewPortAnchor(s: string): (r: Option<(RegionSetting, string)>)
    ensures r.Some? ==> |r.value.1| < |s|
  {
    match Introducer(s, "viewportanchor", true)
    case None => None
    case Some(s1) =>
      match ParseAnchor(s1)
      case None => None
      case Some((a, s2)) => Some((ViewPortAnchor(a), s2))
  }

  /** `RegionSettingParser`: id, lines, width, scroll, region anchor, view
      port anchor, in that order. */
  function ParseRegionSetting(table: Table, s: string): (r: Option<(RegionSetting, string)>)
    ensures r.Some? ==> |r.value.1| < |s|
  {
    if ParseRegionId(table, s).Some? then ParseRegionId(table, s)
    else if ParseRegionLines(s).Some? then ParseRegionLines(s)
    else if ParseRegionWidth(s).Some? then ParseRegionWidth(s)
    else if ParseRegionScroll(s).Some? then ParseRegionScroll(s)
    else if ParseRegionAnchor(s).Some? then ParseRegionAnchor(s)
    else ParseViewPortAnchor(s)
  }

  /** `x%,y%`: the anchor as printed (the optional whitespace prints as
      nothing). */
  function AnchorText(a: RegionAnchor): string {
    IntText(a.xPercentage) + ("%" + ("," + (IntText(a.yPercentage) + "%")))
  }

  /** What `RegionSettingParser.print` writes for one region setting: always
      with `:`. */
  function RegionSettingText(setting: RegionSetting): string {
    match setting
    case Id(id) => Field("id", EscapeText(id))
    case Lines(n) => Field("lines", IntText(n))
    case WidthPercentage(n) => Field("width", IntText(n) + "%")
    case Scroll(d) => Field("scroll", ScrollText(d))
    case Anchor(a) => Field("regionanchor", AnchorText(a))
    case ViewPortAnchor(a) => Field("viewportanchor", AnchorText(a))
  }
}
