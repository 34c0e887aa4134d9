/** `CuePayloadBuilder` of Sources/CuePayloadBuilder.swift and the
    `CuePayloadParser` of Sources/WebVTTParser.swift that wraps it.

    Printing is a recursion over the component tree. Parsing asks every tag
    builder for its first match in the text; the match that starts first wins,
    ties going to the builder listed first; the text before and after it is
    parsed again, and a text no builder matches is one plain component holding
    the decoded text. Each builder is a regular expression that parses its
    inner text recursively; here a builder is an abstract function from the
    text to its outcome, constrained only by what every builder's expression
    guarantees. */
module CuePayloadCodec {
  import opened Wrappers
  import opened Lexical
  import opened Entities
  import opened Text
  import opened WebVTT
  import opened TimeCodec

  // ---------------------------------------------------------------------------
  // Printing

  /** The class suffix of a tag: `.` before each class. */
  function ClassesText(classes: seq<string>): string {
    if classes == [] then "" else "." + classes[0] + ClassesText(classes[1..])
  }

  /** The markup of one component. */
  function ComponentText(c: Component): string
    decreases c, 1
  {
    match c
    case Plain(text) => EscapeText(text)
    case Bold(classes, children) => "<b" + ClassesText(classes) + ">" + ComponentsText(children) + "</b>"
    case Italic(classes, children) => "<i" + ClassesText(classes) + ">" + ComponentsText(children) + "</i>"
    case Underline(classes, children) => "<u" + ClassesText(classes) + ">" + ComponentsText(children) + "</u>"
    case Ruby(classes, children) => "<ruby" + ClassesText(classes) + ">" + ComponentsText(children) + "</ruby>"
    case RubyText(classes, children) => "<rt" + ClassesText(classes) + ">" + ComponentsText(children) + "</rt>"
    case Class(name, children) =>
      "<c" + (match name case None => "" case Some(n) => "." + n) + ">" + ComponentsText(children) + "</c>"
    case Voice(classes, name, children) =>
      "<v" + ClassesText(classes) + " " + name + ">" + ComponentsText(children) + "</v>"
    case Timestamp(time, children) => "<" + TimeText(time) + ">" + ComponentsText(children)
    case Language(classes, locale, children) =>
      "<lang" + ClassesText(classes) + " " + locale + ">" + ComponentsText(children) + "</lang>"
  }

  /** The markup of a list of components, one after the other. */
  function ComponentsText(cs: seq<Component>): string
    decreases cs, 0
  {
    if cs == [] then "" else ComponentText(cs[0]) + ComponentsText(cs[1..])
  }

  /** `CuePayloadParser.print`: the payload's markup prepended to `input`. */
  method PrintPayload(payload: CuePayload, input: string) returns (output: string)
    ensures output == ComponentsText(payload.components) + input
  {
    output := ComponentsText(payload.components) + input;
  }

  /** Printing a list is printing its parts one after the other. */
  lemma {:induction false} ComponentsTextAppend(a: seq<Component>, b: seq<Component>)
    ensures ComponentsText(a + b) == ComponentsText(a) + ComponentsText(b)
    decreases |a|
  {
    if a == [] {
      assert a + b == b;
    } else {
      assert (a + b)[1..] == a[1..] + b;
      ComponentsTextAppend(a[1..], b);
    }
  }

  /** A plain component prints with no tag delimiters, and its printed text
      decodes back to it. */
  lemma PlainTextRoundTrip(table: Table, text: string)
    requires HasRequiredEntries(table)
    ensures '<' !in ComponentText(Plain(text)) && '>' !in ComponentText(Plain(text))
    ensures DecodeText(table, ComponentText(Plain(text))) == text
  {
    EscapeTextIsSafe(text);
    DecodeEscapeText(table, text);
  }

  /** A voice prints its name after a space, as the voice expression
      requires, and always with its closing tag, so an unterminated voice is
      printed terminated. */
  lemma VoiceIsClosed(classes: seq<string>, name: string, children: seq<Component>)
    ensures var t := ComponentText(Voice(classes, name, children));
      var k := 2 + |ClassesText(classes)|;
      |t| >= k + |name| + 6 && t[..k] == "<v" + ClassesText(classes)
      && t[k] == ' ' && t[k + 1..k + 1 + |name|] == name && t[k + 1 + |name|] == '>'
    ensures var t := ComponentText(Voice(classes, name, children));
      |t| >= 4 && t[|t| - 4..] == "</v>"
  {
    VoicePieces("<v" + ClassesText(classes), name, ComponentsText(children));
  }

  lemma VoicePieces(open: string, name: string, inner: string)
    ensures var t := open + " " + name + ">" + inner + "</v>";
      var k := |open|;
      |t| >= k + |name| + 6 && t[..k] == open
      && t[k] == ' ' && t[k + 1..k + 1 + |name|] == name && t[k + 1 + |name|] == '>'
      && t[|t| - 4..] == "</v>"
  {
    var t := open + " " + name + ">" + inner + "</v>";
    assert t == open + (" " + (name + (">" + (inner + "</v>"))));
  }

  // ---------------------------------------------------------------------------
  // Classes

  predicate IsDot(c: char) {
    c == '.'
  }

  /** The classes of a tag as its builder reads them: no capture gives no
      classes; a capture is split at each `.` with `components(separatedBy:)`. */
  function ClassesOf(capture: Option<string>): seq<string> {
    match capture
    case None => []
    case Some(text) => Split(text, IsDot)
  }

  /** What the optional `.` and capture of a tag's expression take from a
      printed class suffix that is followed by `>`: nothing when it is empty,
      and everything after the leading `.` otherwise. */
  function ClassCapture(suffix: string): Option<string> {
    if suffix == [] then None else Some(suffix[1..])
  }

  lemma {:induction false} ClassesTextIsJoin(classes: seq<string>)
    requires classes != []
    ensures ClassesText(classes) == "." + Join(classes, ".")
    decreases |classes|
  {
    if |classes| == 1 {
      assert ClassesText(classes[1..]) == "";
    } else {
      ClassesTextIsJoin(classes[1..]);
      assert ClassesText(classes) == "." + classes[0] + ("." + Join(classes[1..], "."));
    }
  }

  /** Classes printed as a suffix are read back as the same classes when no
      class holds a `.`. */
  lemma ClassesRoundTrip(classes: seq<string>)
    requires forall k, i :: 0 <= k < |classes| && 0 <= i < |classes[k]| ==> classes[k][i] != '.'
    ensures ClassesOf(ClassCapture(ClassesText(classes))) == classes
  {
    if classes != [] {
      ClassesTextIsJoin(classes);
      assert ("." + Join(classes, "."))[1..] == Join(classes, ".");
      SplitJoin(classes, '.', IsDot);
    }
  }

  // ---------------------------------------------------------------------------
  // Builders and their expressions

  /** The tag builders, one per component kind, and the generic one that
      reads any `<name>…</name>` as a class. */
  datatype Builder =
    | BoldBuilder | ItalicBuilder | UnderlineBuilder | RubyBuilder | RubyTextBuilder
    | ClassBuilder | VoiceBuilder | TimestampBuilder | LanguageBuilder | CueStyleBuilder

  /** The builders in the order the payload builder asks them. */
  const Builders: seq<Builder> := [
    BoldBuilder, ItalicBuilder, UnderlineBuilder, RubyBuilder, RubyTextBuilder,
    ClassBuilder, VoiceBuilder, TimestampBuilder, LanguageBuilder, CueStyleBuilder
  ]

  /** The tag name a builder's expression starts with, in lower case; the
      timestamp and generic builders have none. */
  function TagName(b: Builder): string {
    match b
    case BoldBuilder => "b"
    case ItalicBuilder => "i"
    case UnderlineBuilder => "u"
    case RubyBuilder => "ruby"
    case RubyTextBuilder => "rt"
    case ClassBuilder => "c"
    case VoiceBuilder => "v"
    case LanguageBuilder => "lang"
    case TimestampBuilder => ""
    case CueStyleBuilder => ""
  }

  /** The first match of a builder's expression in a text: the range
      `start..end` it covers, the optional capture after `.` (the classes, or
      the name of a `<c>` tag), the optional text after a space that the
      fixed tags accept and ignore, the name (voice name, locale, generic tag
      name, or the time text between `<` and `>` of a timestamp) and the range
      `innerStart..innerEnd` of the inner text. */
  datatype RegexMatch = RegexMatch(
    start: nat, end: nat,
    classes: Option<string>, attributes: Option<string>, name: string,
    innerStart: nat, innerEnd: nat)

  /** Each builder's `firstMatch`, as a function of the builder and the text. */
  type Regex = (Builder, string) -> Option<RegexMatch>

  /** `sep` and the capture, or nothing. */
  function Suffix(sep: string, capture: Option<string>): string {
    match capture
    case None => ""
    case Some(c) => sep + c
  }

  /** The opening tag a match reads, up to ASCII case. */
  function OpeningTag(b: Builder, m: RegexMatch): string {
    match b
    case TimestampBuilder => "<" + m.name + ">"
    case CueStyleBuilder => "<" + m.name + ">"
    case VoiceBuilder => "<v" + Suffix(".", m.classes) + " " + m.name + ">"
    case LanguageBuilder => "<lang" + Suffix(".", m.classes) + " " + m.name + ">"
    case _ => "<" + TagName(b) + Suffix(".", m.classes) + Suffix(" ", m.attributes) + ">"
  }

  /** The closing tag a match ends with, up to ASCII case: none for a
      timestamp, which ends where the next one starts. */
  function ClosingTag(b: Builder, m: RegexMatch): string {
    match b
    case TimestampBuilder => ""
    case CueStyleBuilder => "</" + m.name + ">"
    case _ => "</" + TagName(b) + ">"
  }

  predicate SameUpToCase(a: string, b: string) {
    Lower(a) == Lower(b)
  }

  /** `t` holds `tag` at `k`, up to ASCII case. */
  predicate TagAt(t: string, k: nat, tag: string) {
    k + |tag| <= |t| && SameUpToCase(t[k..k + |tag|], tag)
  }

  predicate IsColonChar(c: char) {
    c == ':'
  }

  predicate IsDigitRun(s: string) {
    s != [] && AllDigits(s)
  }

  /** Two or three runs of digits separated by `:`. */
  predicate IsClockText(s: string) {
    var parts := Split(s, IsColonChar);
    (|parts| == 2 || |parts| == 3) && forall k :: 0 <= k < |parts| ==> IsDigitRun(parts[k])
  }

  /** What the timestamp expression reads between `<` and `>`: a clock, `.`
      and a run of digits. */
  predicate IsTimeText(s: string) {
    exists d :: 0 <= d < |s| && s[d] == '.' && IsClockText(s[..d]) && IsDigitRun(s[d + 1..])
  }

  /** A timestamp tag starts at `p`. */
  predicate TimeTagAt(t: string, p: nat) {
    p < |t| && t[p] == '<' && exists q :: p < q < |t| && t[q] == '>' && IsTimeText(t[p + 1..q])
  }

  /** `m` is a match of `b`'s expression in `t`: the opening tag, the inner
      text and the closing tag lie one after the other inside `t`; a voice
      without its closing tag runs to the end of `t`; a timestamp reads a
      time and ends at the end of `t` or where the next timestamp tag starts;
      and, the repetition being reluctant, the inner text stops at the first
      place the match may end. */
  ghost predicate IsMatchIn(b: Builder, t: string, m: RegexMatch) {
    && m.start < m.innerStart <= m.innerEnd <= m.end <= |t|
    && SameUpToCase(t[m.start..m.innerStart], OpeningTag(b, m))
    && (if b == VoiceBuilder && m.innerEnd == m.end then m.end == |t|
        else SameUpToCase(t[m.innerEnd..m.end], ClosingTag(b, m)))
    && (b == TimestampBuilder ==> IsTimeText(m.name) && (m.end == |t| || TimeTagAt(t, m.end)))
    && (b == TimestampBuilder ==> forall k :: m.innerStart <= k < m.innerEnd ==> !TimeTagAt(t, k))
    && (b != TimestampBuilder ==> forall k :: m.innerStart <= k < m.innerEnd ==> !TagAt(t, k, ClosingTag(b, m)))
  }

  /** What every builder's expression guarantees of its first match. */
  ghost predicate IsRegex(regex: Regex) {
    forall b, t :: regex(b, t).Some? ==> IsMatchIn(b, t, regex(b, t).value)
  }

  // ---------------------------------------------------------------------------
  // Building components

  /** What a builder gives for a text: no match, a match of `text[start..end]`
      with the component built from it, or an error thrown while building it
      (a timestamp the time parser rejects, or one from the recursive parse of
      the inner text). */
  datatype Built = NoMatch | Matched(start: nat, end: nat, component: Component) | Threw

  /** The time of a timestamp tag: the time parser reading the whole text
      between `<` and `>`; `None` is the error it throws. */
  function TimestampTime(text: string): (r: Option<Time>)
    ensures r.Some? ==> ParseTime(text) == Some((r.value, ""))
    ensures ParseTime(text).Some? && ParseTime(text).value.1 == "" ==> r.Some?
  {
    match ParseTime(text)
    case None => None
    case Some((time, rest)) => if rest == [] then Some(time) else None
  }

  /** The component a builder makes of its match and the inner text's
      components; `None` is the error the time parser throws. */
  function ComponentOf(b: Builder, m: RegexMatch, children: seq<Component>): Option<Component> {
    match b
    case BoldBuilder => Some(Bold(ClassesOf(m.classes), children))
    case ItalicBuilder => Some(Italic(ClassesOf(m.classes), children))
    case UnderlineBuilder => Some(Underline(ClassesOf(m.classes), children))
    case RubyBuilder => Some(Ruby(ClassesOf(m.classes), children))
    case RubyTextBuilder => Some(RubyText(ClassesOf(m.classes), children))
    case ClassBuilder => Some(Class(m.classes, children))
    case VoiceBuilder => Some(Voice(ClassesOf(m.classes), m.name, children))
    case TimestampBuilder =>
      (match TimestampTime(m.name)
       case None => None
       case Some(time) => Some(Timestamp(time, children)))
    case LanguageBuilder => Some(Language(ClassesOf(m.classes), m.name, children))
    case CueStyleBuilder => Some(Class(Some(m.name), children))
  }

  /** A builder's `build`: its first match, with the inner text parsed again
      by the whole payload builder. */
  function Build(table: Table, regex: Regex, b: Builder, text: string): (r: Built)
    requires IsRegex(regex)
    ensures r.Matched? ==> r.start < r.end <= |text|
    decreases |text|, 0
  {
    match regex(b, text)
    case None => NoMatch
    case Some(m) =>
      match ParseComponents(table, regex, text[m.innerStart..m.innerEnd])
      case None => Threw
      case Some(children) =>
        match ComponentOf(b, m, children)
        case None => Threw
        case Some(c) => Matched(m.start, m.end, c)
  }

  /** What every builder gives for the text, in the builders' order. */
  function BuildAll(table: Table, regex: Regex, text: string): (built: seq<Built>)
    requires IsRegex(regex)
    ensures |built| == |Builders|
    ensures forall i :: 0 <= i < |Builders| ==> built[i] == Build(table, regex, Builders[i], text)
    decreases |text|, 1
  {
    seq(|Builders|, i requires 0 <= i < |Builders| => Build(table, regex, Builders[i], text))
  }

  predicate AnyThrew(built: seq<Built>) {
    exists i :: 0 <= i < |built| && built[i].Threw?
  }

  /** The builder whose match is used: the one whose match starts first, the
      first listed among those that start at the same place. */
  function Chosen(built: seq<Built>): (r: Option<nat>)
    ensures r.None? <==> forall i :: 0 <= i < |built| ==> !built[i].Matched?
    ensures r.Some? ==> r.value < |built| && built[r.value].Matched?
    ensures r.Some? ==> forall j :: 0 <= j < |built| && built[j].Matched? ==>
      built[r.value].start <= built[j].start
    ensures r.Some? ==> forall j :: 0 <= j < r.value && built[j].Matched? ==>
      built[r.value].start < built[j].start
  {
    if built == [] then None
    else
      var later := Chosen(built[1..]);
      if built[0].Matched? && (later.None? || built[0].start <= built[1..][later.value].start) then Some(0)
      else if later.None? then None
      else Some(later.value + 1)
  }

  // ---------------------------------------------------------------------------
  // Parsing

  /** `CuePayloadBuilder.parse`: `None` when a builder throws, even one whose
      match is not used. */
  function ParseComponents(table: Table, regex: Regex, text: string): (r: Option<seq<Component>>)
    requires IsRegex(regex)
    ensures r.Some? ==> r.value != []
    decreases |text|, 2
  {
    var built := BuildAll(table, regex, text);
    if AnyThrew(built) then None
    else
      match Chosen(built)
      case None => Some([Plain(DecodeText(table, text))])
      case Some(i) =>
        var m := built[i];
        var leading := if m.start > 0 then ParseComponents(table, regex, text[..m.start]) else Some([]);
        var trailing := if m.end < |text| then ParseComponents(table, regex, text[m.end..]) else Some([]);
        if leading.None? || trailing.None? then None
        else Some(leading.value + [m.component] + trailing.value)
  }

  // ---------------------------------------------------------------------------
  // What every match looks like

  /** A character whose lower-case form is not a lower-case letter is that
      character. */
  lemma LowerKeeps(c: char, d: char)
    requires LowerChar(c) == d && !('a' <= d <= 'z')
    ensures c == d
  {
  }

  lemma SameUpToCaseAt(a: string, b: string, k: nat)
    requires SameUpToCase(a, b) && k < |b|
    ensures |a| == |b| && LowerChar(a[k]) == LowerChar(b[k])
  {
    assert Lower(a)[k] == Lower(b)[k];
  }

  /** Every match starts with `<`. */
  lemma MatchStartsWithTag(b: Builder, t: string, m: RegexMatch)
    requires IsMatchIn(b, t, m)
    ensures t[m.start] == '<'
  {
    var open := OpeningTag(b, m);
    assert open[0] == '<';
    SameUpToCaseAt(t[m.start..m.innerStart], open, 0);
    LowerKeeps(t[m.start], '<');
  }

  /** A match that ends with a closing tag holds a second `<` where that tag
      starts, after the opening one. */
  lemma ClosedMatchHasSecondTag(b: Builder, t: string, m: RegexMatch)
    requires IsMatchIn(b, t, m)
    requires b != TimestampBuilder && !(b == VoiceBuilder && m.innerEnd == m.end)
    ensures m.start < m.innerEnd < |t| && t[m.innerEnd] == '<'
  {
    var close := ClosingTag(b, m);
    assert close[0] == '<';
    SameUpToCaseAt(t[m.innerEnd..m.end], close, 0);
    LowerKeeps(t[m.innerEnd], '<');
  }

  /** The opening tag of a voice holds a space. */
  lemma VoiceOpeningHasSpace(t: string, m: RegexMatch)
    requires IsMatchIn(VoiceBuilder, t, m)
    ensures exists k :: m.start <= k < m.innerStart && t[k] == ' '
  {
    var open := OpeningTag(VoiceBuilder, m);
    var p := 2 + |Suffix(".", m.classes)|;
    assert open[p] == ' ';
    SameUpToCaseAt(t[m.start..m.innerStart], open, p);
    LowerKeeps(t[m.start + p], ' ');
  }

  /** The first piece `Split` gives is a prefix of the text. */
  lemma SplitFirstIsPrefix(s: string, p: char -> bool)
    ensures |Split(s, p)[0]| <= |s| && Split(s, p)[0] == s[..|Split(s, p)[0]|]
  {
  }

  /** A time text starts with a digit. */
  lemma TimeTextStartsWithDigit(s: string)
    requires IsTimeText(s)
    ensures s != [] && IsDigit(s[0])
  {
    var d :| 0 <= d < |s| && s[d] == '.' && IsClockText(s[..d]) && IsDigitRun(s[d + 1..]);
    var parts := Split(s[..d], IsColonChar);
    assert IsDigitRun(parts[0]);
    SplitFirstIsPrefix(s[..d], IsColonChar);
    assert parts[0][0] == s[0];
  }

  /** A timestamp's opening tag has a digit right after `<`. */
  lemma TimestampOpensWithDigit(t: string, m: RegexMatch)
    requires IsMatchIn(TimestampBuilder, t, m)
    ensures m.start + 1 < m.innerStart && IsDigit(t[m.start + 1])
  {
    TimeTextStartsWithDigit(m.name);
    var open := OpeningTag(TimestampBuilder, m);
    assert open[1] == m.name[0];
    SameUpToCaseAt(t[m.start..m.innerStart], open, 1);
    LowerKeeps(t[m.start + 1], m.name[0]);
  }

  /** A voice whose text after its opening tag holds no `</v>` runs to the
      end of the text. */
  lemma VoiceRunsToEnd(t: string, m: RegexMatch)
    requires IsMatchIn(VoiceBuilder, t, m)
    requires forall k :: m.innerStart <= k <= |t| ==> !TagAt(t, k, "</v>")
    ensures m.innerEnd == m.end == |t|
  {
    if m.innerEnd != m.end {
      assert ClosingTag(VoiceBuilder, m) == "</v>";
      assert TagAt(t, m.innerEnd, "</v>");
    }
  }

  // ---------------------------------------------------------------------------
  // Properties of parsing

  /** A text no builder matches is one plain component holding its
      decoding. */
  lemma NoMatchIsPlain(table: Table, regex: Regex, text: string)
    requires IsRegex(regex)
    requires forall b :: regex(b, text).None?
    ensures ParseComponents(table, regex, text) == Some([Plain(DecodeText(table, text))])
  {
    var built := BuildAll(table, regex, text);
    forall i | 0 <= i < |built|
      ensures built[i] == NoMatch
    {
      assert regex(Builders[i], text).None?;
    }
    assert !AnyThrew(built);
    assert Chosen(built).None?;
  }

  /** The components of the text on one side of a match: none for an empty
      side, which is not parsed at all. */
  function SideComponents(table: Table, regex: Regex, side: string): seq<Component>
    requires IsRegex(regex)
  {
    if side == [] then []
    else match ParseComponents(table, regex, side) case Some(cs) => cs case None => []
  }

  /** With a match, the result is the parse of the text before it, the chosen
      builder's component, and the parse of the text after it; a side that is
      not empty parses without error. */
  lemma MatchSplitsText(table: Table, regex: Regex, text: string, i: nat, start: nat, end: nat, c: Component)
    requires IsRegex(regex) && Chosen(BuildAll(table, regex, text)) == Some(i)
    requires BuildAll(table, regex, text)[i] == Matched(start, end, c)
    requires ParseComponents(table, regex, text).Some?
    ensures start > 0 ==> ParseComponents(table, regex, text[..start]).Some?
    ensures end < |text| ==> ParseComponents(table, regex, text[end..]).Some?
    ensures ParseComponents(table, regex, text).value
      == SideComponents(table, regex, text[..start]) + [c] + SideComponents(table, regex, text[end..])
  {
  }

  /** A text without `<` is plain. */
  lemma UntaggedIsPlain(table: Table, regex: Regex, text: string)
    requires IsRegex(regex)
    requires '<' !in text
    ensures ParseComponents(table, regex, text) == Some([Plain(DecodeText(table, text))])
  {
    forall b
      ensures regex(b, text).None?
    {
      if regex(b, text).Some? {
        MatchStartsWithTag(b, text, regex(b, text).value);
      }
    }
    NoMatchIsPlain(table, regex, text);
  }

  /** Printing a plain component and parsing it back gives it back. */
  lemma PlainRoundTrip(table: Table, regex: Regex, text: string)
    requires HasRequiredEntries(table) && IsRegex(regex)
    ensures ParseComponents(table, regex, ComponentsText([Plain(text)])) == Some([Plain(text)])
  {
    assert ComponentsText([Plain(text)]) == ComponentText(Plain(text)) + ComponentsText([]);
    assert ComponentsText([Plain(text)]) == EscapeText(text);
    PlainTextRoundTrip(table, text);
    UntaggedIsPlain(table, regex, EscapeText(text));
  }

  /** A text whose only `<` is its first character, with no space and no
      digit after the `<`, is plain: no tag of it can close, it names no
      voice and it is no timestamp. */
  lemma LoneTagIsPlain(table: Table, regex: Regex, t: string)
    requires IsRegex(regex)
    requires |t| >= 2 && t[0] == '<' && !IsDigit(t[1])
    requires forall k :: 1 <= k < |t| ==> t[k] != '<'
    requires forall k :: 0 <= k < |t| ==> t[k] != ' '
    ensures ParseComponents(table, regex, t) == Some([Plain(DecodeText(table, t))])
  {
    forall b
      ensures regex(b, t).None?
    {
      if regex(b, t).Some? {
        var m := regex(b, t).value;
        MatchStartsWithTag(b, t, m);
        if b == VoiceBuilder {
          VoiceOpeningHasSpace(t, m);
        } else if b == TimestampBuilder {
          TimestampOpensWithDigit(t, m);
        } else {
          ClosedMatchHasSecondTag(b, t, m);
        }
      }
    }
    NoMatchIsPlain(table, regex, t);
  }

  /** `<v>` names no voice, so it stays text. */
  lemma VoiceWithoutNameIsText(table: Table, regex: Regex)
    requires IsRegex(regex)
    ensures ParseComponents(table, regex, "<v>hi") == Some([Plain("<v>hi")])
  {
    var t := "<v>hi";
    assert forall k :: 0 <= k < |t| ==> t[k] in {'<', 'v', '>', 'h', 'i'};
    LoneTagIsPlain(table, regex, t);
    DecodeWithoutAmpersand(table, t);
  }

  /** Nor does `<v.loud>`, which has classes but no name. */
  lemma VoiceWithClassesOnlyIsText(table: Table, regex: Regex)
    requires IsRegex(regex)
    ensures ParseComponents(table, regex, "<v.loud>hi") == Some([Plain("<v.loud>hi")])
  {
    var t := "<v.loud>hi";
    assert forall k :: 0 <= k < |t| ==> t[k] in {'<', 'v', '.', 'l', 'o', 'u', 'd', '>', 'h', 'i'};
    LoneTagIsPlain(table, regex, t);
    DecodeWithoutAmpersand(table, t);
  }

  /** The timestamp builder hands the text between `<` and `>` to the time
      parser, which reads a printed time in range back whole. */
  lemma TimestampTagRoundTrip(time: Time)
    requires TimeInRange(time)
    ensures TimestampTime(TimeText(time)) == Some(time)
  {
    var t := TimeText(time);
    assert t + "" == t;
    assert SkipTimeSpace("") == "";
    TimeRoundTrip(time, "");
  }

  // ---------------------------------------------------------------------------
  // A concrete matcher: class-less bold tags only

  /** Where `lit` first occurs in `s` from `from` on, ignoring ASCII case. */
  function FindLiteral(s: string, from: nat, lit: string): (r: Option<nat>)
    ensures r.Some? ==> from <= r.value && LiteralAt(s, r.value, lit)
    ensures r.Some? ==> forall k :: from <= k < r.value ==> !LiteralAt(s, k, lit)
    ensures r.None? ==> forall k :: from <= k ==> !LiteralAt(s, k, lit)
    decreases |s| - from
  {
    if from + |lit| > |s| then None
    else if LiteralAt(s, from, lit) then Some(from)
    else FindLiteral(s, from + 1, lit)
  }

  /** The first match of `<b>…</b>`: the first `<b>`, then the first `</b>`
      after it. */
  function PlainBoldMatch(t: string): Option<RegexMatch> {
    match FindLiteral(t, 0, "<b>")
    case None => None
    case Some(i) =>
      match FindLiteral(t, i + 3, "</b>")
      case None => None
      case Some(j) => Some(RegexMatch(i, j + 4, None, None, "", i + 3, j))
  }

  /** The bold builder's expression restricted to tags without classes or
      attributes; no other builder matches. */
  function BoldOnly(b: Builder, t: string): Option<RegexMatch> {
    if b == BoldBuilder then PlainBoldMatch(t) else None
  }

  lemma LowerOfLower(s: string)
    requires forall k :: 0 <= k < |s| ==> !('A' <= s[k] <= 'Z')
    ensures Lower(s) == s
  {
  }

  lemma TagAtIsLiteralAt(t: string, k: nat, tag: string)
    requires forall i :: 0 <= i < |tag| ==> !('A' <= tag[i] <= 'Z')
    ensures TagAt(t, k, tag) <==> LiteralAt(t, k, tag)
  {
    LowerOfLower(tag);
  }

  lemma PlainBoldMatchIsMatch(t: string)
    requires PlainBoldMatch(t).Some?
    ensures IsMatchIn(BoldBuilder, t, PlainBoldMatch(t).value)
  {
    var m := PlainBoldMatch(t).value;
    assert OpeningTag(BoldBuilder, m) == "<b>";
    assert ClosingTag(BoldBuilder, m) == "</b>";
    TagAtIsLiteralAt(t, m.start, "<b>");
    TagAtIsLiteralAt(t, m.innerEnd, "</b>");
    forall k | m.innerStart <= k < m.innerEnd
      ensures !TagAt(t, k, "</b>")
    {
      TagAtIsLiteralAt(t, k, "</b>");
    }
  }

  /** The concrete matcher satisfies what every builder's expression
      guarantees. */
  lemma BoldOnlyIsRegex()
    ensures IsRegex(BoldOnly)
  {
    forall b, t | BoldOnly(b, t).Some?
      ensures IsMatchIn(b, t, BoldOnly(b, t).value)
    {
      PlainBoldMatchIsMatch(t);
    }
  }

  /** No literal starting with `<` occurs where the text has another
      character. */
  lemma NoLiteralWithoutTag(s: string, k: nat, lit: string)
    requires lit != [] && lit[0] == '<' && k < |s| && s[k] != '<'
    ensures !LiteralAt(s, k, lit)
  {
  }

  /** A literal does not occur where a character of it differs. */
  lemma NoLiteralAtMismatch(s: string, k: nat, lit: string, d: nat)
    requires d < |lit| && k + d < |s| && LowerChar(s[k + d]) != lit[d]
    ensures !LiteralAt(s, k, lit)
  {
  }

  /** In `prefix + lit + rest` with no `<` in `prefix` from `from` on, the first `lit` from
      `from` on is right after `prefix`. */
  lemma FindAfterUntagged(prefix: string, lit: string, rest: string, from: nat)
    requires from <= |prefix| && forall k :: from <= k < |prefix| ==> prefix[k] != '<'
    requires lit != [] && lit[0] == '<' && Lower(lit) == lit
    ensures FindLiteral(prefix + lit + rest, from, lit) == Some(|prefix|)
  {
    var s := prefix + lit + rest;
    assert s[|prefix|..|prefix| + |lit|] == lit;
    assert LiteralAt(s, |prefix|, lit);
    forall k | from <= k < |prefix|
      ensures !LiteralAt(s, k, lit)
    {
      NoLiteralWithoutTag(s, k, lit);
    }
  }

  /** The plain components of a text: none for the empty text. */
  function PlainPart(s: string): seq<Component> {
    if s == [] then [] else [Plain(s)]
  }

  /** A bold run of text between two plain texts. */
  function BoldFragment(before: string, inside: string, after: string): seq<Component> {
    PlainPart(before) + [Bold([], [Plain(inside)])] + PlainPart(after)
  }

  lemma PlainPartText(s: string)
    ensures ComponentsText(PlainPart(s)) == EscapeText(s)
  {
    if s != [] {
      assert ComponentsText([Plain(s)]) == ComponentText(Plain(s)) + ComponentsText([]);
    }
  }

  lemma BoldText(inside: string)
    ensures ComponentText(Bold([], [Plain(inside)])) == "<b>" + EscapeText(inside) + "</b>"
  {
    assert ComponentsText([Plain(inside)]) == ComponentText(Plain(inside)) + ComponentsText([]);
    assert ClassesText([]) == "";
  }

  lemma ThreePartsText(a: seq<Component>, c: Component, b: seq<Component>)
    ensures ComponentsText(a + [c] + b) == ComponentsText(a) + ComponentText(c) + ComponentsText(b)
  {
    ComponentsTextAppend(a + [c], b);
    ComponentsTextAppend(a, [c]);
    SingleComponentText(c);
  }

  lemma SingleComponentText(c: Component)
    ensures ComponentsText([c]) == ComponentText(c)
  {
    assert ComponentsText([c]) == ComponentText(c) + ComponentsText([]);
  }

  lemma BoldFragmentText(before: string, inside: string, after: string)
    ensures ComponentsText(BoldFragment(before, inside, after))
      == EscapeText(before) + "<b>" + EscapeText(inside) + "</b>" + EscapeText(after)
  {
    ThreePartsText(PlainPart(before), Bold([], [Plain(inside)]), PlainPart(after));
    BoldText(inside);
    PlainPartText(before);
    PlainPartText(after);
  }

  /** Plain text parses back as itself, or as nothing when it is empty. */
  lemma PlainPartParses(table: Table, s: string)
    requires HasRequiredEntries(table) && IsRegex(BoldOnly)
    ensures EscapeText(s) == [] <==> s == []
    ensures s != [] ==> ParseComponents(table, BoldOnly, EscapeText(s)) == Some(PlainPart(s))
  {
    EscapeTextNonEmpty(s);
    if s != [] {
      EscapeTextIsSafe(s);
      UntaggedIsPlain(table, BoldOnly, EscapeText(s));
      DecodeEscapeText(table, s);
    }
  }

  /** What the text on one side of a match parses to: nothing when it is
      empty. */
  function SideParse(table: Table, regex: Regex, side: string): Option<seq<Component>>
    requires IsRegex(regex)
  {
    if side == [] then Some([]) else ParseComponents(table, regex, side)
  }

  /** The parse of a text whose builders throw nothing, from the match
      chosen. */
  lemma ParseOfChoice(table: Table, regex: Regex, t: string, i: nat, start: nat, end: nat, c: Component)
    requires IsRegex(regex)
    requires !AnyThrew(BuildAll(table, regex, t)) && Chosen(BuildAll(table, regex, t)) == Some(i)
    requires BuildAll(table, regex, t)[i] == Matched(start, end, c)
    requires SideParse(table, regex, t[..start]).Some? && SideParse(table, regex, t[end..]).Some?
    ensures ParseComponents(table, regex, t)
      == Some(SideParse(table, regex, t[..start]).value + [c] + SideParse(table, regex, t[end..]).value)
  {
  }

  lemma BuildWithoutMatch(table: Table, regex: Regex, b: Builder, t: string)
    requires IsRegex(regex) && regex(b, t).None?
    ensures Build(table, regex, b, t) == NoMatch
  {
  }

  lemma BuildBold(table: Table, regex: Regex, t: string, m: RegexMatch, children: seq<Component>)
    requires IsRegex(regex)
    requires regex(BoldBuilder, t) == Some(m)
    requires ParseComponents(table, regex, t[m.innerStart..m.innerEnd]) == Some(children)
    ensures Build(table, regex, BoldBuilder, t) == Matched(m.start, m.end, Bold(ClassesOf(m.classes), children))
  {
  }

  /** When only the first builder matches, its match is the one used. */
  lemma OnlyFirstMatches(table: Table, regex: Regex, t: string)
    requires IsRegex(regex)
    requires Build(table, regex, Builders[0], t).Matched?
    requires forall i :: 1 <= i < |Builders| ==> Build(table, regex, Builders[i], t) == NoMatch
    ensures !AnyThrew(BuildAll(table, regex, t)) && Chosen(BuildAll(table, regex, t)) == Some(0)
  {
    var built := BuildAll(table, regex, t);
    assert built[0].Matched?;
    assert forall i :: 1 <= i < |built| ==> built[i] == NoMatch;
    FirstOnlyChosen(built);
  }

  /** A list of outcomes where only the first matched chooses the first. */
  lemma FirstOnlyChosen(built: seq<Built>)
    requires |built| > 0 && built[0].Matched?
    requires forall i :: 1 <= i < |built| ==> built[i] == NoMatch
    ensures !AnyThrew(built) && Chosen(built) == Some(0)
  {
  }

  /** When only the first builder matches, the text parses to its sides
      around that builder's component. */
  lemma ParseOfFirstOnly(table: Table, regex: Regex, t: string, start: nat, end: nat, c: Component)
    requires IsRegex(regex)
    requires Build(table, regex, Builders[0], t) == Matched(start, end, c)
    requires forall i :: 1 <= i < |Builders| ==> Build(table, regex, Builders[i], t) == NoMatch
    requires SideParse(table, regex, t[..start]).Some? && SideParse(table, regex, t[end..]).Some?
    ensures ParseComponents(table, regex, t)
      == Some(SideParse(table, regex, t[..start]).value + [c] + SideParse(table, regex, t[end..]).value)
  {
    OnlyFirstMatches(table, regex, t);
    ParseOfChoice(table, regex, t, 0, start, end, c);
  }

  /** The bold builder is asked first, and only first. */
  lemma BoldIsFirst()
    ensures Builders[0] == BoldBuilder
    ensures forall i :: 1 <= i < |Builders| ==> Builders[i] != BoldBuilder
  {
    assert BoldBuilder !in Builders[1..];
  }

  /** No builder but the bold one has a match for the concrete matcher. */
  lemma OnlyBoldBuilds(table: Table, t: string)
    requires IsRegex(BoldOnly)
    ensures forall i :: 1 <= i < |Builders| ==> Build(table, BoldOnly, Builders[i], t) == NoMatch
  {
    BoldIsFirst();
    forall i | 1 <= i < |Builders|
      ensures Build(table, BoldOnly, Builders[i], t) == NoMatch
    {
      BuildWithoutMatch(table, BoldOnly, Builders[i], t);
    }
  }

  /** Printing plain text, a bold run and plain text, and parsing the markup
      back, gives them back. */
  lemma BoldFragmentRoundTrip(table: Table, before: string, inside: string, after: string)
    requires HasRequiredEntries(table)
    ensures IsRegex(BoldOnly)
      && ParseComponents(table, BoldOnly, ComponentsText(BoldFragment(before, inside, after)))
         == Some(BoldFragment(before, inside, after))
  {
    BoldOnlyIsRegex();
    BoldFragmentText(before, inside, after);
    ParseBoldFragment(table, before, inside, after);
  }

  lemma ParseBoldFragment(table: Table, before: string, inside: string, after: string)
    requires HasRequiredEntries(table) && IsRegex(BoldOnly)
    ensures ParseComponents(table, BoldOnly, EscapeText(before) + "<b>" + EscapeText(inside) + "</b>" + EscapeText(after))
      == Some(BoldFragment(before, inside, after))
  {
    var a, x, c := EscapeText(before), EscapeText(inside), EscapeText(after);
    var t := a + "<b>" + x + "</b>" + c;
    EscapeTextIsSafe(before);
    EscapeTextIsSafe(inside);
    var m := BoldFragmentMatch(a, x, c);
    SideParsePlain(table, before);
    SideParsePlain(table, after);
    InsideParsePlain(table, inside);
    BuildBold(table, BoldOnly, t, m, [Plain(inside)]);
    OnlyBoldBuilds(table, t);
    ParseOfFirstOnly(table, BoldOnly, t, m.start, m.end, Bold([], [Plain(inside)]));
  }

  /** A side printed from plain text parses back to it. */
  lemma SideParsePlain(table: Table, s: string)
    requires HasRequiredEntries(table) && IsRegex(BoldOnly)
    ensures SideParse(table, BoldOnly, EscapeText(s)) == Some(PlainPart(s))
  {
    PlainPartParses(table, s);
  }

  /** The inner text of a printed bold run parses back to its plain text. */
  lemma InsideParsePlain(table: Table, s: string)
    requires HasRequiredEntries(table) && IsRegex(BoldOnly)
    ensures ParseComponents(table, BoldOnly, EscapeText(s)) == Some([Plain(s)])
  {
    PlainPartParses(table, s);
    EmptyIsPlain(table, s);
  }

  /** The empty text parses to one empty plain component. */
  lemma EmptyIsPlain(table: Table, inside: string)
    requires IsRegex(BoldOnly)
    ensures inside == [] ==> ParseComponents(table, BoldOnly, EscapeText(inside)) == Some([Plain(inside)])
  {
    if inside == [] {
      UntaggedIsPlain(table, BoldOnly, []);
      assert DecodeText(table, []) == [];
    }
  }

  lemma LowerTags()
    ensures Lower("<b>") == "<b>" && Lower("</b>") == "</b>"
  {
    LowerOfLower("<b>");
    LowerOfLower("</b>");
  }

  /** Where the concrete matcher finds the bold run of a printed fragment. */
  lemma BoldFragmentMatch(a: string, x: string, c: string) returns (m: RegexMatch)
    requires '<' !in a && '<' !in x
    ensures m == RegexMatch(|a|, |a| + 3 + |x| + 4, None, None, "", |a| + 3, |a| + 3 + |x|)
    ensures BoldOnly(BoldBuilder, a + "<b>" + x + "</b>" + c) == Some(m)
    ensures var t := a + "<b>" + x + "</b>" + c;
      t[m.innerStart..m.innerEnd] == x && t[..m.start] == a && t[m.end..] == c
  {
    FindOpening(a, x, c);
    FindClosingAfterOpening(a, x, c);
    BoldMatchOfFinds(a + "<b>" + x + "</b>" + c, |a|, |a| + 3 + |x|);
    m := RegexMatch(|a|, |a| + 3 + |x| + 4, None, None, "", |a| + 3, |a| + 3 + |x|);
    FragmentSlices(a, x, c);
  }

  /** The concrete matcher's match, from where it finds the two tags. */
  lemma BoldMatchOfFinds(t: string, i: nat, j: nat)
    requires FindLiteral(t, 0, "<b>") == Some(i) && FindLiteral(t, i + 3, "</b>") == Some(j)
    ensures BoldOnly(BoldBuilder, t) == Some(RegexMatch(i, j + 4, None, None, "", i + 3, j))
  {
  }

  lemma FragmentSlices(a: string, x: string, c: string)
    ensures var t := a + "<b>" + x + "</b>" + c;
      t[|a| + 3..|a| + 3 + |x|] == x && t[..|a|] == a && t[|a| + 3 + |x| + 4..] == c
  {
  }

  lemma FindOpening(a: string, x: string, c: string)
    requires '<' !in a
    ensures FindLiteral(a + "<b>" + x + "</b>" + c, 0, "<b>") == Some(|a|)
  {
    LowerTags();
    FindAfterUntagged(a, "<b>", x + "</b>" + c, 0);
    AppendAssoc(a + "<b>", x + "</b>", c);
    AppendAssoc(a + "<b>", x, "</b>");
  }

  lemma FindClosingAfterOpening(a: string, x: string, c: string)
    requires '<' !in x
    ensures FindLiteral(a + "<b>" + x + "</b>" + c, |a| + 3, "</b>") == Some(|a| + 3 + |x|)
  {
    FindClosing(a + "<b>", x, c);
  }

  lemma FindClosing(p: string, x: string, c: string)
    requires '<' !in x
    ensures FindLiteral(p + x + "</b>" + c, |p|, "</b>") == Some(|p| + |x|)
  {
    LowerTags();
    FindAfterUntagged(p + x, "</b>", c, |p|);
  }

  /** The components `<b><b>x</b></b>` reads to. */
  const NestedBoldParse: seq<Component> := [Bold([], [Plain("<b>x")]), Plain("</b>")]

  /** A bold run inside a bold run does not survive printing and parsing: the
      outer run is cut at the inner closing tag. */
  lemma NestedBoldSplits(table: Table)
    ensures IsRegex(BoldOnly)
      && ParseComponents(table, BoldOnly, ComponentText(Bold([], [Bold([], [Plain("x")])]))) == Some(NestedBoldParse)
  {
    BoldOnlyIsRegex();
    var t, m := NestedBoldLayout();
    ShortTagIsText(table, "<b>x");
    TrailingTagSide(table, "</b>");
    EmptySide(table);
    BuildBold(table, BoldOnly, t, m, [Plain("<b>x")]);
    OnlyBoldBuilds(table, t);
    ParseOfFirstOnly(table, BoldOnly, t, m.start, m.end, Bold([], [Plain("<b>x")]));
    NestedBoldShape();
  }

  /** Where the concrete matcher finds the outer bold run of `<b><b>x</b></b>`. */
  lemma NestedBoldLayout() returns (t: string, m: RegexMatch)
    ensures t == ComponentText(Bold([], [Bold([], [Plain("x")])]))
    ensures BoldOnly(BoldBuilder, t) == Some(m) && m.classes.None?
    ensures t[m.innerStart..m.innerEnd] == "<b>x" && t[..m.start] == [] && t[m.end..] == "</b>"
  {
    t := NestedBoldText();
    m := NestedBoldMatch(t);
  }

  lemma TrailingTagSide(table: Table, s: string)
    requires IsRegex(BoldOnly) && s == "</b>"
    ensures SideParse(table, BoldOnly, s) == Some([Plain(s)])
  {
    ShortTagIsText(table, s);
  }

  lemma EmptySide(table: Table)
    requires IsRegex(BoldOnly)
    ensures SideParse(table, BoldOnly, []) == Some([])
  {
  }

  lemma NestedBoldShape()
    ensures [] + [Bold([], [Plain("<b>x")])] + [Plain("</b>")] == NestedBoldParse
  {
  }

  lemma NestedBoldText() returns (t: string)
    ensures t == ComponentText(Bold([], [Bold([], [Plain("x")])])) == "<b><b>x</b></b>"
  {
    BoldText("x");
    assert EscapeText("x") == "x";
    assert ComponentText(Bold([], [Plain("x")])) == "<b>x</b>";
    assert ComponentsText([Bold([], [Plain("x")])]) == ComponentText(Bold([], [Plain("x")])) + ComponentsText([]);
    t := "<b><b>x</b></b>";
  }

  lemma NestedBoldMatch(t: string) returns (m: RegexMatch)
    requires t == "<b><b>x</b></b>"
    ensures m == RegexMatch(0, 11, None, None, "", 3, 7)
    ensures BoldOnly(BoldBuilder, t) == Some(m)
    ensures t[m.innerStart..m.innerEnd] == "<b>x" && t[..m.start] == [] && t[m.end..] == "</b>"
  {
    NestedOpening(t);
    NestedClosing(t);
    BoldMatchOfFinds(t, 0, 7);
    m := RegexMatch(0, 11, None, None, "", 3, 7);
    NestedSlices(t);
  }

  lemma NestedOpening(t: string)
    requires t == "<b><b>x</b></b>"
    ensures FindLiteral(t, 0, "<b>") == Some(0)
  {
    LowerOfLower("<b>");
    assert t[0..3] == "<b>";
  }

  lemma NestedClosing(t: string)
    requires t == "<b><b>x</b></b>"
    ensures FindLiteral(t, 3, "</b>") == Some(7)
  {
    LowerOfLower("</b>");
    assert t[7..11] == "</b>";
    assert LiteralAt(t, 7, "</b>");
    NoLiteralAtMismatch(t, 3, "</b>", 1);
    forall k | 4 <= k < 7
      ensures !LiteralAt(t, k, "</b>")
    {
      NoLiteralWithoutTag(t, k, "</b>");
    }
  }

  lemma NestedSlices(t: string)
    requires t == "<b><b>x</b></b>"
    ensures t[3..7] == "<b>x" && t[..0] == [] && t[11..] == "</b>"
  {
  }

  /** `<b>x` and `</b>` are text for the concrete matcher. */
  lemma ShortTagIsText(table: Table, s: string)
    requires IsRegex(BoldOnly)
    requires s == "<b>x" || s == "</b>"
    ensures ParseComponents(table, BoldOnly, s) == Some([Plain(s)])
  {
    if s == "<b>x" {
      assert FindLiteral(s, 3, "</b>") == None;
    } else {
      NoLiteralAtMismatch(s, 0, "<b>", 1);
      NoLiteralWithoutTag(s, 1, "<b>");
      assert FindLiteral(s, 0, "<b>") == None;
    }
    forall b
      ensures BoldOnly(b, s).None?
    {
    }
    NoMatchIsPlain(table, BoldOnly, s);
    DecodeWithoutAmpersand(table, s);
  }

  /** A matcher that finds nothing. */
  function NeverMatches(b: Builder, t: string): Option<RegexMatch> {
    None
  }

  /** `IsRegex` states what a match looks like, not that one is found: the
      matcher that finds nothing meets it, and with it a printed bold run
      stays text. So a payload round trip needs a matcher that does find the
      bold tags, such as `BoldOnly`. */
  lemma MatchesAreNotPromised(table: Table)
    ensures IsRegex(NeverMatches)
    ensures ParseComponents(table, NeverMatches, "<b>x</b>") == Some([Plain("<b>x</b>")])
  {
    NoMatchIsPlain(table, NeverMatches, "<b>x</b>");
    DecodeWithoutAmpersand(table, "<b>x</b>");
  }

  // ---------------------------------------------------------------------------
  // Errors

  /** A builder that throws makes the whole parse throw, whether or not its
      match would have been used. */
  lemma ThrowAnywhereFails(table: Table, regex: Regex, text: string, i: nat)
    requires IsRegex(regex) && i < |Builders| && Build(table, regex, Builders[i], text).Threw?
    ensures ParseComponents(table, regex, text).None?
  {
    assert BuildAll(table, regex, text)[i].Threw?;
  }

  /** A timestamp tag whose time the time parser rejects (a number that
      does not fit an `Int`, say) makes the whole parse throw. */
  lemma RejectedTimestampFails(table: Table, regex: Regex, text: string, m: RegexMatch)
    requires IsRegex(regex) && regex(TimestampBuilder, text) == Some(m) && TimestampTime(m.name).None?
    ensures ParseComponents(table, regex, text).None?
  {
    assert Build(table, regex, Builders[7], text).Threw?;
    ThrowAnywhereFails(table, regex, text, 7);
  }

  // ---------------------------------------------------------------------------
  // CuePayloadParser

  /** The text of a payload: everything before the first blank line. */
  function PayloadText(s: string): string {
    PrefixUpTo(s, IsNewline, 2)
  }

  /** `CuePayloadParser.parse` on an input it consumes: the text up to the
      first two newline characters in a row is parsed and removed. */
  method ReadPayload(table: Table, regex: Regex, input: string)
    returns (payload: Option<CuePayload>, remaining: string)
    requires IsRegex(regex)
    ensures var parsed := ParseComponents(table, regex, PayloadText(input));
      payload == (if parsed.Some? then Some(CuePayload(parsed.value)) else None)
    ensures payload.Some? ==> remaining == input[|PayloadText(input)|..]
    ensures payload.Some? ==> remaining == [] || RunAt(input, |PayloadText(input)|, IsNewline, 2)
  {
    var prefix := PrefixUpTo(input, IsNewline, 2);
    var parsed := ParseComponents(table, regex, prefix);
    remaining := input;
    if parsed.Some? {
      payload := Some(CuePayload(parsed.value));
      remaining := input[|prefix|..];
    } else {
      payload := None;
    }
  }
}
