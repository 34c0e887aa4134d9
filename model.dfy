/** The document model of Sources/WebVTT.swift: a document is a header and a
    list of elements (notes, style blocks, regions, cues and unrecognised
    blocks). Every entity is a value type whose fields are never updated
    after construction, so each becomes a datatype. The initialisers that do
    work are functions: `Region(settings:)` and `CueMetadata(...)` drop
    repeated settings, `Time(interval:)` splits a count of milliseconds with
    Swift's truncating `/` and `%`, and `Time(first:second:third:...)` reads
    two or three colon-separated groups. */
module WebVTT {
  import opened Wrappers
  import opened Sequences

  // ---------------------------------------------------------------------------
  // Header

  datatype HeaderMetadata = HeaderMetadata(key: string, value: string)

  datatype Header = Header(text: Option<string>, metadata: seq<HeaderMetadata>)

  /** `Header()`: no text after the signature and no metadata. */
  const DefaultHeader: Header := Header(None, [])

  // ---------------------------------------------------------------------------
  // Time

  /** A time stamp. Each field is a Swift `Int`; none is normalised, so a
      parsed `00:75.000` keeps 75 seconds. */
  datatype Time = Time(hours: int, minutes: int, seconds: int, milliseconds: int)

  datatype Timing = Timing(start: Time, end: Time)

  const MillisecondsPerSecond: int := 1000
  const MillisecondsPerMinute: int := 60 * MillisecondsPerSecond
  const MillisecondsPerHour: int := 60 * MillisecondsPerMinute

  /** The time as a whole number of milliseconds (the exact value of
      `interval * 1000`). */
  function TotalMilliseconds(t: Time): int {
    t.hours * 3_600_000 + t.minutes * 60_000 + t.seconds * 1000 + t.milliseconds
  }

  /** Swift's `/` on `Int`: the quotient rounded toward zero. */
  function Quot(a: int, b: int): int
    requires b > 0
  {
    if a >= 0 then a / b else -((-a) / b)
  }

  /** Swift's `%` on `Int`: the remainder that goes with `Quot`, taking the
      sign of the dividend. */
  function Rem(a: int, b: int): (r: int)
    requires b > 0
    ensures a == Quot(a, b) * b + r
    ensures a >= 0 ==> 0 <= r < b
    ensures a < 0 ==> -b < r <= 0
  {
    if a >= 0 then a % b else -((-a) % b)
  }

  /** The fields are within their usual ranges, all of one sign. */
  predicate IsNormalized(t: Time) {
    (0 <= t.hours && 0 <= t.minutes < 60 && 0 <= t.seconds < 60 && 0 <= t.milliseconds < 1000)
    || (t.hours <= 0 && -60 < t.minutes <= 0 && -60 < t.seconds <= 0 && -1000 < t.milliseconds <= 0)
  }

  /** The integer part of `Time(interval:)`, from `milliseconds =
      Int(interval * 1000)` on: whole hours, then whole minutes of what is
      left, then whole seconds, then the remaining milliseconds. The result
      denotes the same instant and is normalised, with every field taking the
      sign of the input. */
  function TimeFromMilliseconds(milliseconds: int): (t: Time)
    ensures TotalMilliseconds(t) == milliseconds
    ensures IsNormalized(t)
    ensures milliseconds >= 0 ==> t.hours >= 0 && t.minutes >= 0 && t.seconds >= 0 && t.milliseconds >= 0
    ensures milliseconds <= 0 ==> t.hours <= 0 && t.minutes <= 0 && t.seconds <= 0 && t.milliseconds <= 0
  {
    var completeHours := Quot(milliseconds, MillisecondsPerHour);
    var remainingAfterHours := Rem(milliseconds, MillisecondsPerHour);
    var completeMinutes := Quot(remainingAfterHours, MillisecondsPerMinute);
    var remainingAfterMinutes := Rem(remainingAfterHours, MillisecondsPerMinute);
    var completeSeconds := Quot(remainingAfterMinutes, MillisecondsPerSecond);
    var remainingAfterSeconds := Rem(remainingAfterMinutes, MillisecondsPerSecond);
    Time(completeHours, completeMinutes, completeSeconds, remainingAfterSeconds)
  }

  /** Splitting the total of a normalised time gives that time back: the
      decomposition is the inverse of `TotalMilliseconds` on normalised
      times. */
  lemma TimeFromTotal(t: Time)
    requires IsNormalized(t)
    ensures TimeFromMilliseconds(TotalMilliseconds(t)) == t
  {
    var n := TotalMilliseconds(t);
    var u := TimeFromMilliseconds(n);
    if n >= 0 {
      assert 0 <= t.hours;
      NormalizedUnique(u, t);
    } else {
      NormalizedUnique(u, t);
    }
  }

  /** Two normalised times with the same total are equal. */
  lemma NormalizedUnique(u: Time, t: Time)
    requires IsNormalized(u) && IsNormalized(t)
    requires TotalMilliseconds(u) == TotalMilliseconds(t)
    ensures u == t
  {
    var n := TotalMilliseconds(t);
    if n == 0 {
      ZeroTotal(t);
      ZeroTotal(u);
    } else {
      SameSign(t);
      SameSign(u);
      UnitsOf(u, t);
    }
  }

  /** A normalised time with total 0 is all zeros. */
  lemma ZeroTotal(t: Time)
    requires IsNormalized(t) && TotalMilliseconds(t) == 0
    ensures t == Time(0, 0, 0, 0)
  {
  }

  /** A normalised time has the sign of its total in all fields. */
  lemma SameSign(t: Time)
    requires IsNormalized(t)
    ensures TotalMilliseconds(t) > 0 ==> 0 <= t.hours && 0 <= t.minutes < 60 && 0 <= t.seconds < 60 && 0 <= t.milliseconds < 1000
    ensures TotalMilliseconds(t) < 0 ==> t.hours <= 0 && -60 < t.minutes <= 0 && -60 < t.seconds <= 0 && -1000 < t.milliseconds <= 0
  {
  }

  /** Mixed-radix digits of one sign are determined by their value. */
  lemma UnitsOf(u: Time, t: Time)
    requires TotalMilliseconds(u) == TotalMilliseconds(t)
    requires (0 <= t.hours && 0 <= t.minutes < 60 && 0 <= t.seconds < 60 && 0 <= t.milliseconds < 1000
              && 0 <= u.hours && 0 <= u.minutes < 60 && 0 <= u.seconds < 60 && 0 <= u.milliseconds < 1000)
          || (t.hours <= 0 && -60 < t.minutes <= 0 && -60 < t.seconds <= 0 && -1000 < t.milliseconds <= 0
              && u.hours <= 0 && -60 < u.minutes <= 0 && -60 < u.seconds <= 0 && -1000 < u.milliseconds <= 0)
    ensures u == t
  {
    assert u.hours == t.hours;
    assert u.minutes == t.minutes;
    assert u.seconds == t.seconds;
  }

  /** `Time(first:second:third:milliseconds:)`: with a third group the groups
      are hours, minutes and seconds; with two they are minutes and seconds
      and the hours are 0. */
  function TimeFromGroups(first: int, second: int, third: Option<int>, milliseconds: int): (t: Time)
    ensures t.milliseconds == milliseconds
    ensures third.Some? ==> t.hours == first && t.minutes == second && t.seconds == third.value
    ensures third.None? ==> t.hours == 0 && t.minutes == first && t.seconds == second
  {
    match third
    case Some(s) => Time(first, second, s, milliseconds)
    case None => Time(0, first, second, milliseconds)
  }

  // ---------------------------------------------------------------------------
  // Cue settings

  datatype Direction = Lr | Rl

  datatype Alignment = Start | AlignLeft | Center | Middle | End | AlignRight

  datatype Setting =
    | Vertical(direction: Direction)
    | LineNumber(line: int)
    | LinePercentage(percentage: int)
    | Position(position: int)
    | Size(size: int)
    | Align(alignment: Alignment)
    | Region(region: string)

  datatype CueMetadata = CueMetadata(identifier: Option<string>, timing: Timing, settings: seq<Setting>)

  /** `CueMetadata(identifier:timing:settings:)`: the settings with later
      repeats of an equal setting dropped. The result keeps every distinct
      setting, in first-occurrence order, and a list without repeats is kept
      as given. */
  function NewCueMetadata(identifier: Option<string>, timing: Timing, settings: seq<Setting>): (m: CueMetadata)
    ensures m.identifier == identifier && m.timing == timing
    ensures NoDuplicates(m.settings)
    ensures forall s :: s in m.settings <==> s in settings
    ensures NoDuplicates(settings) ==> m.settings == settings
    ensures m.settings == Unique(settings)
  {
    UniqueNoDuplicates(settings);
    var kept := if NoDuplicates(settings) then UniqueOfDistinct(settings); Unique(settings) else Unique(settings);
    CueMetadata(identifier, timing, kept)
  }

  // ---------------------------------------------------------------------------
  // Regions

  datatype RegionScroll = Up | Down | ScrollLeft | ScrollRight

  datatype RegionAnchor = RegionAnchor(xPercentage: int, yPercentage: int)

  datatype RegionSetting =
    | Id(id: string)
    | Lines(lines: int)
    | WidthPercentage(width: int)
    | Scroll(scroll: RegionScroll)
    | Anchor(anchor: RegionAnchor)
    | ViewPortAnchor(viewPortAnchor: RegionAnchor)

  datatype RegionBlock = RegionBlock(settings: seq<RegionSetting>)

  /** `Region(settings:)`: the settings with later repeats dropped, as for
      cue settings. */
  function NewRegion(settings: seq<RegionSetting>): (r: RegionBlock)
    ensures NoDuplicates(r.settings)
    ensures forall s :: s in r.settings <==> s in settings
    ensures NoDuplicates(settings) ==> r.settings == settings
    ensures r.settings == Unique(settings)
  {
    UniqueNoDuplicates(settings);
    var kept := if NoDuplicates(settings) then UniqueOfDistinct(settings); Unique(settings) else Unique(settings);
    RegionBlock(kept)
  }

  // ---------------------------------------------------------------------------
  // Cue payload

  datatype Component =
    | Plain(text: string)
    | Bold(classes: seq<string>, children: seq<Component>)
    | Italic(classes: seq<string>, children: seq<Component>)
    | Underline(classes: seq<string>, children: seq<Component>)
    | Ruby(classes: seq<string>, children: seq<Component>)
    | RubyText(classes: seq<string>, children: seq<Component>)
    | Class(className: Option<string>, children: seq<Component>)
    | Voice(classes: seq<string>, voiceName: string, children: seq<Component>)
    | Timestamp(time: Time, children: seq<Component>)
    | Language(classes: seq<string>, locale: string, children: seq<Component>)

  datatype CuePayload = CuePayload(components: seq<Component>)

  // ---------------------------------------------------------------------------
  // Document

  datatype Note = Note(text: string)

  datatype Style = Style(text: string)

  datatype Cue = Cue(metadata: CueMetadata, payload: CuePayload)

  datatype Element =
    | NoteElement(note: Note)
    | StyleElement(style: Style)
    | RegionElement(region: RegionBlock)
    | CueElement(cue: Cue)
    | Unknown(text: string)

  datatype Document = Document(header: Header, elements: seq<Element>)

  /** `WebVTT(elements:)`: the elements under a header with no text and no
      metadata. */
  function NewDocument(elements: seq<Element>): (d: Document)
    ensures d.header.text.None? && d.header.metadata == []
    ensures d.elements == elements
  {
    Document(DefaultHeader, elements)
  }
}
