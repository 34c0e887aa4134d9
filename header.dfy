/** `HeaderMetadataParser` of Sources/WebVTTParser.swift: the `key: value`
    lines between the `WEBVTT` line and the first blank line. Parsing takes
    the input up to the first two newline characters in a row, splits it
    into lines, trims them, and keeps each line that splits on `:` into
    exactly two non-empty trimmed parts; printing writes each entry as a
    line feed followed by `key: value`. */
module HeaderCodec {
  import opened Wrappers
  import opened Lexical
  import opened Text
  import opened WebVTT

  predicate IsColon(c: char) {
    c == ':'
  }

  /** Every piece with its surrounding whitespace trimmed, and the pieces
      left empty dropped. */
  function NonEmptyTrimmed(parts: seq<string>): (r: seq<string>)
    ensures |r| <= |parts|
  {
    if parts == [] then []
    else
      var t := Trim(parts[0], IsWhitespace);
      if t == [] then NonEmptyTrimmed(parts[1..]) else [t] + NonEmptyTrimmed(parts[1..])
  }

  /** One line as an entry: it must split on `:` into exactly two parts
      that are not empty once trimmed. */
  function MetadataOfLine(line: string): Option<HeaderMetadata> {
    var components := NonEmptyTrimmed(Split(line, IsColon));
    if |components| == 2 then Some(HeaderMetadata(components[0], components[1])) else None
  }

  /** `compactMap` over the lines. */
  function MetadataOfLines(lines: seq<string>): seq<HeaderMetadata> {
    if lines == [] then []
    else
      match MetadataOfLine(lines[0])
      case None => MetadataOfLines(lines[1..])
      case Some(m) => [m] + MetadataOfLines(lines[1..])
  }

  /** The lines of the block read by the parser. */
  function BlockLines(block: string): seq<string> {
    NonEmptyTrimmed(Split(Trim(block, IsNewline), IsNewline))
  }

  /** What `HeaderMetadataParser.parse` reads from `s` and leaves in it. */
  function ParseHeaderMetadata(s: string): (r: (seq<HeaderMetadata>, string))
    ensures IsSuffix(r.1, s)
  {
    var block := PrefixUpTo(s, IsNewline, 2);
    (MetadataOfLines(BlockLines(block)), s[|block|..])
  }

  /** `HeaderMetadataParser.parse`: reads the block and removes it from the
      input. */
  method ReadHeaderMetadata(input: string) returns (metadata: seq<HeaderMetadata>, remaining: string)
    ensures (metadata, remaining) == ParseHeaderMetadata(input)
  {
    var block := PrefixUpTo(input, IsNewline, 2);
    remaining := input[|block|..];
    var lines := BlockLines(block);
    metadata := MetadataOfLines(lines);
  }

  // ---------------------------------------------------------------------------
  // Printing

  function MetadataLine(m: HeaderMetadata): string {
    m.key + (": " + m.value)
  }

  /** What `HeaderMetadataParser.print` writes: a line feed and `key: value`
      for each entry, in order. */
  function HeaderMetadataText(metadata: seq<HeaderMetadata>): string {
    if metadata == [] then "" else "\n" + (MetadataLine(metadata[0]) + HeaderMetadataText(metadata[1..]))
  }

  /** `HeaderMetadataParser.print`: from the last entry back to the first,
      the entry's line, then the line feed before it, prepended to the
      output. */
  method PrintHeaderMetadata(metadata: seq<HeaderMetadata>, input: string) returns (output: string)
    ensures output == HeaderMetadataText(metadata) + input
  {
    output := input;
    var i := |metadata|;
    while i > 0
      invariant 0 <= i <= |metadata|
      invariant output == HeaderMetadataText(metadata[i..]) + input
    {
      i := i - 1;
      output := MetadataLine(metadata[i]) + output;
      output := "\n" + output;
      TextStep(metadata, i, input);
    }
  }

  lemma TextStep(metadata: seq<HeaderMetadata>, i: nat, input: string)
    requires i < |metadata|
    ensures "\n" + (MetadataLine(metadata[i]) + (HeaderMetadataText(metadata[i + 1..]) + input))
      == HeaderMetadataText(metadata[i..]) + input
  {
    assert metadata[i..][1..] == metadata[i + 1..];
    AppendAssoc(MetadataLine(metadata[i]), HeaderMetadataText(metadata[i + 1..]), input);
    AppendAssoc("\n", MetadataLine(metadata[i]) + HeaderMetadataText(metadata[i + 1..]), input);
  }

  // ---------------------------------------------------------------------------
  // What parsing yields

  /** An entry as the parser can produce it, and as printing and parsing
      again keeps it: key and value are non-empty, have no whitespace at
      either end, and hold neither `:` nor a newline character. */
  predicate IsPlainMetadata(m: HeaderMetadata) {
    m.key != [] && m.value != []
    && IsTrimmed(m.key, IsWhitespace) && IsTrimmed(m.value, IsWhitespace)
    && Avoids(m.key, IsColon) && Avoids(m.value, IsColon)
    && Avoids(m.key, IsNewline) && Avoids(m.value, IsNewline)
  }

  lemma {:induction false} NonEmptyTrimmedPieces(parts: seq<string>, q: char -> bool)
    requires forall k :: 0 <= k < |parts| ==> Avoids(parts[k], q)
    ensures forall k :: 0 <= k < |NonEmptyTrimmed(parts)| ==>
      NonEmptyTrimmed(parts)[k] != [] && IsTrimmed(NonEmptyTrimmed(parts)[k], IsWhitespace)
      && Avoids(NonEmptyTrimmed(parts)[k], q)
  {
    if parts != [] {
      var t := Trim(parts[0], IsWhitespace);
      TrimIsTrimmed(parts[0], IsWhitespace);
      TrimAvoids(parts[0], IsWhitespace, q);
      NonEmptyTrimmedPieces(parts[1..], q);
    }
  }

  /** Every line of the block is free of newline characters. */
  lemma BlockLinesAvoidNewlines(block: string)
    ensures forall k :: 0 <= k < |BlockLines(block)| ==> Avoids(BlockLines(block)[k], IsNewline)
  {
    SplitAvoidsSeparator(Trim(block, IsNewline), IsNewline);
    NonEmptyTrimmedPieces(Split(Trim(block, IsNewline), IsNewline), IsNewline);
  }

  /** An entry read from a line is plain. */
  lemma LineEntryIsPlain(line: string)
    requires Avoids(line, IsNewline)
    ensures MetadataOfLine(line).Some? ==> IsPlainMetadata(MetadataOfLine(line).value)
  {
    var parts := Split(line, IsColon);
    SplitAvoidsSeparator(line, IsColon);
    SplitAvoids(line, IsColon, IsNewline);
    NonEmptyTrimmedPieces(parts, IsColon);
    NonEmptyTrimmedPieces(parts, IsNewline);
  }

  lemma {:induction false} LinesEntriesArePlain(lines: seq<string>)
    requires forall k :: 0 <= k < |lines| ==> Avoids(lines[k], IsNewline)
    ensures forall k :: 0 <= k < |MetadataOfLines(lines)| ==> IsPlainMetadata(MetadataOfLines(lines)[k])
  {
    if lines != [] {
      LineEntryIsPlain(lines[0]);
      LinesEntriesArePlain(lines[1..]);
    }
  }

  /** Every entry the parser yields has a non-empty key and value without
      whitespace at their ends and without `:` or newlines, and the parser
      never reads past the first blank line. */
  lemma ParsedMetadataIsPlain(s: string)
    ensures forall k :: 0 <= k < |ParseHeaderMetadata(s).0| ==> IsPlainMetadata(ParseHeaderMetadata(s).0[k])
    ensures var left := ParseHeaderMetadata(s).1;
      left == [] || (|left| >= 2 && IsNewline(left[0]) && IsNewline(left[1]))
  {
    var block := PrefixUpTo(s, IsNewline, 2);
    assert RunAt(s, |block|, IsNewline, 2) ==> s[|block|] == s[|block|..][0] && s[|block| + 1] == s[|block|..][1];
    BlockLinesAvoidNewlines(block);
    LinesEntriesArePlain(BlockLines(block));
  }

  // ---------------------------------------------------------------------------
  // Round trip

  predicate AllPlain(metadata: seq<HeaderMetadata>) {
    forall k :: 0 <= k < |metadata| ==> IsPlainMetadata(metadata[k])
  }

  lemma AllPlainTail(metadata: seq<HeaderMetadata>)
    requires metadata != [] && AllPlain(metadata)
    ensures IsPlainMetadata(metadata[0]) && AllPlain(metadata[1..])
  {
    assert forall k :: 0 <= k < |metadata[1..]| ==> metadata[1..][k] == metadata[k + 1];
  }

  lemma TextUnfold(metadata: seq<HeaderMetadata>, after: string)
    requires metadata != []
    ensures HeaderMetadataText(metadata) + after
      == "\n" + (MetadataLine(metadata[0]) + (HeaderMetadataText(metadata[1..]) + after))
  {
    AppendAssoc(MetadataLine(metadata[0]), HeaderMetadataText(metadata[1..]), after);
    AppendAssoc("\n", MetadataLine(metadata[0]) + HeaderMetadataText(metadata[1..]), after);
  }

  /** A run of two is two newline characters at `i` and `i + 1`. */
  lemma RunOfTwo(s: string, i: nat)
    ensures RunAt(s, i, IsNewline, 2) <==> i + 2 <= |s| && IsNewline(s[i]) && IsNewline(s[i + 1])
  {
  }

  lemma RunAtLineFeed(w: string)
    requires w != [] && !IsNewline(w[0])
    ensures !RunAt("\n" + w, 0, IsNewline, 2)
  {
    RunOfTwo("\n" + w, 0);
    assert ("\n" + w)[1] == w[0];
  }

  lemma RunAfterLineFeed(w: string, i: nat)
    requires i >= 1
    ensures RunAt("\n" + w, i, IsNewline, 2) == RunAt(w, i - 1, IsNewline, 2)
  {
    RunOfTwo("\n" + w, i);
    RunOfTwo(w, i - 1);
    if i + 2 <= |"\n" + w| {
      assert ("\n" + w)[i] == w[i - 1] && ("\n" + w)[i + 1] == w[i];
    }
  }

  lemma RunInLine(line: string, x: string, j: nat)
    requires j < |line| && Avoids(line, IsNewline)
    ensures !RunAt(line + x, j, IsNewline, 2)
  {
    RunOfTwo(line + x, j);
    assert (line + x)[j] == line[j];
  }

  lemma RunPastLine(line: string, x: string, j: nat)
    requires j >= |line|
    ensures RunAt(line + x, j, IsNewline, 2) == RunAt(x, j - |line|, IsNewline, 2)
  {
    RunOfTwo(line + x, j);
    RunOfTwo(x, j - |line|);
    if j + 2 <= |line + x| {
      assert (line + x)[j] == x[j - |line|] && (line + x)[j + 1] == x[j + 1 - |line|];
    }
  }

  /** A printed entry is a non-empty line without newlines whose first and
      last characters are not whitespace. */
  lemma LinePieces(m: HeaderMetadata)
    requires IsPlainMetadata(m)
    ensures MetadataLine(m) != [] && Avoids(MetadataLine(m), IsNewline)
    ensures IsTrimmed(MetadataLine(m), IsWhitespace)
  {
    var line := MetadataLine(m);
    assert forall i :: 0 <= i < |m.key| ==> line[i] == m.key[i];
    assert forall i :: 0 <= i < |m.value| ==> line[|m.key| + 2 + i] == m.value[i];
  }

  /** The printed block never has two newline characters in a row, not even
      at its end. */
  lemma {:induction false} NoBlankLineInside(metadata: seq<HeaderMetadata>, after: string, i: nat)
    requires AllPlain(metadata)
    requires i < |HeaderMetadataText(metadata)|
    ensures !RunAt(HeaderMetadataText(metadata) + after, i, IsNewline, 2)
    decreases |metadata|
  {
    AllPlainTail(metadata);
    LinePieces(metadata[0]);
    TextUnfold(metadata, after);
    if i == 0 {
      RunAtLineFeed(MetadataLine(metadata[0]) + (HeaderMetadataText(metadata[1..]) + after));
    } else {
      RunAfterLineFeed(MetadataLine(metadata[0]) + (HeaderMetadataText(metadata[1..]) + after), i);
      if i - 1 < |MetadataLine(metadata[0])| {
        RunInLine(MetadataLine(metadata[0]), HeaderMetadataText(metadata[1..]) + after, i - 1);
      } else {
        RunPastLine(MetadataLine(metadata[0]), HeaderMetadataText(metadata[1..]) + after, i - 1);
        NoBlankLineInside(metadata[1..], after, i - 1 - |MetadataLine(metadata[0])|);
      }
    }
  }

  /** The parser's block is exactly the printed text. */
  lemma PrintedBlock(metadata: seq<HeaderMetadata>, rest: string)
    requires AllPlain(metadata)
    ensures PrefixUpTo(HeaderMetadataText(metadata) + ("\n\n" + rest), IsNewline, 2) == HeaderMetadataText(metadata)
  {
    var t := HeaderMetadataText(metadata);
    var s := t + ("\n\n" + rest);
    forall i | 0 <= i < |t|
      ensures !RunAt(s, i, IsNewline, 2)
    {
      NoBlankLineInside(metadata, "\n\n" + rest, i);
    }
    RunOfTwo(s, |t|);
    assert s[|t|] == '\n' && s[|t| + 1] == '\n';
    PrefixEndIs(s, IsNewline, 2, 0, |t|);
    assert s[..|t|] == t;
  }

  /** The printed lines, without their line feeds. */
  function Lines(metadata: seq<HeaderMetadata>): (lines: seq<string>)
    ensures |lines| == |metadata|
    ensures forall k :: 0 <= k < |metadata| ==> lines[k] == MetadataLine(metadata[k])
  {
    if metadata == [] then [] else [MetadataLine(metadata[0])] + Lines(metadata[1..])
  }

  /** The printed text is a line feed and the lines joined by line feeds. */
  lemma {:induction false} TextIsJoin(metadata: seq<HeaderMetadata>)
    requires metadata != []
    ensures HeaderMetadataText(metadata) == "\n" + Join(Lines(metadata), "\n")
  {
    if |metadata| > 1 {
      TextIsJoin(metadata[1..]);
      assert Lines(metadata)[1..] == Lines(metadata[1..]);
      AppendAssoc(MetadataLine(metadata[0]), "\n", Join(Lines(metadata[1..]), "\n"));
    } else {
      assert HeaderMetadataText(metadata[1..]) == "";
    }
  }

  lemma LinesArePlain(metadata: seq<HeaderMetadata>)
    requires AllPlain(metadata)
    ensures forall k :: 0 <= k < |Lines(metadata)| ==>
      Lines(metadata)[k] != [] && Avoids(Lines(metadata)[k], IsNewline) && IsTrimmed(Lines(metadata)[k], IsWhitespace)
  {
    forall k | 0 <= k < |metadata|
      ensures Lines(metadata)[k] != [] && Avoids(Lines(metadata)[k], IsNewline) && IsTrimmed(Lines(metadata)[k], IsWhitespace)
    {
      LinePieces(metadata[k]);
    }
  }

  /** A join of non-empty lines starts with the first line's first
      character and ends with the last line's last character. */
  lemma {:induction false} JoinEnds(lines: seq<string>, sep: char)
    requires lines != [] && forall k :: 0 <= k < |lines| ==> lines[k] != []
    ensures Join(lines, [sep]) != []
    ensures Join(lines, [sep])[0] == lines[0][0]
    ensures Join(lines, [sep])[|Join(lines, [sep])| - 1] == lines[|lines| - 1][|lines[|lines| - 1]| - 1]
  {
    if |lines| > 1 {
      JoinEnds(lines[1..], sep);
      var j := Join(lines[1..], [sep]);
      assert Join(lines, [sep]) == lines[0] + [sep] + j;
    }
  }

  lemma TrimLeadingLineFeed(j: string)
    requires j != [] && !IsNewline(j[0]) && !IsNewline(j[|j| - 1])
    ensures Trim("\n" + j, IsNewline) == j
  {
    assert ("\n" + j)[1..] == j;
    assert TrimStart("\n" + j, IsNewline) == TrimStart(j, IsNewline);
    TrimUntouched(j, IsNewline);
  }

  /** Trimming the block's newlines leaves the joined lines. */
  lemma TrimmedBlock(metadata: seq<HeaderMetadata>)
    requires metadata != [] && AllPlain(metadata)
    ensures Trim(HeaderMetadataText(metadata), IsNewline) == Join(Lines(metadata), "\n")
  {
    TextIsJoin(metadata);
    LinesArePlain(metadata);
    JoinEnds(Lines(metadata), '\n');
    TrimLeadingLineFeed(Join(Lines(metadata), "\n"));
  }

  /** The block's lines are the printed lines. */
  lemma PrintedLines(metadata: seq<HeaderMetadata>)
    requires AllPlain(metadata)
    ensures BlockLines(HeaderMetadataText(metadata)) == Lines(metadata)
  {
    if metadata != [] {
      TrimmedBlock(metadata);
      LinesSplitBack(metadata);
    }
  }

  /** Split at the line feeds, the joined lines give the lines back, and
      trimming keeps them all. */
  lemma LinesSplitBack(metadata: seq<HeaderMetadata>)
    requires metadata != [] && AllPlain(metadata)
    ensures NonEmptyTrimmed(Split(Join(Lines(metadata), "\n"), IsNewline)) == Lines(metadata)
  {
    LinesArePlain(metadata);
    SplitJoin(Lines(metadata), '\n', IsNewline);
    KeptWhenTrimmed(Lines(metadata));
  }

  /** Lines already trimmed and non-empty pass the trimming unchanged. */
  lemma {:induction false} KeptWhenTrimmed(parts: seq<string>)
    requires forall k :: 0 <= k < |parts| ==> parts[k] != [] && IsTrimmed(parts[k], IsWhitespace)
    ensures NonEmptyTrimmed(parts) == parts
  {
    if parts != [] {
      TrimUntouched(parts[0], IsWhitespace);
      KeptWhenTrimmed(parts[1..]);
      assert [parts[0]] + parts[1..] == parts;
    }
  }

  lemma JoinPair(a: string, b: string, sep: string)
    ensures Join([a, b], sep) == a + sep + b
  {
    assert [a, b][1..] == [b];
  }

  lemma JoinTriple(a: string, b: string, c: string, sep: string)
    ensures Join([a, b, c], sep) == a + sep + (b + sep + c)
  {
    assert [a, b, c][1..] == [b, c];
    JoinPair(b, c, sep);
  }

  lemma SpacedAvoids(v: string, q: char -> bool)
    requires Avoids(v, q) && !q(' ')
    ensures Avoids(" " + v, q)
  {
    assert forall i :: 0 < i < |" " + v| ==> (" " + v)[i] == v[i - 1];
  }

  /** The space after the colon is trimmed away. */
  lemma TrimSpaced(v: string)
    requires v != [] && IsTrimmed(v, IsWhitespace)
    ensures Trim(" " + v, IsWhitespace) == v
  {
    assert (" " + v)[1..] == v;
    assert TrimStart(" " + v, IsWhitespace) == TrimStart(v, IsWhitespace);
    TrimUntouched(v, IsWhitespace);
  }

  lemma NonEmptyTrimmedPair(x: string, y: string)
    requires Trim(x, IsWhitespace) != [] && Trim(y, IsWhitespace) != []
    ensures NonEmptyTrimmed([x, y]) == [Trim(x, IsWhitespace), Trim(y, IsWhitespace)]
  {
    assert [x, y][1..] == [y];
    assert [y][1..] == [];
  }

  lemma NonEmptyTrimmedTriple(x: string, y: string, z: string)
    requires Trim(x, IsWhitespace) != [] && Trim(y, IsWhitespace) != [] && Trim(z, IsWhitespace) != []
    ensures |NonEmptyTrimmed([x, y, z])| == 3
  {
    assert [x, y, z][1..] == [y, z];
    NonEmptyTrimmedPair(y, z);
  }

  /** A printed line splits at its one colon. */
  lemma SplitLine(m: HeaderMetadata)
    requires IsPlainMetadata(m)
    ensures Split(MetadataLine(m), IsColon) == [m.key, " " + m.value]
  {
    JoinPair(m.key, " " + m.value, ":");
    AppendAssoc(":", " ", m.value);
    AppendAssoc(m.key, ":", " " + m.value);
    assert ":" + " " == ": ";
    SpacedAvoids(m.value, IsColon);
    SplitJoin([m.key, " " + m.value], ':', IsColon);
  }

  /** One printed line reads back as its entry. */
  lemma LineRoundTrip(m: HeaderMetadata)
    requires IsPlainMetadata(m)
    ensures MetadataOfLine(MetadataLine(m)) == Some(m)
  {
    SplitLine(m);
    TrimUntouched(m.key, IsWhitespace);
    TrimSpaced(m.value);
    NonEmptyTrimmedPair(m.key, " " + m.value);
  }

  lemma {:induction false} LinesRoundTrip(metadata: seq<HeaderMetadata>)
    requires AllPlain(metadata)
    ensures MetadataOfLines(Lines(metadata)) == metadata
  {
    if metadata != [] {
      AllPlainTail(metadata);
      LineRoundTrip(metadata[0]);
      assert Lines(metadata)[1..] == Lines(metadata[1..]);
      LinesRoundTrip(metadata[1..]);
    }
  }

  /** Printing plain entries, then the blank line that ends the header, and
      parsing again gives the same entries and leaves the blank line. */
  lemma HeaderMetadataRoundTrip(metadata: seq<HeaderMetadata>, rest: string)
    requires AllPlain(metadata)
    ensures ParseHeaderMetadata(HeaderMetadataText(metadata) + ("\n\n" + rest)) == (metadata, "\n\n" + rest)
  {
    PrintedBlock(metadata, rest);
    PrintedLines(metadata);
    LinesRoundTrip(metadata);
    assert (HeaderMetadataText(metadata) + ("\n\n" + rest))[|HeaderMetadataText(metadata)|..] == "\n\n" + rest;
  }

  /** A line whose value holds a colon splits into three parts; the entry
      is dropped. */
  lemma ColonInValueDropped(key: string, first: string, second: string)
    requires IsPlainMetadata(HeaderMetadata(key, first)) && IsPlainMetadata(HeaderMetadata(key, second))
    ensures MetadataOfLine(MetadataLine(HeaderMetadata(key, first + (":" + second)))) == None
  {
    ColonSplit(key, first, second);
    TrimUntouched(key, IsWhitespace);
    TrimSpaced(first);
    TrimUntouched(second, IsWhitespace);
    NonEmptyTrimmedTriple(key, " " + first, second);
  }

  lemma ColonSplit(key: string, first: string, second: string)
    requires IsPlainMetadata(HeaderMetadata(key, first)) && IsPlainMetadata(HeaderMetadata(key, second))
    ensures Split(MetadataLine(HeaderMetadata(key, first + (":" + second))), IsColon) == [key, " " + first, second]
  {
    JoinTriple(key, " " + first, second, ":");
    AppendAssoc(" " + first, ":", second);
    AppendAssoc(" ", first, ":" + second);
    AppendAssoc(":", " ", first + (":" + second));
    assert ":" + " " == ": ";
    AppendAssoc(key, ":", " " + first + ":" + second);
    SpacedAvoids(first, IsColon);
    SplitJoin([key, " " + first, second], ':', IsColon);
  }
}
