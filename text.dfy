/** `TextParser` of Sources/WebVTTParser.swift: it reads the input up to a
    terminator (a character set, and how many of its characters in a row end
    the text), decodes character references in what it read, and leaves the
    terminator in the input; it prints by encoding. `prefix(upTo:count:)`
    belongs to the repository's string helpers, which are not part of this
    model; it is taken here to stop at the first position where `count`
    terminator characters follow in a row, or to take the whole input when
    there is none. */
module Text {
  import opened Wrappers
  import opened Lexical
  import opened Entities

  /** `count` terminator characters in a row start at `i`. */
  predicate RunAt(s: string, i: nat, isTerminator: char -> bool, count: nat) {
    i + count <= |s| && forall k :: i <= k < i + count ==> isTerminator(s[k])
  }

  /** Where the prefix stops, searching from `from`. */
  function PrefixEnd(s: string, isTerminator: char -> bool, count: nat, from: nat): (e: nat)
    requires from <= |s|
    ensures from <= e <= |s|
    ensures e == |s| || RunAt(s, e, isTerminator, count)
    ensures forall i :: from <= i < e ==> !RunAt(s, i, isTerminator, count)
    decreases |s| - from
  {
    if from == |s| || RunAt(s, from, isTerminator, count) then from
    else PrefixEnd(s, isTerminator, count, from + 1)
  }

  /** `prefix(upTo:count:)`: the input before the first run of `count`
      terminator characters; no run in the input gives all of it. */
  function PrefixUpTo(s: string, isTerminator: char -> bool, count: nat): (p: string)
    ensures |p| <= |s| && p == s[..|p|]
    ensures |p| == |s| || RunAt(s, |p|, isTerminator, count)
    ensures forall i :: 0 <= i < |p| ==> !RunAt(s, i, isTerminator, count)
  {
    s[..PrefixEnd(s, isTerminator, count, 0)]
  }

  /** `TextParser.parse`: the decoded prefix, and the input after it. */
  function ParseText(table: Table, s: string, isTerminator: char -> bool, count: nat): (r: (string, string))
    ensures r.0 == DecodeText(table, PrefixUpTo(s, isTerminator, count))
    ensures r.1 == s[|PrefixUpTo(s, isTerminator, count)|..]
  {
    var prefix := PrefixUpTo(s, isTerminator, count);
    (DecodeText(table, prefix), s[|prefix|..])
  }

  /** `TextParser.parse` on an input it consumes: the prefix is decoded and
      then removed from the front of the input. */
  method ReadText(table: Table, input: string, isTerminator: char -> bool, count: nat)
    returns (text: string, remaining: string)
    ensures (text, remaining) == ParseText(table, input, isTerminator, count)
    ensures input == input[..|input| - |remaining|] + remaining
  {
    var prefix := PrefixUpTo(input, isTerminator, count);
    text := DecodeText(table, prefix);
    remaining := input[|prefix|..];
  }

  /** `TextParser.print`: the encoded text prepended to `input`. */
  method PrintText(text: string, input: string) returns (output: string)
    ensures output == EscapeText(text) + input
  {
    var encoded := Encode(text);
    output := encoded + input;
  }

  /** With a single terminator character, the prefix of a terminator-free
      text followed by a terminator (or by nothing) is that text. */
  lemma PrefixBeforeTerminator(x: string, rest: string, isTerminator: char -> bool)
    requires forall i :: 0 <= i < |x| ==> !isTerminator(x[i])
    requires rest == [] || isTerminator(rest[0])
    ensures PrefixUpTo(x + rest, isTerminator, 1) == x
  {
    var s := x + rest;
    forall i | 0 <= i < |x|
      ensures !RunAt(s, i, isTerminator, 1)
    {
      assert s[i] == x[i];
    }
    if rest != [] {
      assert s[|x|] == rest[0];
      assert RunAt(s, |x|, isTerminator, 1);
    }
    PrefixEndIs(s, isTerminator, 1, 0, |x|);
    assert s[..|x|] == x;
  }

  /** The search stops at the first run. */
  lemma {:induction false} PrefixEndIs(s: string, isTerminator: char -> bool, count: nat, from: nat, e: nat)
    requires from <= e <= |s|
    requires e == |s| || RunAt(s, e, isTerminator, count)
    requires forall i :: from <= i < e ==> !RunAt(s, i, isTerminator, count)
    ensures PrefixEnd(s, isTerminator, count, from) == e
    decreases e - from
  {
    if from < e {
      PrefixEndIs(s, isTerminator, count, from + 1, e);
    }
  }

  /** Encoding a text and reading it back up to a one-character terminator
      gives the text back, when every character of the text that could end it
      is one that encoding replaces, no character of the entity tokens is a
      terminator, and the decoding table has the required entries. */
  lemma TextRoundTrip(table: Table, text: string, rest: string, isTerminator: char -> bool)
    requires HasRequiredEntries(table)
    requires forall i :: 0 <= i < |text| ==> IsEscaped(text[i]) || !isTerminator(text[i])
    requires forall c :: IsTokenChar(c) ==> !isTerminator(c)
    requires rest == [] || isTerminator(rest[0])
    ensures ParseText(table, EscapeText(text) + rest, isTerminator, 1) == (text, rest)
  {
    EscapeTextAvoids(text, isTerminator);
    PrefixBeforeTerminator(EscapeText(text), rest, isTerminator);
    DecodeEscapeText(table, text);
    assert (EscapeText(text) + rest)[|EscapeText(text)|..] == rest;
  }
}
