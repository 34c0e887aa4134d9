/** The entity codec of Sources/Utils/EntityEncoder.swift (`EntityCoder`).

    Decoding scans left to right for `&…;` spans and resolves decimal, hex and
    named references (named ones through a table); encoding escapes the six
    characters of the required table, `&` first. Both are loops in the source;
    here `Decode` and `Encode` are methods proved against the reference
    functions `DecodeText` and `EscapeText`. */
module Entities {
  import opened Wrappers
  import opened Lexical

  /** Entity token (with `&` and `;`) to the text it stands for. */
  type Table = map<string, string>

  const NoBreakSpace: char := '\U{00A0}'
  const LeftToRightMark: char := '\U{200E}'
  const RightToLeftMark: char := '\U{200F}'

  /** `requiredDecodeMapping`. */
  const RequiredDecodeMapping: seq<(string, string)> := [
    ("&amp;", "&"),
    ("&nbsp;", [NoBreakSpace]),
    ("&lrm;", [LeftToRightMark]),
    ("&rlm;", [RightToLeftMark]),
    ("&lt;", "<"),
    ("&gt;", ">")
  ]

  /** `requiredEncodeMapping`: each unescaped side is a single character. */
  const RequiredEncodeMapping: seq<(char, string)> := [
    ('&', "&amp;"),
    (NoBreakSpace, "&nbsp;"),
    (LeftToRightMark, "&lrm;"),
    (RightToLeftMark, "&rlm;"),
    ('<', "&lt;"),
    ('>', "&gt;")
  ]

  /** The table maps each of the six required tokens to its character. */
  predicate HasRequiredEntries(table: Table) {
    forall i :: 0 <= i < |RequiredDecodeMapping| ==>
      RequiredDecodeMapping[i].0 in table && table[RequiredDecodeMapping[i].0] == RequiredDecodeMapping[i].1
  }

  /** The table built from the six required entries alone, used when no
      entity list is loaded. */
  const FallbackTable: Table := map[
    "&amp;" := "&",
    "&nbsp;" := [NoBreakSpace],
    "&lrm;" := [LeftToRightMark],
    "&rlm;" := [RightToLeftMark],
    "&lt;" := "<",
    "&gt;" := ">"
  ]

  /** `fullDecodeMapping`: the bundled table when it loads, otherwise a table
      of exactly the six required entries. Loading is left to the caller. */
  function DecodeTable(loaded: Option<Table>): (table: Table)
    ensures loaded.Some? ==> table == loaded.value
    ensures loaded.None? ==> HasRequiredEntries(table) && |table| == |RequiredDecodeMapping|
  {
    match loaded
    case Some(m) => m
    case None => FallbackTable
  }

  // ---------------------------------------------------------------------------
  // Numeric references

  /** The value of an ASCII digit or letter as Swift's integer parsing reads
      it (`0`-`9`, then `a`-`z` or `A`-`Z` from 10 on), if below `radix`. */
  function RadixDigit(c: char, radix: nat): Option<nat> {
    var d: int :=
      if '0' <= c <= '9' then c as int - '0' as int
      else if 'a' <= c <= 'z' then c as int - 'a' as int + 10
      else if 'A' <= c <= 'Z' then c as int - 'A' as int + 10
      else -1;
    if 0 <= d < radix then Some(d) else None
  }

  /** The value of `s` read as digits of `radix`, or `None` when some
      character of it is not such a digit. */
  function RadixValue(s: string, radix: nat): Option<nat>
    decreases |s|
  {
    if s == [] then Some(0)
    else
      match RadixValue(s[..|s| - 1], radix)
      case None => None
      case Some(high) =>
        match RadixDigit(s[|s| - 1], radix)
        case None => None
        case Some(d) => Some(high * radix + d)
  }

  const MaxUInt32: nat := 0xFFFF_FFFF

  /** `UInt32(text, radix:)`: an optional `+` or `-`, then one or more digits
      of the radix and nothing else; the value must fit 32 bits unsigned, so
      after `-` only zero is accepted. */
  function ParseUInt32(text: string, radix: nat): (r: Option<nat>)
    ensures r.Some? ==> r.value <= MaxUInt32
  {
    var negative := |text| > 0 && text[0] == '-';
    var digits := if |text| > 0 && (text[0] == '-' || text[0] == '+') then text[1..] else text;
    if digits == [] then None
    else
      match RadixValue(digits, radix)
      case None => None
      case Some(v) => if v > MaxUInt32 || (negative && v != 0) then None else Some(v)
  }

  /** `UnicodeScalar(code)` succeeds exactly for Unicode scalar values. */
  predicate IsScalarValue(code: nat) {
    code < 0xD800 || 0xE000 <= code < 0x11_0000
  }

  /** `decodeNumeric`. */
  function DecodeNumeric(text: string, radix: nat): (r: Option<string>)
    ensures r.Some? <==> ParseUInt32(text, radix).Some? && IsScalarValue(ParseUInt32(text, radix).value)
    ensures r.Some? ==> |r.value| == 1 && r.value[0] as int == ParseUInt32(text, radix).value
  {
    match ParseUInt32(text, radix)
    case None => None
    case Some(code) => if IsScalarValue(code) then Some([code as char]) else None
  }

  /** `s.dropFirst(n).dropLast()`. */
  function Inner(s: string, n: nat): (r: string)
    ensures |s| > n ==> r == s[n..|s| - 1]
    ensures |s| <= n ==> r == []
  {
    if |s| <= n then [] else s[n..|s| - 1]
  }

  /** Unsigned digits of any radix that read as `v` decode to the character
      with code `v` exactly when `v` is a Unicode scalar value. */
  lemma NumericDecodes(s: string, radix: nat, v: nat)
    requires s != [] && s[0] != '-' && s[0] != '+' && RadixValue(s, radix) == Some(v)
    ensures DecodeNumeric(s, radix) == (if IsScalarValue(v) then Some([v as char]) else None)
  {
  }

  /** Decimal digits read in radix 10 give their decimal value. */
  lemma {:induction false} DecimalRadixValue(s: string)
    requires AllDigits(s)
    ensures RadixValue(s, 10) == Some(Value(s))
  {
    if s != [] {
      var init := s[..|s| - 1];
      forall i | 0 <= i < |init|
        ensures IsDigit(init[i])
      {
        assert init[i] == s[i];
      }
      DecimalRadixValue(init);
    }
  }

  /** The decimal text of any number decodes to the character with that
      code exactly when it is a Unicode scalar value. */
  lemma DecimalNumericDecodes(n: nat)
    ensures DecodeNumeric(NatText(n), 10) == (if IsScalarValue(n) then Some([n as char]) else None)
  {
    DecimalRadixValue(NatText(n));
    NumericDecodes(NatText(n), 10, n);
  }

  /** The inner `decode(_ entity:)`: a span starting `&#x` or `&#X` is read
      as hex, one starting `&#` as decimal, anything else is looked up whole
      in the table. */
  function DecodeEntity(table: Table, entity: string): Option<string> {
    if |entity| >= 3 && entity[0] == '&' && entity[1] == '#' && (entity[2] == 'x' || entity[2] == 'X') then
      DecodeNumeric(Inner(entity, 3), 16)
    else if |entity| >= 2 && entity[0] == '&' && entity[1] == '#' then
      DecodeNumeric(Inner(entity, 2), 10)
    else if entity in table then Some(table[entity])
    else None
  }

  /** `&#` followed by the decimal text of a number and `;` decodes to the
      character with that code exactly when it is a Unicode scalar value. */
  lemma DecimalEntityDecodes(table: Table, n: nat)
    ensures DecodeEntity(table, "&#" + NatText(n) + ";") == (if IsScalarValue(n) then Some([n as char]) else None)
  {
    DecimalEntityPieces(NatText(n));
    DecimalNumericDecodes(n);
  }

  lemma DecimalEntityPieces(ds: string)
    requires ds != [] && AllDigits(ds)
    ensures var e := "&#" + ds + ";";
      |e| >= 3 && e[0] == '&' && e[1] == '#' && e[2] != 'x' && e[2] != 'X' && Inner(e, 2) == ds
  {
    var e := "&#" + ds + ";";
    assert e[2] == ds[0];
    assert e[2..|e| - 1] == ds;
  }

  /** The decoding of an entity span, or the span itself when it has none. */
  function Resolve(table: Table, entity: string): string {
    DecodeEntity(table, entity).GetOr(entity)
  }

  // ---------------------------------------------------------------------------
  // Decoding

  /** What `decode` computes from position `p` of `content` on, one position
      at a time: a character other than `&` is copied; an `&` with no later
      `;` starts a verbatim copy of the rest; otherwise the span up to the
      first `;` is replaced by its decoding, or copied when it has none, and
      decoding resumes after it. */
  function DecodeFrom(table: Table, content: string, p: nat): string
    requires p <= |content|
    decreases |content| - p
  {
    if p == |content| then []
    else if content[p] != '&' then [content[p]] + DecodeFrom(table, content, p + 1)
    else
      match IndexFrom(content, p, ';')
      case None => content[p..]
      case Some(e) => Resolve(table, content[p..e + 1]) + DecodeFrom(table, content, e + 1)
  }

  /** The meaning of `decode`. */
  function DecodeText(table: Table, s: string): string {
    DecodeFrom(table, s, 0)
  }

  /** The state of the loop of `decode` after it has produced `acc` and
      stands at position `p`, run to the end: it copies up to the next `&`,
      stops when there is none or no `;` after it, and otherwise appends the
      resolved span and goes on after the `;`. */
  function DecodeLoop(table: Table, content: string, acc: string, p: nat): string
    requires p <= |content|
    decreases |content| - p
  {
    match IndexFrom(content, p, '&')
    case None => acc + content[p..]
    case Some(a) =>
      match IndexFrom(content, a, ';')
      case None => (acc + content[p..a]) + content[a..]
      case Some(e) => DecodeLoop(table, content, (acc + content[p..a]) + Resolve(table, content[a..e + 1]), e + 1)
  }

  /** `EntityCoder.decode`. */
  method Decode(table: Table, content: string) returns (result: string)
    ensures result == DecodeText(table, content)
  {
    result := "";
    var position := 0;
    var more := true;
    while more
      invariant position <= |content|
      invariant more ==> DecodeLoop(table, content, result, position) == DecodeLoop(table, content, "", 0)
      invariant !more ==> result == DecodeLoop(table, content, "", 0)
      decreases more, |content| - position
    {
      result, position, more := DecodeRound(table, content, result, position);
    }
    DecodeLoopDecodes(table, content, "", 0);
    assert "" + DecodeFrom(table, content, 0) == DecodeText(table, content);
  }

  /** One round of the loop of `decode` from `position`, with `result`
      produced so far; `more` is false once the loop has stopped and the
      rest has been appended. */
  method DecodeRound(table: Table, content: string, result: string, position: nat)
    returns (result': string, position': nat, more: bool)
    requires position <= |content|
    ensures position' <= |content|
    ensures more ==> position < position'
    ensures more ==> DecodeLoop(table, content, result', position') == DecodeLoop(table, content, result, position)
    ensures !more ==> result' == DecodeLoop(table, content, result, position)
  {
    match IndexFrom(content, position, '&')
    case None =>
      DecodeLoopNoAmp(table, content, result, position);
      return result + content[position..], position, false;
    case Some(amp) =>
      match IndexFrom(content, amp, ';')
      case None =>
        DecodeLoopOpen(table, content, result, position, amp);
        return (result + content[position..amp]) + content[amp..], amp, false;
      case Some(semi) =>
        var entity := content[amp..semi + 1];
        var piece := Resolve(table, entity);
        DecodeLoopSpan(table, content, result, position, amp, semi, piece);
        return (result + content[position..amp]) + piece, semi + 1, true;
  }

  /** The loop stops when no `&` is left. */
  lemma DecodeLoopNoAmp(table: Table, content: string, acc: string, p: nat)
    requires p <= |content| && IndexFrom(content, p, '&').None?
    ensures DecodeLoop(table, content, acc, p) == acc + content[p..]
  {
  }

  /** The loop stops at an `&` with no `;` after it. */
  lemma DecodeLoopOpen(table: Table, content: string, acc: string, p: nat, a: nat)
    requires p <= |content| && IndexFrom(content, p, '&') == Some(a) && IndexFrom(content, a, ';').None?
    ensures DecodeLoop(table, content, acc, p) == (acc + content[p..a]) + content[a..]
  {
  }

  /** One round of the loop of `decode` that resolves a span. */
  lemma DecodeLoopSpan(table: Table, content: string, acc: string, p: nat, a: nat, e: nat, piece: string)
    requires p <= |content|
    requires IndexFrom(content, p, '&') == Some(a) && IndexFrom(content, a, ';') == Some(e)
    requires p <= a <= e < |content|
    requires piece == Resolve(table, content[a..e + 1])
    ensures DecodeLoop(table, content, acc, p) == DecodeLoop(table, content, (acc + content[p..a]) + piece, e + 1)
  {
  }

  /** A run without `&` from `p` up to `q` is copied. */
  lemma {:induction false} DecodeRun(table: Table, content: string, p: nat, q: nat)
    requires p <= q <= |content|
    requires forall i :: p <= i < q ==> content[i] != '&'
    ensures DecodeFrom(table, content, p) == content[p..q] + DecodeFrom(table, content, q)
    decreases q - p
  {
    if p < q {
      DecodeRun(table, content, p + 1, q);
      AppendAssoc([content[p]], content[p + 1..q], DecodeFrom(table, content, q));
      assert [content[p]] + content[p + 1..q] == content[p..q];
    }
  }

  /** Up to the next `&`, decoding copies. */
  lemma DecodeRunTo(table: Table, content: string, p: nat, a: nat)
    requires p <= |content| && IndexFrom(content, p, '&') == Some(a)
    ensures DecodeFrom(table, content, p) == content[p..a] + DecodeFrom(table, content, a)
  {
    IndexFromFirst(content, p, '&');
    DecodeRun(table, content, p, a);
  }

  /** Without a further `&`, decoding copies the rest. */
  lemma DecodeRunToEnd(table: Table, content: string, p: nat)
    requires p <= |content| && IndexFrom(content, p, '&').None?
    ensures DecodeFrom(table, content, p) == content[p..]
  {
    IndexFromFirst(content, p, '&');
    DecodeRun(table, content, p, |content|);
    assert content[p..|content|] == content[p..];
  }

  /** The loop and the reference agree when no `&` is left. */
  lemma DecodesNoAmp(table: Table, content: string, acc: string, p: nat)
    requires p <= |content| && IndexFrom(content, p, '&').None?
    ensures DecodeLoop(table, content, acc, p) == acc + DecodeFrom(table, content, p)
  {
    DecodeRunToEnd(table, content, p);
    DecodeLoopNoAmp(table, content, acc, p);
  }

  /** The loop and the reference agree at an `&` with no `;` after it. */
  lemma DecodesOpen(table: Table, content: string, acc: string, p: nat, a: nat)
    requires p <= |content| && IndexFrom(content, p, '&') == Some(a) && IndexFrom(content, a, ';').None?
    ensures DecodeLoop(table, content, acc, p) == acc + DecodeFrom(table, content, p)
  {
    DecodeRunTo(table, content, p, a);
    DecodeFromOpen(table, content, a);
    DecodeLoopOpen(table, content, acc, p, a);
    AppendAssoc(acc, content[p..a], content[a..]);
  }

  /** The loop and the reference agree across a span when they agree after it. */
  lemma DecodesSpan(table: Table, content: string, acc: string, p: nat, a: nat, e: nat)
    requires p <= |content| && IndexFrom(content, p, '&') == Some(a) && IndexFrom(content, a, ';') == Some(e)
    requires e + 1 <= |content|
    requires
      var acc' := (acc + content[p..a]) + Resolve(table, content[a..e + 1]);
      DecodeLoop(table, content, acc', e + 1) == acc' + DecodeFrom(table, content, e + 1)
    ensures DecodeLoop(table, content, acc, p) == acc + DecodeFrom(table, content, p)
  {
    var r := Resolve(table, content[a..e + 1]);
    var rest := DecodeFrom(table, content, e + 1);
    DecodeRunTo(table, content, p, a);
    DecodeFromSpan(table, content, a, e);
    DecodeLoopSpan(table, content, acc, p, a, e, r);
    AppendAssoc(acc + content[p..a], r, rest);
    AppendAssoc(acc, content[p..a], r + rest);
  }

  /** The loop computes the reference decoding: from any state, it appends
      the decoding of the rest to what it has produced. */
  lemma {:induction false} DecodeLoopDecodes(table: Table, content: string, acc: string, p: nat)
    requires p <= |content|
    ensures DecodeLoop(table, content, acc, p) == acc + DecodeFrom(table, content, p)
    decreases |content| - p
  {
    match IndexFrom(content, p, '&')
    case None =>
      DecodesNoAmp(table, content, acc, p);
    case Some(a) =>
      match IndexFrom(content, a, ';')
      case None =>
        DecodesOpen(table, content, acc, p, a);
      case Some(e) =>
        DecodeLoopDecodes(table, content, (acc + content[p..a]) + Resolve(table, content[a..e + 1]), e + 1);
        DecodesSpan(table, content, acc, p, a, e);
  }

  // ---------------------------------------------------------------------------
  // Encoding

  /** `replacingOccurrences(of:with:)` for a one-character pattern. */
  function ReplaceAll(s: string, c: char, replacement: string): (r: string)
    ensures c !in s ==> r == s
  {
    if s == [] then []
    else (if s[0] == c then replacement else [s[0]]) + ReplaceAll(s[1..], c, replacement)
  }

  /** The first `|mapping|` replacement passes of `encode`, in order. */
  function ApplyReplacements(s: string, mapping: seq<(char, string)>): string {
    if mapping == [] then s
    else
      var last := mapping[|mapping| - 1];
      ReplaceAll(ApplyReplacements(s, mapping[..|mapping| - 1]), last.0, last.1)
  }

  /** The reference meaning of `encode`: each of the six characters becomes its
      token, every other character stays. */
  function EscapeChar(c: char): string {
    if c == '&' then "&amp;"
    else if c == NoBreakSpace then "&nbsp;"
    else if c == LeftToRightMark then "&lrm;"
    else if c == RightToLeftMark then "&rlm;"
    else if c == '<' then "&lt;"
    else if c == '>' then "&gt;"
    else [c]
  }

  function EscapeText(s: string): string {
    if s == [] then [] else EscapeChar(s[0]) + EscapeText(s[1..])
  }

  /** `EntityCoder.encode`: one replacement pass per entry of the mapping. */
  method Encode(content: string) returns (result: string)
    ensures result == EscapeText(content)
  {
    result := content;
    for i := 0 to |RequiredEncodeMapping|
      invariant result == ApplyReplacements(content, RequiredEncodeMapping[..i])
    {
      assert RequiredEncodeMapping[..i + 1][..i] == RequiredEncodeMapping[..i];
      var (unescaped, escaped) := RequiredEncodeMapping[i];
      result := ReplaceAll(result, unescaped, escaped);
    }
    assert RequiredEncodeMapping[..|RequiredEncodeMapping|] == RequiredEncodeMapping;
    SequentialPassesEscape(content);
  }

  lemma {:induction false} ReplaceAllAppend(a: string, b: string, c: char, replacement: string)
    ensures ReplaceAll(a + b, c, replacement) == ReplaceAll(a, c, replacement) + ReplaceAll(b, c, replacement)
  {
    if a == [] {
      assert a + b == b;
    } else {
      assert (a + b)[0] == a[0] && (a + b)[1..] == a[1..] + b;
      ReplaceAllAppend(a[1..], b, c, replacement);
    }
  }

  lemma {:induction false} ApplyReplacementsAppend(a: string, b: string, mapping: seq<(char, string)>)
    ensures ApplyReplacements(a + b, mapping) == ApplyReplacements(a, mapping) + ApplyReplacements(b, mapping)
  {
    if mapping != [] {
      var init, last := mapping[..|mapping| - 1], mapping[|mapping| - 1];
      ApplyReplacementsAppend(a, b, init);
      ReplaceAllAppend(ApplyReplacements(a, init), ApplyReplacements(b, init), last.0, last.1);
    }
  }

  /** The six passes of `encode` written out in order. */
  function Passes(s: string): string {
    ReplaceAll(ReplaceAll(ReplaceAll(ReplaceAll(ReplaceAll(ReplaceAll(s,
      '&', "&amp;"), NoBreakSpace, "&nbsp;"), LeftToRightMark, "&lrm;"),
      RightToLeftMark, "&rlm;"), '<', "&lt;"), '>', "&gt;")
  }

  lemma ApplyReplacementsStep(s: string, mapping: seq<(char, string)>, i: nat)
    requires i < |mapping|
    ensures ApplyReplacements(s, mapping[..i + 1]) == ReplaceAll(ApplyReplacements(s, mapping[..i]), mapping[i].0, mapping[i].1)
  {
    assert mapping[..i + 1][..i] == mapping[..i];
  }

  lemma PassesUnrolled(s: string)
    ensures ApplyReplacements(s, RequiredEncodeMapping) == Passes(s)
  {
    var m := RequiredEncodeMapping;
    assert m[..0] == [];
    ApplyReplacementsStep(s, m, 0);
    ApplyReplacementsStep(s, m, 1);
    ApplyReplacementsStep(s, m, 2);
    ApplyReplacementsStep(s, m, 3);
    ApplyReplacementsStep(s, m, 4);
    ApplyReplacementsStep(s, m, 5);
    assert m[..6] == m;
  }

  lemma ReplaceAllOne(c: char, x: char, replacement: string)
    ensures ReplaceAll([c], x, replacement) == if c == x then replacement else [c]
  {
    assert [c][1..] == [];
  }

  /** Letters, `&` and `;`: the characters of the tokens. */
  predicate IsTokenChar(ch: char) {
    ch == '&' || ch == ';' || 'a' <= ch <= 'z'
  }

  /** A token survives the passes of the characters it does not contain. */
  lemma PassesKeepToken(t: string, from: nat)
    requires forall i :: 0 <= i < |t| ==> IsTokenChar(t[i])
    ensures NoBreakSpace !in t && LeftToRightMark !in t && RightToLeftMark !in t
    ensures '<' !in t && '>' !in t
  {
  }

  lemma ReplacementsOfOneChar(c: char)
    ensures Passes([c]) == EscapeChar(c)
  {
    PassesKeepToken("&amp;", 1);
    PassesKeepToken("&nbsp;", 2);
    PassesKeepToken("&lrm;", 3);
    PassesKeepToken("&rlm;", 4);
    PassesKeepToken("&lt;", 5);
    ReplaceAllOne(c, '&', "&amp;");
    var s1 := ReplaceAll([c], '&', "&amp;");
    if c == '&' {
      assert s1 == "&amp;";
    } else {
      assert s1 == [c];
      ReplaceAllOne(c, NoBreakSpace, "&nbsp;");
      if c == NoBreakSpace {
        assert ReplaceAll(s1, NoBreakSpace, "&nbsp;") == "&nbsp;";
      } else {
        ReplaceAllOne(c, LeftToRightMark, "&lrm;");
        if c == LeftToRightMark {
          assert ReplaceAll(s1, LeftToRightMark, "&lrm;") == "&lrm;";
        } else {
          ReplaceAllOne(c, RightToLeftMark, "&rlm;");
          if c == RightToLeftMark {
            assert ReplaceAll(s1, RightToLeftMark, "&rlm;") == "&rlm;";
          } else {
            ReplaceAllOne(c, '<', "&lt;");
            ReplaceAllOne(c, '>', "&gt;");
          }
        }
      }
    }
  }

  /** The six passes in their order amount to escaping each character once:
      `&` goes first, so the `&` of the tokens added later is not escaped
      again, and no token contains a character of a later pass. */
  lemma {:induction false} SequentialPassesEscape(s: string)
    ensures ApplyReplacements(s, RequiredEncodeMapping) == EscapeText(s)
  {
    if s == [] {
      ApplyReplacementsOfEmpty(RequiredEncodeMapping);
    } else {
      assert s == [s[0]] + s[1..];
      ApplyReplacementsAppend([s[0]], s[1..], RequiredEncodeMapping);
      PassesUnrolled([s[0]]);
      ReplacementsOfOneChar(s[0]);
      SequentialPassesEscape(s[1..]);
    }
  }

  lemma {:induction false} ApplyReplacementsOfEmpty(mapping: seq<(char, string)>)
    ensures ApplyReplacements([], mapping) == []
  {
    if mapping != [] {
      ApplyReplacementsOfEmpty(mapping[..|mapping| - 1]);
    }
  }

  // ---------------------------------------------------------------------------
  // Properties

  /** One of the characters that `encode` escapes. */
  predicate IsEscaped(c: char) {
    c == '&' || c == NoBreakSpace || c == LeftToRightMark || c == RightToLeftMark || c == '<' || c == '>'
  }

  /** The output of `encode` contains none of `<`, `>`, U+00A0, U+200E and
      U+200F; of the six escaped characters only `&` remains. */
  lemma {:induction false} EscapeTextIsSafe(s: string)
    ensures forall i :: 0 <= i < |EscapeText(s)| ==> !IsEscaped(EscapeText(s)[i]) || EscapeText(s)[i] == '&'
    ensures '<' !in EscapeText(s) && '>' !in EscapeText(s)
  {
    if s != [] {
      EscapeTextIsSafe(s[1..]);
    }
  }

  /** A string with none of the six characters is left unchanged. */
  lemma {:induction false} EscapeTextIdentity(s: string)
    requires forall i :: 0 <= i < |s| ==> !IsEscaped(s[i])
    ensures EscapeText(s) == s
  {
    if s != [] {
      EscapeTextIdentity(s[1..]);
      assert s == [s[0]] + s[1..];
    }
  }

  lemma {:induction false} EscapeTextAppend(a: string, b: string)
    ensures EscapeText(a + b) == EscapeText(a) + EscapeText(b)
  {
    if a == [] {
      assert a + b == b;
    } else {
      assert (a + b)[0] == a[0] && (a + b)[1..] == a[1..] + b;
      EscapeTextAppend(a[1..], b);
    }
  }

  /** A character class that no token character belongs to holds for no
      character of the escaped text unless it held for an unescaped
      character of the input. */
  lemma {:induction false} EscapeTextAvoids(s: string, p: char -> bool)
    requires forall i :: 0 <= i < |s| ==> IsEscaped(s[i]) || !p(s[i])
    requires forall c :: IsTokenChar(c) ==> !p(c)
    ensures forall i :: 0 <= i < |EscapeText(s)| ==> !p(EscapeText(s)[i])
  {
    if s != [] {
      EscapeTextAvoids(s[1..], p);
      var e := EscapeChar(s[0]);
      assert forall i :: 0 <= i < |e| ==> IsTokenChar(e[i]) || e[i] == s[0];
      assert EscapeText(s) == e + EscapeText(s[1..]);
    }
  }

  /** The escaped text starts with the first character itself or with `&`. */
  lemma EscapeTextStart(s: string)
    requires s != []
    ensures EscapeText(s) != []
    ensures EscapeText(s)[0] == (if IsEscaped(s[0]) then '&' else s[0])
  {
  }

  lemma EscapeTextNonEmpty(s: string)
    ensures |EscapeText(s)| >= |s|
    ensures s != [] ==> EscapeText(s) != []
  {
  }

  /** One step of decoding at a position holding a character other than `&`. */
  lemma DecodeFromPlain(table: Table, t: string, p: nat)
    requires p < |t| && t[p] != '&'
    ensures DecodeFrom(table, t, p) == [t[p]] + DecodeFrom(table, t, p + 1)
  {
  }

  /** One step of decoding at an `&` with no `;` after it. */
  lemma DecodeFromOpen(table: Table, t: string, p: nat)
    requires p < |t| && t[p] == '&' && IndexFrom(t, p, ';').None?
    ensures DecodeFrom(table, t, p) == t[p..]
  {
  }

  /** One step of decoding at an `&` whose first `;` after it is at `e`. */
  lemma DecodeFromSpan(table: Table, t: string, p: nat, e: nat)
    requires p < |t| && t[p] == '&' && IndexFrom(t, p, ';') == Some(e)
    ensures DecodeFrom(table, t, p) == Resolve(table, t[p..e + 1]) + DecodeFrom(table, t, e + 1)
  {
  }

  lemma ShiftEnd(table: Table, t: string, y: string, off: nat)
    requires EndsWithAt(t, y, off)
    ensures DecodeFrom(table, t, off + |y|) == DecodeFrom(table, y, |y|)
  {
  }

  lemma ShiftPlain(table: Table, t: string, y: string, off: nat, i: nat)
    requires EndsWithAt(t, y, off) && i < |y| && y[i] != '&'
    requires DecodeFrom(table, t, off + i + 1) == DecodeFrom(table, y, i + 1)
    ensures DecodeFrom(table, t, off + i) == DecodeFrom(table, y, i)
  {
    EndsWithAtIndex(t, y, off, i);
    DecodeFromPlain(table, t, off + i);
    DecodeFromPlain(table, y, i);
  }

  lemma ShiftOpen(table: Table, t: string, y: string, off: nat, i: nat)
    requires EndsWithAt(t, y, off) && i < |y| && y[i] == '&' && IndexFrom(y, i, ';').None?
    ensures DecodeFrom(table, t, off + i) == DecodeFrom(table, y, i)
  {
    EndsWithAtIndex(t, y, off, i);
    IndexFromShift(t, y, off, i, ';');
    DecodeFromOpen(table, t, off + i);
    DecodeFromOpen(table, y, i);
    EndsWithAtSlice(t, y, off, i, |y|);
  }

  lemma ShiftSpan(table: Table, t: string, y: string, off: nat, i: nat, e: nat)
    requires EndsWithAt(t, y, off) && i < |y| && y[i] == '&' && IndexFrom(y, i, ';') == Some(e)
    requires DecodeFrom(table, t, off + e + 1) == DecodeFrom(table, y, e + 1)
    ensures DecodeFrom(table, t, off + i) == DecodeFrom(table, y, i)
  {
    EndsWithAtIndex(t, y, off, i);
    IndexFromShift(t, y, off, i, ';');
    EndsWithAtSlice(t, y, off, i, e + 1);
    var entity := y[i..e + 1];
    assert t[off + i..off + e + 1] == entity;
    DecodeFromSpan(table, t, off + i, off + e);
    assert DecodeFrom(table, t, off + i) == Resolve(table, entity) + DecodeFrom(table, y, e + 1);
    DecodeFromSpan(table, y, i, e);
  }

  /** Decoding `t` from `off + i`, where `y` is the part of `t` from `off`
      on, is decoding `y` from `i`. */
  lemma {:induction false} DecodeFromShift(table: Table, t: string, y: string, off: nat, i: nat)
    requires EndsWithAt(t, y, off) && i <= |y|
    ensures DecodeFrom(table, t, off + i) == DecodeFrom(table, y, i)
    decreases |y| - i
  {
    if i == |y| {
      ShiftEnd(table, t, y, off);
    } else if y[i] != '&' {
      DecodeFromShift(table, t, y, off, i + 1);
      ShiftPlain(table, t, y, off, i);
    } else {
      match IndexFrom(y, i, ';')
      case None =>
        ShiftOpen(table, t, y, off, i);
      case Some(e) =>
        DecodeFromShift(table, t, y, off, e + 1);
        ShiftSpan(table, t, y, off, i, e);
    }
  }

  lemma DecodeAfterPrefix(table: Table, x: string, y: string)
    ensures DecodeFrom(table, x + y, |x|) == DecodeText(table, y)
  {
    var t := x + y;
    EndsWithAtConcat(x, y);
    DecodeFromShift(table, t, y, |x|, 0);
    assert DecodeFrom(table, t, |x|) == DecodeFrom(table, y, 0);
  }

  /** Decoding a text that contains no `&` returns it unchanged. */
  lemma DecodeWithoutAmpersand(table: Table, s: string)
    requires '&' !in s
    ensures DecodeText(table, s) == s
  {
    DecodeRun(table, s, 0, |s|);
    assert s[0..|s|] == s;
  }

  /** From an `&` with no later `;`, everything is copied verbatim. */
  lemma DecodeUnterminated(table: Table, s: string)
    requires |s| > 0 && s[0] == '&' && ';' !in s
    ensures DecodeText(table, s) == s
  {
    forall i | 0 <= i < |s| ensures s[i] != ';' {
      assert s[i] in s;
    }
    IndexFromAbsent(s, 0, ';');
    DecodeFromOpen(table, s, 0);
    assert s[0..] == s;
  }

  /** Every `&…;` span (up to its first `;`) that has no decoding is copied
      unchanged, so the text around it decodes independently. */
  lemma DecodeUnknownSpan(table: Table, name: string, after: string)
    requires ';' !in name
    requires DecodeEntity(table, "&" + name + ";") == None
    ensures DecodeText(table, "&" + name + ";" + after) == "&" + name + ";" + DecodeText(table, after)
  {
    var span := "&" + name + ";";
    var t := span + after;
    var n := |name| + 1;
    forall j | 0 <= j < n ensures t[j] != ';' {
      assert t[j] == ("&" + name)[j];
    }
    IndexFromAt(t, 0, ';', n);
    assert t[0..n + 1] == span;
    DecodeAfterPrefix(table, span, after);
  }

  /** One of the six tokens decodes to its character under a table that
      has the required entries. */
  lemma DecodeToken(table: Table, c: char, s: string)
    requires HasRequiredEntries(table)
    requires IsEscaped(c)
    ensures DecodeText(table, EscapeChar(c) + s) == [c] + DecodeText(table, s)
  {
    var token := EscapeChar(c);
    var i :=
      if c == '&' then 0 else if c == NoBreakSpace then 1
      else if c == LeftToRightMark then 2 else if c == RightToLeftMark then 3
      else if c == '<' then 4 else 5;
    assert RequiredDecodeMapping[i] == (token, [c]);
    var t := token + s;
    forall j | 0 <= j < |token| - 1 ensures t[j] != ';' {
      assert t[j] == token[j];
    }
    IndexFromAt(t, 0, ';', |token| - 1);
    assert t[0..|token|] == token;
    DecodeAfterPrefix(table, token, s);
  }

  /** A character other than `&` decodes to itself. */
  lemma DecodeLiteralChar(table: Table, c: char, s: string)
    requires c != '&'
    ensures DecodeText(table, [c] + s) == [c] + DecodeText(table, s)
  {
    DecodeAfterPrefix(table, [c], s);
  }

  /** Decoding undoes encoding for any table that has the six required
      entries (the full table does, and so does the fallback). */
  lemma {:induction false} DecodeEscapeText(table: Table, s: string)
    requires HasRequiredEntries(table)
    ensures DecodeText(table, EscapeText(s)) == s
  {
    if s != [] {
      DecodeEscapeText(table, s[1..]);
      assert s == [s[0]] + s[1..];
      if IsEscaped(s[0]) {
        DecodeToken(table, s[0], EscapeText(s[1..]));
      } else {
        DecodeLiteralChar(table, s[0], EscapeText(s[1..]));
      }
    }
  }

  /** A decimal reference names its code point. */
  lemma DecimalReference(table: Table)
    ensures DecodeEntity(table, "&#169;") == Some("\U{00A9}")
  {
    assert "&#169;"[2..5] == "169";
    assert "169"[..2] == "16" && "16"[..1] == "1" && "1"[..0] == [];
  }

  /** After `&#x` or `&#X`, hex digits of either case are read. */
  lemma HexReference(table: Table)
    ensures DecodeEntity(table, "&#X3e9;") == Some("\U{03E9}")
  {
    assert "&#X3e9;"[3..6] == "3e9";
    assert "3e9"[..2] == "3e" && "3e"[..1] == "3" && "3"[..0] == [];
  }

  /** A surrogate code is no scalar value, so the span is kept. */
  lemma SurrogateReferenceKept(table: Table)
    ensures DecodeEntity(table, "&#xD800;") == None
  {
    assert "&#xD800;"[3..7] == "D800";
    assert "D800"[..3] == "D80" && "D80"[..2] == "D8" && "D8"[..1] == "D" && "D"[..0] == [];
  }

  /** A reference with no digits, or a negative one, is kept. */
  lemma MalformedReferencesKept(table: Table)
    ensures DecodeEntity(table, "&#;") == None
    ensures DecodeEntity(table, "&#-1;") == None
  {
    assert "&#;"[2..2] == [];
    assert "&#-1;"[2..4] == "-1";
    assert "-1"[1..] == "1" && "1"[..0] == [];
  }
}
