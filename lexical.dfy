/** Character classes, decimal text and the small string utilities the parsers
    and printers share: the character sets of Foundation and of Swift's
    `Character`, the `Int.parser()` of the parsing library, `String(format:)`
    with `%0Nd`, and `components(separatedBy:)` / edge trimming. */
module Lexical {
  import opened Wrappers

  const MinInt64: int := -0x8000_0000_0000_0000
  const MaxInt64: int := 0x7FFF_FFFF_FFFF_FFFF

  /** `n` fits a Swift `Int` (64 bits). */
  predicate IsInt64(n: int) {
    MinInt64 <= n <= MaxInt64
  }

  // ---------------------------------------------------------------------------
  // Character classes

  predicate IsDigit(c: char) {
    '0' <= c <= '9'
  }

  /** The parsing library's horizontal whitespace (`Whitespace(.horizontal)`). */
  predicate IsHorizontalSpace(c: char) {
    c == ' ' || c == '\t'
  }

  /** The parsing library's vertical whitespace (`Whitespace(.vertical)`). */
  predicate IsVerticalSpace(c: char) {
    c == '\n' || c == '\r'
  }

  /** Foundation's `CharacterSet.newlines`, also Swift's `Character.isNewline`. */
  predicate IsNewline(c: char) {
    c == '\n' || c == '\U{000B}' || c == '\U{000C}' || c == '\r'
    || c == '\U{0085}' || c == '\U{2028}' || c == '\U{2029}'
  }

  /** Unicode White_Space: Foundation's `CharacterSet.whitespacesAndNewlines`,
      also Swift's `Character.isWhitespace`. */
  predicate IsWhitespace(c: char) {
    c == '\t' || IsNewline(c) || c == ' ' || c == '\U{00A0}' || c == '\U{1680}'
    || ('\U{2000}' <= c <= '\U{200A}') || c == '\U{202F}' || c == '\U{205F}' || c == '\U{3000}'
  }

  predicate AllDigits(s: string) {
    forall i :: 0 <= i < |s| ==> IsDigit(s[i])
  }

  function DigitValue(c: char): (d: nat)
    requires IsDigit(c)
    ensures d < 10
  {
    c as int - '0' as int
  }

  function DigitChar(d: nat): (c: char)
    requires d < 10
    ensures IsDigit(c) && DigitValue(c) == d
  {
    ('0' as int + d) as char
  }

  // ---------------------------------------------------------------------------
  // Decimal text

  /** The number a run of decimal digits denotes, most significant first. */
  function Value(ds: string): nat
    requires AllDigits(ds)
  {
    if ds == [] then 0 else Value(ds[..|ds| - 1]) * 10 + DigitValue(ds[|ds| - 1])
  }

  /** The shortest decimal text of `n`. */
  function NatText(n: nat): (s: string)
    ensures |s| > 0 && AllDigits(s)
    ensures Value(s) == n
  {
    if n < 10 then [DigitChar(n)]
    else
      var s := NatText(n / 10) + [DigitChar(n % 10)];
      assert s[..|s| - 1] == NatText(n / 10);
      s
  }

  function Zeros(k: nat): (z: string)
    ensures |z| == k && AllDigits(z)
  {
    if k == 0 then [] else Zeros(k - 1) + ['0']
  }

  /** `digits` padded on the left with zeros to at least `width` characters. */
  function ZeroPad(digits: string, width: nat): (s: string)
    ensures |s| >= width && |s| >= |digits|
  {
    if |digits| < width then Zeros(width - |digits|) + digits else digits
  }

  /** `String(format: "%0<width>d", n)`: an optional minus sign, then the
      digits of |n| zero-padded so that sign and digits fill `width`. */
  function FormatInt(n: int, width: nat): string {
    if n < 0 then "-" + ZeroPad(NatText(-n), if width > 0 then width - 1 else 0)
    else ZeroPad(NatText(n), width)
  }

  /** Swift's `"\(n)"` for an `Int`: the same as `%d` without padding. */
  function IntText(n: int): string {
    FormatInt(n, 0)
  }

  /** The text of a number starts with its sign or a digit. */
  lemma FormatIntStart(n: int, width: nat)
    ensures |FormatInt(n, width)| > 0
    ensures FormatInt(n, width)[0] == '-' || IsDigit(FormatInt(n, width)[0])
  {
    var ds := NatText(if n < 0 then -n else n);
    var w := if n < 0 && width > 0 then width - 1 else width;
    if |ds| < w {
      ZerosAreZeros(w - |ds|);
    }
  }

  lemma {:induction false} ValueOfZeroPrefix(z: string, ds: string)
    requires AllDigits(z) && AllDigits(ds)
    requires forall i :: 0 <= i < |z| ==> z[i] == '0'
    ensures AllDigits(z + ds) && Value(z + ds) == Value(ds)
  {
    if ds == [] {
      assert z + ds == z;
      ValueOfZeros(z);
    } else {
      assert (z + ds)[..|z + ds| - 1] == z + ds[..|ds| - 1];
      ValueOfZeroPrefix(z, ds[..|ds| - 1]);
    }
  }

  lemma {:induction false} ValueOfZeros(z: string)
    requires forall i :: 0 <= i < |z| ==> z[i] == '0'
    ensures AllDigits(z) && Value(z) == 0
  {
    if z != [] {
      ValueOfZeros(z[..|z| - 1]);
    }
  }

  lemma ValueOfZeroPad(n: nat, width: nat)
    ensures AllDigits(ZeroPad(NatText(n), width))
    ensures Value(ZeroPad(NatText(n), width)) == n
  {
    var ds := NatText(n);
    if |ds| < width {
      var z := Zeros(width - |ds|);
      ZerosAreZeros(width - |ds|);
      ValueOfZeroPrefix(z, ds);
    }
  }

  lemma {:induction false} ZerosAreZeros(k: nat)
    ensures forall i :: 0 <= i < |Zeros(k)| ==> Zeros(k)[i] == '0'
  {
    if k > 0 {
      ZerosAreZeros(k - 1);
    }
  }

  // ---------------------------------------------------------------------------
  // Int.parser()

  /** Length of the longest prefix of `s` made of decimal digits. */
  function DigitRun(s: string): (k: nat)
    ensures k <= |s| && AllDigits(s[..k])
    ensures k == |s| || !IsDigit(s[k])
  {
    if s == [] || !IsDigit(s[0]) then 0
    else
      var k := 1 + DigitRun(s[1..]);
      assert s[..k] == [s[0]] + s[1..][..k - 1];
      k
  }

  /** A parser's result: the value and the input that remains after it. */
  predicate IsSuffix(rest: string, s: string) {
    |rest| <= |s| && rest == s[|s| - |rest|..]
  }

  /** `Int.parser()`: an optional `-` or `+`, at least one decimal digit (as
      many as follow), and a value that fits a 64-bit `Int`. */
  function ParseInt(s: string): (r: Option<(int, string)>)
    ensures r.Some? ==> IsSuffix(r.value.1, s) && |r.value.1| < |s|
  {
    var negative := |s| > 0 && s[0] == '-';
    var body := if |s| > 0 && (s[0] == '-' || s[0] == '+') then s[1..] else s;
    var k := DigitRun(body);
    if k == 0 then None
    else
      var magnitude := Value(body[..k]);
      var v: int := if negative then -(magnitude as int) else magnitude;
      if MinInt64 <= v <= MaxInt64 then Some((v, body[k..])) else None
  }

  lemma DigitRunOfDigits(ds: string, rest: string)
    requires AllDigits(ds)
    requires rest == [] || !IsDigit(rest[0])
    ensures DigitRun(ds + rest) == |ds|
    ensures (ds + rest)[..|ds|] == ds && (ds + rest)[|ds|..] == rest
  {
    if ds != [] {
      assert (ds + rest)[1..] == ds[1..] + rest;
      DigitRunOfDigits(ds[1..], rest);
    }
  }

  /** Printing an `Int` with `%0Nd` and reading it back with `Int.parser()`
      gives the same value; the input after it is untouched. */
  lemma ParseDigits(ds: string, rest: string)
    requires AllDigits(ds) && ds != [] && Value(ds) <= MaxInt64
    requires rest == [] || !IsDigit(rest[0])
    ensures ParseInt(ds + rest) == Some((Value(ds) as int, rest))
  {
    DigitRunOfDigits(ds, rest);
    assert IsDigit((ds + rest)[0]);
  }

  lemma ParseNegativeDigits(ds: string, rest: string)
    requires AllDigits(ds) && ds != [] && Value(ds) <= -MinInt64
    requires rest == [] || !IsDigit(rest[0])
    ensures ParseInt("-" + ds + rest) == Some((-(Value(ds) as int), rest))
  {
    DigitRunOfDigits(ds, rest);
    SignSplit('-', ds, rest);
    NegativeParse("-" + ds + rest, ds + rest, |ds|);
  }

  /** A minus sign followed by a run of `k` digits reads as its negated value. */
  lemma NegativeParse(s: string, body: string, k: nat)
    requires |s| > 0 && s[0] == '-' && s[1..] == body
    requires 0 < k <= |body| && DigitRun(body) == k && Value(body[..k]) <= -MinInt64
    ensures ParseInt(s) == Some((-(Value(body[..k]) as int), body[k..]))
  {
  }

  lemma SignSplit(sign: char, ds: string, rest: string)
    ensures ([sign] + ds + rest)[0] == sign && ([sign] + ds + rest)[1..] == ds + rest
  {
    assert [sign] + ds + rest == [sign] + (ds + rest);
  }

  /** Printing an `Int` with `%0Nd` and reading it back with `Int.parser()`
      gives the same value; the input after it is untouched. */
  lemma ParseFormattedInt(n: int, width: nat, rest: string)
    requires MinInt64 <= n <= MaxInt64
    requires rest == [] || !IsDigit(rest[0])
    ensures ParseInt(FormatInt(n, width) + rest) == Some((n, rest))
  {
    if n < 0 {
      ParseFormattedNegative(n, width, rest);
    } else {
      ValueOfZeroPad(n, width);
      ParseDigits(ZeroPad(NatText(n), width), rest);
    }
  }

  lemma ParseFormattedNegative(n: int, width: nat, rest: string)
    requires MinInt64 <= n < 0
    requires rest == [] || !IsDigit(rest[0])
    ensures ParseInt(FormatInt(n, width) + rest) == Some((n, rest))
  {
    var ds := ZeroPad(NatText(-n), if width > 0 then width - 1 else 0);
    ValueOfZeroPad(-n, if width > 0 then width - 1 else 0);
    ParseNegativeValue(ds, rest, n);
  }

  /** A sign followed by the digits of `-n` reads back as `n`. */
  lemma ParseNegativeValue(ds: string, rest: string, n: int)
    requires AllDigits(ds) && Value(ds) == -n && MinInt64 <= n < 0
    requires rest == [] || !IsDigit(rest[0])
    ensures ParseInt("-" + ds + rest) == Some((n, rest))
  {
    ParseNegativeDigits(ds, rest);
  }

  /** A literal parser: `lit` at the front of `s` is consumed. */
  function Expect(s: string, lit: string): (r: Option<string>)
    ensures r.Some? ==> |lit| <= |s| && r.value == s[|lit|..]
  {
    if |lit| <= |s| && s[..|lit|] == lit then Some(s[|lit|..]) else None
  }

  lemma ExpectConcat(lit: string, rest: string)
    ensures Expect(lit + rest, lit) == Some(rest)
  {
    assert (lit + rest)[..|lit|] == lit;
    assert (lit + rest)[|lit|..] == rest;
  }

  /** A literal does not match an input whose first character differs. */
  lemma ExpectMismatch(s: string, lit: string)
    requires lit != [] && (s == [] || s[0] != lit[0])
    ensures Expect(s, lit).None?
  {
    if |lit| <= |s| {
      assert s[..|lit|][0] != lit[0];
    }
  }

  // ---------------------------------------------------------------------------
  // Searching, splitting and trimming

  /** Index of the first `c` in `s`. */
  function IndexOf(s: string, c: char): (r: Option<nat>)
    ensures r.None? ==> c !in s
    ensures r.Some? ==> r.value < |s| && s[r.value] == c && c !in s[..r.value]
  {
    if s == [] then None
    else if s[0] == c then Some(0)
    else
      match IndexOf(s[1..], c)
      case None => None
      case Some(i) =>
        assert s[..i + 1] == [s[0]] + s[1..][..i];
        Some(i + 1)
  }

  /** `IndexOf` is determined by its contract: a position holding `c` with
      no earlier `c` is the one it returns. */
  lemma IndexOfFirst(s: string, c: char, k: nat)
    requires k < |s| && s[k] == c && c !in s[..k]
    ensures IndexOf(s, c) == Some(k)
  {
    assert s[k] in s;
  }

  lemma AppendAssoc<T>(a: seq<T>, b: seq<T>, c: seq<T>)
    ensures (a + b) + c == a + (b + c)
  {
  }

  /** Slices of a suffix, as slices of the whole. */
  lemma SliceOfSlice<T>(s: seq<T>, p: nat, a: nat, k: nat)
    requires p + a + k < |s|
    ensures s[p..][a..] == s[p + a..]
    ensures s[p..][..a] == s[p..p + a]
    ensures s[p..][a..a + k + 1] == s[p + a..p + a + k + 1]
    ensures s[p..][a + k + 1..] == s[p + a + k + 1..]
  {
  }

  /** Slices of a concatenation that start in its second part. */
  lemma SliceOfConcat<T>(x: seq<T>, y: seq<T>, a: nat, k: nat)
    requires a + k < |y|
    ensures (x + y)[|x| + a..] == y[a..]
    ensures (x + y)[..|x| + a] == x + y[..a]
    ensures (x + y)[|x| + a..|x| + a + k + 1] == y[a..a + k + 1]
    ensures (x + y)[|x| + a + k + 1..] == y[a + k + 1..]
  {
  }

  /** Index of the first `c` at or after position `from`, as an index into
      the whole of `s` (searching a suffix, as `s[from...].range(of:)` does).
      That it is the first one is `IndexFromFirst`, kept out of this
      contract so that callers only pay for it where they use it. */
  function IndexFrom(s: string, from: nat, c: char): (r: Option<nat>)
    requires from <= |s|
    ensures r.Some? ==> from <= r.value < |s| && s[r.value] == c
    decreases |s| - from
  {
    if from == |s| then None
    else if s[from] == c then Some(from)
    else IndexFrom(s, from + 1, c)
  }

  /** No `c` lies between `from` and the index found, nor after `from` when
      none is found. */
  lemma {:induction false} IndexFromFirst(s: string, from: nat, c: char)
    requires from <= |s|
    ensures IndexFrom(s, from, c).Some? ==> forall i :: from <= i < IndexFrom(s, from, c).value ==> s[i] != c
    ensures IndexFrom(s, from, c).None? ==> forall i :: from <= i < |s| ==> s[i] != c
    decreases |s| - from
  {
    if from < |s| && s[from] != c {
      IndexFromFirst(s, from + 1, c);
    }
  }

  /** The index of a `c` with no `c` between `from` and it is what
      `IndexFrom` returns. */
  lemma {:induction false} IndexFromAt(s: string, from: nat, c: char, k: nat)
    requires from <= k < |s| && s[k] == c
    requires forall i :: from <= i < k ==> s[i] != c
    ensures IndexFrom(s, from, c) == Some(k)
    decreases k - from
  {
    if from < k {
      IndexFromAt(s, from + 1, c, k);
    }
  }

  /** With no `c` after `from`, `IndexFrom` finds none. */
  lemma {:induction false} IndexFromAbsent(s: string, from: nat, c: char)
    requires from <= |s|
    requires forall i :: from <= i < |s| ==> s[i] != c
    ensures IndexFrom(s, from, c).None?
    decreases |s| - from
  {
    if from < |s| {
      IndexFromAbsent(s, from + 1, c);
    }
  }

  /** `y` is the part of `t` from position `off` on. */
  predicate EndsWithAt(t: string, y: string, off: nat) {
    off <= |t| && t[off..] == y
  }

  lemma EndsWithAtConcat(x: string, y: string)
    ensures EndsWithAt(x + y, y, |x|)
  {
  }

  /** Characters and slices of the part from `off` on, as those of `t`. */
  lemma EndsWithAtIndex(t: string, y: string, off: nat, i: nat)
    requires EndsWithAt(t, y, off) && i < |y|
    ensures t[off + i] == y[i]
  {
    assert t[off..][i] == t[off + i];
  }

  lemma EndsWithAtSlice(t: string, y: string, off: nat, i: nat, j: nat)
    requires EndsWithAt(t, y, off) && i <= j <= |y|
    ensures t[off + i..off + j] == y[i..j]
    ensures t[off + i..] == y[i..]
  {
    assert t[off..][i..j] == t[off + i..off + j];
    assert t[off..][i..] == t[off + i..];
  }

  /** Searching `t` from `off + i` is searching `y` from `i`. */
  lemma {:induction false} IndexFromShift(t: string, y: string, off: nat, i: nat, c: char)
    requires EndsWithAt(t, y, off) && i <= |y|
    ensures IndexFrom(t, off + i, c).None? == IndexFrom(y, i, c).None?
    ensures IndexFrom(y, i, c).Some? ==> IndexFrom(t, off + i, c).value == IndexFrom(y, i, c).value + off
    decreases |y| - i
  {
    if i < |y| {
      EndsWithAtIndex(t, y, off, i);
      IndexFromShift(t, y, off, i + 1, c);
    }
  }

  /** Index of the first character of `s` that satisfies `p`. */
  function IndexWhere(s: string, p: char -> bool): (r: Option<nat>)
    ensures r.None? ==> forall i :: 0 <= i < |s| ==> !p(s[i])
    ensures r.Some? ==> r.value < |s| && p(s[r.value])
    ensures r.Some? ==> forall i :: 0 <= i < r.value ==> !p(s[i])
  {
    if s == [] then None
    else if p(s[0]) then Some(0)
    else
      match IndexWhere(s[1..], p)
      case None => None
      case Some(i) => Some(i + 1)
  }

  /** Foundation's `components(separatedBy:)`: the pieces between separator
      characters, empty pieces included; one more piece than separators. */
  function Split(s: string, isSeparator: char -> bool): (parts: seq<string>)
    ensures |parts| > 0
    decreases |s|
  {
    match IndexWhere(s, isSeparator)
    case None => [s]
    case Some(i) => [s[..i]] + Split(s[i + 1..], isSeparator)
  }

  /** The pieces joined back with `sep` between them. */
  function Join(parts: seq<string>, sep: string): string {
    if parts == [] then ""
    else if |parts| == 1 then parts[0]
    else parts[0] + sep + Join(parts[1..], sep)
  }

  /** Splitting the join of separator-free pieces gives the pieces back. */
  lemma {:induction false} SplitJoin(parts: seq<string>, sep: char, isSeparator: char -> bool)
    requires |parts| > 0 && isSeparator(sep)
    requires forall k, i :: 0 <= k < |parts| && 0 <= i < |parts[k]| ==> !isSeparator(parts[k][i])
    ensures Split(Join(parts, [sep]), isSeparator) == parts
  {
    var s := Join(parts, [sep]);
    if |parts| == 1 {
      assert IndexWhere(s, isSeparator).None?;
    } else {
      JoinFirst(parts, sep);
      IndexWhereAt(s, isSeparator, |parts[0]|);
      SplitAt(s, isSeparator, |parts[0]|);
      SplitJoin(parts[1..], sep, isSeparator);
      assert parts == [parts[0]] + parts[1..];
    }
  }

  /** Splitting at the first separator, at `k`. */
  lemma SplitAt(s: string, isSeparator: char -> bool, k: nat)
    requires IndexWhere(s, isSeparator) == Some(k) && k < |s|
    ensures Split(s, isSeparator) == [s[..k]] + Split(s[k + 1..], isSeparator)
  {
  }

  /** A join of two pieces or more is the first piece, the separator and
      the join of the rest. */
  lemma JoinFirst(parts: seq<string>, sep: char)
    requires |parts| > 1
    ensures var s := Join(parts, [sep]);
      |parts[0]| < |s| && s[..|parts[0]|] == parts[0] && s[|parts[0]|] == sep
      && s[|parts[0]| + 1..] == Join(parts[1..], [sep])
  {
    assert Join(parts, [sep]) == parts[0] + [sep] + Join(parts[1..], [sep]);
  }

  /** The first separator is at `k` when `k` holds one and nothing before
      it does. */
  lemma IndexWhereAt(s: string, p: char -> bool, k: nat)
    requires k < |s| && p(s[k]) && forall i :: 0 <= i < k ==> !p(s[..k][i])
    ensures IndexWhere(s, p) == Some(k)
  {
    assert forall i :: 0 <= i < k ==> s[..k][i] == s[i];
  }

  function TrimStart(s: string, p: char -> bool): (r: string)
    ensures IsSuffix(r, s)
    ensures r == [] || !p(r[0])
  {
    if s != [] && p(s[0]) then TrimStart(s[1..], p) else s
  }

  function TrimEnd(s: string, p: char -> bool): (r: string)
    ensures |r| <= |s| && r == s[..|r|]
    ensures r == [] || !p(r[|r| - 1])
  {
    if s != [] && p(s[|s| - 1]) then TrimEnd(s[..|s| - 1], p) else s
  }

  /** `trimmingEdges(while:)`: both ends stripped of characters satisfying `p`. */
  function Trim(s: string, p: char -> bool): string {
    TrimEnd(TrimStart(s, p), p)
  }

  /** A string whose end characters fail `p` is its own trimming. */
  lemma TrimUntouched(s: string, p: char -> bool)
    requires s == [] || (!p(s[0]) && !p(s[|s| - 1]))
    ensures Trim(s, p) == s
  {
  }

  /** No character of `s` satisfies `q`. */
  predicate Avoids(s: string, q: char -> bool) {
    forall i :: 0 <= i < |s| ==> !q(s[i])
  }

  /** Neither end character satisfies `p`. */
  predicate IsTrimmed(s: string, p: char -> bool) {
    s == [] || (!p(s[0]) && !p(s[|s| - 1]))
  }

  /** Trimming leaves no trimmable character at either end. */
  lemma TrimIsTrimmed(s: string, p: char -> bool)
    ensures IsTrimmed(Trim(s, p), p)
  {
    var t := TrimStart(s, p);
    var r := TrimEnd(t, p);
    if r != [] {
      assert r[0] == t[0];
    }
  }

  /** Trimming only removes characters. */
  lemma TrimAvoids(s: string, p: char -> bool, q: char -> bool)
    requires Avoids(s, q)
    ensures Avoids(Trim(s, p), q)
  {
    var t := TrimStart(s, p);
    assert forall i :: 0 <= i < |t| ==> t[i] == s[|s| - |t| + i];
    var r := TrimEnd(t, p);
    assert forall i :: 0 <= i < |r| ==> r[i] == t[i];
  }

  /** No piece contains a separator. */
  lemma {:induction false} SplitAvoidsSeparator(s: string, isSeparator: char -> bool)
    ensures forall k :: 0 <= k < |Split(s, isSeparator)| ==> Avoids(Split(s, isSeparator)[k], isSeparator)
    decreases |s|
  {
    match IndexWhere(s, isSeparator)
    case None =>
    case Some(i) =>
      SplitAvoidsSeparator(s[i + 1..], isSeparator);
      assert Avoids(s[..i], isSeparator);
  }

  /** The pieces hold only characters of the input. */
  lemma {:induction false} SplitAvoids(s: string, isSeparator: char -> bool, q: char -> bool)
    requires Avoids(s, q)
    ensures forall k :: 0 <= k < |Split(s, isSeparator)| ==> Avoids(Split(s, isSeparator)[k], q)
    decreases |s|
  {
    match IndexWhere(s, isSeparator)
    case None =>
    case Some(i) =>
      assert Avoids(s[i + 1..], q);
      SplitAvoids(s[i + 1..], isSeparator, q);
      assert Avoids(s[..i], q);
  }

  /** ASCII lower-casing, the only case folding the tag grammars need. */
  function LowerChar(c: char): char {
    if 'A' <= c <= 'Z' then (c as int + 32) as char else c
  }

  function Lower(s: string): (r: string)
    ensures |r| == |s|
    ensures forall i :: 0 <= i < |s| ==> r[i] == LowerChar(s[i])
  {
    seq(|s|, i requires 0 <= i < |s| => LowerChar(s[i]))
  }

  /** `s` has `lit` at `pos`, ignoring ASCII case (`lit` is lower-case). */
  predicate LiteralAt(s: string, pos: nat, lit: string) {
    pos + |lit| <= |s| && Lower(s[pos..pos + |lit|]) == lit
  }
}
