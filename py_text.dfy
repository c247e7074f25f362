/**
 * The handful of Python string built-ins the commands rely on, stated on
 * `string` (a sequence of characters): `str.split`, `str.rsplit(sep, 1)`,
 * `str.startswith`, `str()` of an integer, ASCII `str.lower`, and `shlex.split`
 * on text that holds no quote or escape characters.
 */
module PyText {

  predicate StartsWith(s: string, prefix: string) {
    |prefix| <= |s| && s[..|prefix|] == prefix
  }

  /** Number of occurrences of `c` in `s`. */
  function Count(s: string, c: char): nat {
    if |s| == 0 then 0 else (if s[0] == c then 1 else 0) + Count(s[1..], c)
  }

  // ---------------------------------------------------------------- str.split

  /** `s.split(sep)` for a one-character separator: the pieces between separators, empty ones included. */
  function Split(s: string, sep: char): (parts: seq<string>)
    ensures |parts| >= 1
    decreases |s|
  {
    if |s| == 0 then [""]
    else
      var rest := Split(s[1..], sep);
      if s[0] == sep then [""] + rest
      else [[s[0]] + rest[0]] + rest[1..]
  }

  /** `sep.join(parts)`. */
  function Join(parts: seq<string>, sep: char): string
    decreases |parts|
  {
    if |parts| == 0 then ""
    else if |parts| == 1 then parts[0]
    else parts[0] + [sep] + Join(parts[1..], sep)
  }

  /** Splitting and joining again gives back the text. */
  lemma {:induction false} JoinSplit(s: string, sep: char)
    ensures Join(Split(s, sep), sep) == s
    decreases |s|
  {
    if |s| > 0 {
      var rest := Split(s[1..], sep);
      JoinSplit(s[1..], sep);
      if s[0] == sep {
        assert s == [sep] + s[1..];
      } else if |rest| == 1 {
        assert s == [s[0]] + s[1..];
      } else {
        assert Join(rest, sep) == rest[0] + [sep] + Join(rest[1..], sep);
        assert s == [s[0]] + s[1..];
      }
    }
  }

  /** No piece holds the separator. */
  lemma {:induction false} SplitPiecesClean(s: string, sep: char)
    ensures forall i :: 0 <= i < |Split(s, sep)| ==> sep !in Split(s, sep)[i]
    decreases |s|
  {
    if |s| > 0 {
      SplitPiecesClean(s[1..], sep);
      var rest := Split(s[1..], sep);
      if s[0] != sep {
        assert sep !in rest[0];
        assert sep !in [s[0]] + rest[0];
      }
    }
  }

  /** There is one piece more than there are separators. */
  lemma {:induction false} SplitCount(s: string, sep: char)
    ensures |Split(s, sep)| == Count(s, sep) + 1
    decreases |s|
  {
    if |s| > 0 {
      SplitCount(s[1..], sep);
    }
  }

  // ------------------------------------------------------- str.rsplit(sep, 1)

  /**
   * `s.rsplit(sep, 1)`: the one-element list `[s]` when `sep` does not occur,
   * otherwise the text before and after the LAST occurrence.
   */
  function RSplitOnce(s: string, sep: char): (parts: seq<string>)
    ensures sep !in s ==> parts == [s]
    ensures sep in s ==> |parts| == 2 && s == parts[0] + [sep] + parts[1] && sep !in parts[1]
    decreases |s|
  {
    if |s| == 0 then [s]
    else if s[|s| - 1] == sep then [s[..|s| - 1], ""]
    else
      var init := s[..|s| - 1];
      var parts := RSplitOnce(init, sep);
      assert s == init + [s[|s| - 1]];
      if |parts| == 1 then [s]
      else [parts[0], parts[1] + [s[|s| - 1]]]
  }

  /** The split point is the last separator: any `a + sep + b` with no separator in `b` is split into `a` and `b`. */
  lemma {:induction false} RSplitOnceOf(a: string, sep: char, b: string)
    requires sep !in b
    ensures RSplitOnce(a + [sep] + b, sep) == [a, b]
    decreases |b|
  {
    var s := a + [sep] + b;
    if |b| == 0 {
      assert s[..|s| - 1] == a;
    } else {
      var b' := b[..|b| - 1];
      assert s[..|s| - 1] == a + [sep] + b';
      assert s[|s| - 1] == b[|b| - 1];
      RSplitOnceOf(a, sep, b');
      assert b' + [b[|b| - 1]] == b;
    }
  }

  // ------------------------------------------------------------- str() of int

  function DigitChar(d: nat): (c: char)
    requires d < 10
    ensures '0' <= c <= '9' && DigitValue(c) == d
  {
    ('0' as int + d) as char
  }

  /** The value of a decimal digit character. */
  function DigitValue(c: char): int {
    c as int - '0' as int
  }

  predicate IsDigitOrMinus(c: char) {
    '0' <= c <= '9' || c == '-'
  }

  /** The number a string of decimal digits denotes, most significant digit first. */
  function DecimalValue(s: string): int
    decreases |s|
  {
    if |s| == 0 then 0 else DecimalValue(s[..|s| - 1]) * 10 + DigitValue(s[|s| - 1])
  }

  /** The number `int(s)` reads from an optionally signed string of digits. */
  function SignedValue(s: string): int {
    if |s| > 0 && s[0] == '-' then -DecimalValue(s[1..]) else DecimalValue(s)
  }

  /** Decimal digits of a natural number, without leading zeros. */
  function NatToString(n: nat): (r: string)
    ensures |r| > 0 && forall i :: 0 <= i < |r| ==> '0' <= r[i] <= '9'
    ensures (|r| > 1 ==> r[0] != '0')
  {
    if n < 10 then [DigitChar(n)] else NatToString(n / 10) + [DigitChar(n % 10)]
  }

  /** The digits denote the number: reading them back gives `n`. */
  lemma {:induction false} NatToStringValue(n: nat)
    ensures DecimalValue(NatToString(n)) == n
  {
    var r := NatToString(n);
    if n < 10 {
      assert r[..|r| - 1] == [];
    } else {
      assert r[..|r| - 1] == NatToString(n / 10);
      NatToStringValue(n / 10);
    }
  }

  /** `str(i)` for an integer: a `-` sign before the digits of a negative one. */
  function IntToString(i: int): (r: string)
    ensures |r| > 0 && forall k :: 0 <= k < |r| ==> IsDigitOrMinus(r[k])
    ensures (i < 0) == (r[0] == '-')
    ensures forall k :: 0 < k < |r| ==> '0' <= r[k] <= '9'
    ensures var d := if i < 0 then r[1..] else r; |d| > 0 && (|d| > 1 ==> d[0] != '0')
  {
    if i < 0 then "-" + NatToString(-i) else NatToString(i)
  }

  /** `int(str(i)) == i`. */
  lemma IntToStringValue(i: int)
    ensures SignedValue(IntToString(i)) == i
  {
    if i < 0 {
      assert IntToString(i)[1..] == NatToString(-i);
      NatToStringValue(-i);
    } else {
      NatToStringValue(i);
    }
  }

  /** Different integers have different decimal texts. */
  lemma IntToStringInjective(i: int, j: int)
    requires IntToString(i) == IntToString(j)
    ensures i == j
  {
    IntToStringValue(i);
    IntToStringValue(j);
  }

  // ------------------------------------------------------------ ASCII lower

  predicate IsUpper(c: char) {
    'A' <= c <= 'Z'
  }

  function LowerChar(c: char): char {
    if IsUpper(c) then (c as int - 'A' as int + 'a' as int) as char else c
  }

  /**
   * `s.lower()` for ASCII letters: no capital letter remains, each capital
   * becomes the small letter 32 code points above it, and every other
   * character is left as it is.
   */
  function Lower(s: string): (r: string)
    ensures |r| == |s|
    ensures forall i :: 0 <= i < |r| ==> !IsUpper(r[i])
    ensures forall i :: 0 <= i < |s| && IsUpper(s[i]) ==> r[i] as int == s[i] as int + 32
    ensures forall i :: 0 <= i < |s| && !IsUpper(s[i]) ==> r[i] == s[i]
  {
    seq(|s|, i requires 0 <= i < |s| => LowerChar(s[i]))
  }

  /** Lower-casing twice is lower-casing once. */
  lemma LowerIdempotent(s: string)
    ensures Lower(Lower(s)) == Lower(s)
  {
  }

  // --------------------------------------------------------------- shlex.split

  /** The characters `shlex` treats as separators in POSIX mode. */
  predicate IsBlank(c: char) {
    c == ' ' || c == '\t' || c == '\r' || c == '\n'
  }

  predicate NotBlank(c: char) {
    !IsBlank(c)
  }

  /** The longest prefix of `s` whose characters all satisfy `p`. */
  function Span(s: string, p: char -> bool): (w: string)
    ensures |w| <= |s| && w == s[..|w|]
    ensures forall i :: 0 <= i < |w| ==> p(w[i])
    ensures |w| < |s| ==> !p(s[|w|])
    decreases |s|
  {
    if |s| == 0 || !p(s[0]) then "" else [s[0]] + Span(s[1..], p)
  }

  /** A run of `p`-characters stopped by a non-`p` character (or the end) is exactly the span. */
  lemma SpanOf(w: string, rest: string, p: char -> bool)
    requires forall i :: 0 <= i < |w| ==> p(w[i])
    requires |rest| > 0 ==> !p(rest[0])
    ensures Span(w + rest, p) == w
  {
    assert (w + rest)[..|w|] == w;
  }

  /**
   * `shlex.split(s)` for text without quotes, backslashes or comments: the
   * maximal runs of non-blank characters, in order.
   */
  function Words(s: string): (ws: seq<string>)
    ensures forall i :: 0 <= i < |ws| ==> IsWord(ws[i])
    decreases |s|
  {
    if |s| == 0 then []
    else if IsBlank(s[0]) then Words(s[1..])
    else
      var w := Span(s, NotBlank);
      assert |w| > 0;
      [w] + Words(s[|w|..])
  }

  predicate IsWord(w: string) {
    |w| > 0 && forall i :: 0 <= i < |w| ==> NotBlank(w[i])
  }

  /** A space always separates tokens: the tokens of `a + " " + b` are those of `a`, then those of `b`. */
  lemma {:induction false} WordsAtSpace(a: string, b: string)
    ensures Words(a + " " + b) == Words(a) + Words(b)
    decreases |a|
  {
    var s := a + " " + b;
    if |a| == 0 {
      assert s == " " + b;
      assert s[1..] == b;
    } else if IsBlank(a[0]) {
      assert s[1..] == a[1..] + " " + b;
      WordsAtSpace(a[1..], b);
    } else {
      var w := Span(a, NotBlank);
      var a' := a[|w|..];
      assert a == w + a';
      assert s == w + (a' + " " + b);
      WordsAfterWord(w, a');
      WordsAfterWord(w, a' + " " + b);
      WordsAtSpace(a', b);
    }
  }

  /** A word followed by a blank or by nothing is the first token. */
  lemma WordsAfterWord(w: string, rest: string)
    requires IsWord(w)
    requires |rest| > 0 ==> IsBlank(rest[0])
    ensures Words(w + rest) == [w] + Words(rest)
  {
    var s := w + rest;
    assert s[0] == w[0];
    SpanOf(w, rest, NotBlank);
    assert s[|w|..] == rest;
  }

  /** A single word is a single token. */
  lemma WordsSingle(w: string)
    requires IsWord(w)
    ensures Words(w) == [w]
  {
    SpanOf(w, "", NotBlank);
    assert w + "" == w;
    assert w[|w|..] == "";
  }

  /** Words joined by single spaces tokenise back into the same words. */
  lemma {:induction false} WordsJoin(ws: seq<string>)
    requires forall i :: 0 <= i < |ws| ==> IsWord(ws[i])
    ensures Words(Join(ws, ' ')) == ws
    decreases |ws|
  {
    if |ws| == 1 {
      WordsSingle(ws[0]);
    } else if |ws| > 1 {
      assert Join(ws, ' ') == ws[0] + " " + Join(ws[1..], ' ');
      WordsAtSpace(ws[0], Join(ws[1..], ' '));
      WordsSingle(ws[0]);
      WordsJoin(ws[1..]);
    }
  }
}
