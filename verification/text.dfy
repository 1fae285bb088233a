/** The little text handling the change hook needs: ASCII lower-casing (the
    router's messages are checked case-insensitively), substring search, and
    the decimal rendering of `%d`.
 */
module Text {

  /** Python 2 `str.lower()` on a byte string: only ASCII A-Z change. */
  function LowerChar(c: char): char {
    if 'A' <= c <= 'Z' then (c as int + 32) as char else c
  }

  function Lower(s: string): (r: string)
    ensures |r| == |s|
    ensures forall i :: 0 <= i < |s| ==> r[i] == LowerChar(s[i])
  {
    seq(|s|, i requires 0 <= i < |s| => LowerChar(s[i]))
  }

  /** Lower-casing distributes over concatenation. */
  lemma LowerAppend(a: string, b: string)
    ensures Lower(a + b) == Lower(a) + Lower(b)
  {
    assert forall i :: 0 <= i < |a + b| ==> Lower(a + b)[i] == (Lower(a) + Lower(b))[i];
  }

  /** `sub` occurs in `s` starting at index `i`. */
  predicate OccursAt(s: string, sub: string, i: int) {
    0 <= i && i + |sub| <= |s| && s[i..i + |sub|] == sub
  }

  /** Python's `sub in s`. */
  predicate Contains(s: string, sub: string) {
    exists i :: 0 <= i <= |s| && OccursAt(s, sub, i)
  }

  /** A string contains whatever sits between a known prefix and suffix. */
  lemma ContainsMiddle(pre: string, sub: string, post: string)
    ensures Contains(pre + sub + post, sub)
  {
    var s := pre + sub + post;
    assert s[|pre|..|pre| + |sub|] == sub;
    assert OccursAt(s, sub, |pre|);
  }

  function DigitChar(d: nat): (c: char)
    requires d < 10
    ensures '0' <= c <= '9'
    ensures c == '0' <==> d == 0
  {
    "0123456789"[d]
  }

  function DigitValue(c: char): (d: nat)
    requires '0' <= c <= '9'
    ensures d < 10 && DigitChar(d) == c
  {
    c as int - '0' as int
  }

  /** Python's `'%d' % n` for a non-negative integer. */
  function Decimal(n: nat): (r: string)
    ensures |r| > 0
    ensures forall i :: 0 <= i < |r| ==> '0' <= r[i] <= '9'
    ensures r[0] == '0' <==> n == 0
    ensures |r| == 1 || r[0] != '0'
    decreases n
  {
    if n < 10 then [DigitChar(n)] else Decimal(n / 10) + [DigitChar(n % 10)]
  }

  /** Reads a string of decimal digits back as a number. */
  function ParseDecimal(s: string): nat
    requires forall i :: 0 <= i < |s| ==> '0' <= s[i] <= '9'
    decreases |s|
  {
    if |s| == 0 then 0 else 10 * ParseDecimal(s[..|s| - 1]) + DigitValue(s[|s| - 1])
  }

  /** The count in an "OK %d changes" message can be read back exactly. */
  lemma {:induction false} DecimalRoundTrip(n: nat)
    ensures ParseDecimal(Decimal(n)) == n
    decreases n
  {
    if n >= 10 {
      var s := Decimal(n);
      assert s[..|s| - 1] == Decimal(n / 10);
      DecimalRoundTrip(n / 10);
    }
  }

  /** Python's `sep.join(parts)` for a one-character separator. */
  function Join(parts: seq<string>, sep: char): (r: string)
    ensures |parts| == 1 ==> r == parts[0]
    ensures |parts| > 1 ==> |r| > |parts[0]| && r[..|parts[0]|] == parts[0] && r[|parts[0]|] == sep
    decreases |parts|
  {
    if |parts| == 0 then ""
    else if |parts| == 1 then parts[0]
    else parts[0] + [sep] + Join(parts[1..], sep)
  }

  /** No part contains the separator. */
  predicate SeparatorFree(parts: seq<string>, sep: char) {
    forall k :: 0 <= k < |parts| ==> sep !in parts[k]
  }

  /** Of two strings each followed by the separator in the same text, the
      longer one contains the separator. */
  lemma SeparatorInLonger(x: string, y: string, xs: string, ys: string, sep: char)
    requires x + [sep] + xs == y + [sep] + ys
    requires |x| < |y|
    ensures sep in y
  {
    var s := x + [sep] + xs;
    assert s[|x|] == sep;
    assert s[|x|] == y[|x|];
  }

  /** Two separator-free strings each followed by the separator agree up to
      it, and so do the texts after it. */
  lemma SameFirstPart(x: string, y: string, xs: string, ys: string, sep: char)
    requires sep !in x && sep !in y
    requires x + [sep] + xs == y + [sep] + ys
    ensures x == y && xs == ys
  {
    var s := x + [sep] + xs;
    if |x| < |y| {
      SeparatorInLonger(x, y, xs, ys, sep);
      assert false;
    } else if |y| < |x| {
      SeparatorInLonger(y, x, ys, xs, sep);
      assert false;
    }
    assert x == s[..|x|] && y == s[..|y|];
    assert xs == s[|x| + 1..] && ys == s[|y| + 1..];
  }

  /** A join of separator-free parts contains the separator exactly when
      there is more than one part. */
  lemma {:induction false} JoinSeparator(parts: seq<string>, sep: char)
    requires |parts| > 0 && SeparatorFree(parts, sep)
    ensures sep in Join(parts, sep) <==> |parts| > 1
  {
    if |parts| > 1 {
      assert Join(parts, sep)[|parts[0]|] == sep;
    }
  }

  /** Joining is injective on non-empty lists of separator-free parts, so
      such a list is the only one `split(sep)` can give for its join. */
  lemma {:induction false} JoinInjective(a: seq<string>, b: seq<string>, sep: char)
    requires |a| > 0 && |b| > 0
    requires SeparatorFree(a, sep) && SeparatorFree(b, sep)
    requires Join(a, sep) == Join(b, sep)
    ensures a == b
    decreases |a|
  {
    JoinSeparator(a, sep);
    JoinSeparator(b, sep);
    if |a| > 1 {
      SameFirstPart(a[0], b[0], Join(a[1..], sep), Join(b[1..], sep), sep);
      JoinInjective(a[1..], b[1..], sep);
      assert a == [a[0]] + a[1..] && b == [b[0]] + b[1..];
    }
  }
}
