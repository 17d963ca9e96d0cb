/** The string operations the lead table relies on: ASCII case folding,
    substring search, the decimal text of an integer (`astype(str)`), and
    Python's ordering of strings (`sorted`). */
module Text {

  /** One character, lower-cased (ASCII letters only). */
  function Lower(c: char): char {
    if 'A' <= c <= 'Z' then (c as int + 32) as char else c
  }

  /** `s.lower()` restricted to ASCII letters. */
  function LowerStr(s: string): (r: string)
    ensures |r| == |s|
    ensures forall i :: 0 <= i < |s| ==> r[i] == Lower(s[i])
  {
    if s == [] then [] else [Lower(s[0])] + LowerStr(s[1..])
  }

  lemma {:induction false} LowerStrIdempotent(s: string)
    ensures LowerStr(LowerStr(s)) == LowerStr(s)
  {
    var l := LowerStr(s);
    var ll := LowerStr(l);
    forall i | 0 <= i < |s| ensures ll[i] == l[i] {
      assert Lower(Lower(s[i])) == Lower(s[i]);
    }
  }

  /** `needle` occurs in `hay` as a contiguous piece. */
  function Contains(hay: string, needle: string): bool
    decreases |hay|
  {
    needle <= hay || (hay != [] && Contains(hay[1..], needle))
  }

  /** The reference meaning of `Contains`: some position of `hay` starts a
      copy of `needle`. */
  ghost predicate OccursAt(hay: string, needle: string, i: int) {
    0 <= i && i + |needle| <= |hay| && hay[i..i + |needle|] == needle
  }

  lemma {:induction false} ContainsIff(hay: string, needle: string)
    ensures Contains(hay, needle) <==> exists i :: OccursAt(hay, needle, i)
    decreases |hay|
  {
    if needle <= hay {
      assert OccursAt(hay, needle, 0);
    } else if hay == [] {
      forall i ensures !OccursAt(hay, needle, i) {
      }
    } else {
      ContainsIff(hay[1..], needle);
      forall i | OccursAt(hay, needle, i) && i > 0 ensures OccursAt(hay[1..], needle, i - 1) {
        assert hay[1..][i - 1..i - 1 + |needle|] == hay[i..i + |needle|];
      }
      if Contains(hay[1..], needle) {
        var i :| OccursAt(hay[1..], needle, i);
        assert hay[1..][i..i + |needle|] == hay[i + 1..i + 1 + |needle|];
        assert OccursAt(hay, needle, i + 1);
      }
    }
  }

  /** `str.contains(needle, case=False)` read as a literal, ASCII-folded search. */
  function ContainsIgnoreCase(hay: string, needle: string): bool {
    Contains(LowerStr(hay), LowerStr(needle))
  }

  /** The casing of either side does not matter. */
  lemma ContainsIgnoreCaseFolds(hay: string, needle: string)
    ensures ContainsIgnoreCase(hay, needle) == ContainsIgnoreCase(LowerStr(hay), LowerStr(needle))
  {
    LowerStrIdempotent(hay);
    LowerStrIdempotent(needle);
  }

  // ---------------------------------------------------------------------
  // Decimal text of an integer, as Python's `str(int)` writes it

  function Digit(d: nat): char
    requires d < 10
  {
    ('0' as int + d) as char
  }

  function DigitValue(c: char): int {
    c as int - '0' as int
  }

  predicate IsDigit(c: char) {
    '0' <= c <= '9'
  }

  /** The digits of `n`, most significant first, without leading zeros. */
  function NatText(n: nat): (r: string)
    ensures |r| > 0
    ensures n >= 10 ==> r[0] != '0'
    ensures forall i :: 0 <= i < |r| ==> IsDigit(r[i])
  {
    if n < 10 then [Digit(n)] else NatText(n / 10) + [Digit(n % 10)]
  }

  /** `str(i)` for a Python int. */
  function DecimalText(i: int): (r: string)
    ensures |r| > 0
  {
    if i < 0 then "-" + NatText(-i) else NatText(i)
  }

  /** The value a string of digits denotes. */
  function ParseNat(s: string): int {
    if s == [] then 0 else ParseNat(s[..|s| - 1]) * 10 + DigitValue(s[|s| - 1])
  }

  /** `int(s)` for the text `str` writes. */
  function ParseDecimal(s: string): int {
    if s != [] && s[0] == '-' then -ParseNat(s[1..]) else ParseNat(s)
  }

  lemma {:induction false} NatTextRoundTrip(n: nat)
    ensures ParseNat(NatText(n)) == n
  {
    if n >= 10 {
      NatTextRoundTrip(n / 10);
      var s := NatText(n / 10) + [Digit(n % 10)];
      assert s[..|s| - 1] == NatText(n / 10);
    }
  }

  /** `int(str(i)) == i`: the decimal text names the integer it came from,
      so distinct IDs have distinct texts. */
  lemma DecimalTextRoundTrip(i: int)
    ensures ParseDecimal(DecimalText(i)) == i
  {
    if i < 0 {
      NatTextRoundTrip(-i);
      assert ("-" + NatText(-i))[1..] == NatText(-i);
    } else {
      NatTextRoundTrip(i);
      assert NatText(i)[0] != '-';
    }
  }

  // ---------------------------------------------------------------------
  // Python's ordering of `str` values: code point by code point, a proper
  // prefix first.

  predicate LexLess(a: string, b: string) {
    if a == [] then b != []
    else if b == [] then false
    else if a[0] < b[0] then true
    else a[0] == b[0] && LexLess(a[1..], b[1..])
  }

  lemma {:induction false} LexLessIrreflexive(a: string)
    ensures !LexLess(a, a)
  {
    if a != [] {
      LexLessIrreflexive(a[1..]);
    }
  }

  lemma {:induction false} LexLessTransitive(a: string, b: string, c: string)
    requires LexLess(a, b) && LexLess(b, c)
    ensures LexLess(a, c)
  {
    if a != [] && a[0] == b[0] && b[0] == c[0] {
      LexLessTransitive(a[1..], b[1..], c[1..]);
    }
  }

  lemma {:induction false} LexLessTotal(a: string, b: string)
    requires a != b
    ensures LexLess(a, b) || LexLess(b, a)
  {
    if a != [] && b != [] && a[0] == b[0] {
      assert a == [a[0]] + a[1..] && b == [b[0]] + b[1..];
      LexLessTotal(a[1..], b[1..]);
    }
  }
}
