/**
 * Decimal numerals and the three-glyph padding shared by the counters of the
 * game: the elapsed-time display and the remaining-bomb display.
 */
module Digits {

  predicate IsDigit(c: char) {
    '0' <= c <= '9'
  }

  predicate AllDigits(s: string) {
    forall k :: 0 <= k < |s| ==> IsDigit(s[k])
  }

  function DigitValue(c: char): nat
    requires IsDigit(c)
  {
    (c as int) - 48
  }

  /** The glyph of a single decimal digit. */
  function Digit(d: nat): (c: char)
    requires d < 10
    ensures IsDigit(c) && DigitValue(c) == d
  {
    (48 + d) as char
  }

  /**
   * The decimal numeral of `n`, most significant digit first and without
   * leading zeros: what JavaScript's `String(n)` gives for an integer
   * `0 <= n < 10^21` (from `10^21` on `String` switches to exponent notation).
   */
  function NatToString(n: nat): (s: string)
    ensures 1 <= |s| && AllDigits(s)
    ensures s[0] == '0' ==> n == 0
    decreases n
  {
    if n < 10 then [Digit(n)] else NatToString(n / 10) + [Digit(n % 10)]
  }

  /** The number a string of digits denotes. */
  function Value(s: string): nat
    requires AllDigits(s)
  {
    if s == [] then 0 else 10 * Value(s[..|s| - 1]) + DigitValue(s[|s| - 1])
  }

  /**
   * What JavaScript's `String(n)` gives for an integer `-10^21 < n < 10^21`:
   * a minus sign exactly for negative `n`, then the numeral of `|n|`.
   */
  function IntToString(n: int): (s: string)
    ensures 1 <= |s|
    ensures (s[0] == '-') <==> n < 0
    ensures n >= 0 ==> AllDigits(s) && Value(s) == n
    ensures n < 0 ==> AllDigits(s[1..]) && Value(s[1..]) == -n
    ensures n >= 0 ==> (s[0] == '0' ==> n == 0)
    ensures n < 0 ==> |s| >= 2 && s[1] != '0'
  {
    if n < 0 then
      ValueOfNatToString(-n);
      assert ("-" + NatToString(-n))[1..] == NatToString(-n);
      "-" + NatToString(-n)
    else
      ValueOfNatToString(n);
      NatToString(n)
  }

  /** Reading the numeral of `n` back gives `n`. */
  lemma {:induction false} ValueOfNatToString(n: nat)
    ensures Value(NatToString(n)) == n
    decreases n
  {
    if n >= 10 {
      var s := NatToString(n);
      ValueOfNatToString(n / 10);
      assert s[..|s| - 1] == NatToString(n / 10);
    }
  }

  /** The numeral of `n` has one glyph per decimal order of magnitude. */
  lemma {:induction false} NatToStringLength(n: nat)
    ensures n < 10 <==> |NatToString(n)| == 1
    ensures n < 100 <==> |NatToString(n)| <= 2
    ensures n < 1000 <==> |NatToString(n)| <= 3
    decreases n
  {
    if n >= 10 {
      NatToStringLength(n / 10);
    }
  }

  /** The three-glyph numeral of `n`, zero-padded on the left. */
  function Pad3(n: nat): (r: string)
    requires n < 1000
    ensures |r| == 3 && AllDigits(r)
    ensures Value(r) == n
  {
    var a, b, c := n / 100, n / 10 % 10, n % 10;
    var r := [Digit(a), Digit(b), Digit(c)];
    assert n / 10 == 10 * a + b;
    assert n == 10 * (n / 10) + c;
    assert r[..2][..1] == [Digit(a)];
    assert Value([Digit(a)]) == a by {
      assert [Digit(a)][..0] == [];
    }
    assert Value(r[..2]) == 10 * a + b;
    r
  }

  /**
   * `("000" + s).slice(s.length)`: the last three glyphs of `"000" + s`, that
   * is `s` padded on the left with '0' when it is short, and the last three
   * glyphs of `s` when it is long.
   */
  function ZeroPad(s: string): (r: string)
    ensures |r| == 3
    ensures |s| <= 3 ==> r == seq(3 - |s|, _ => '0') + s
    ensures |s| >= 3 ==> r == s[|s| - 3..]
  {
    var r := ("000" + s)[|s|..];
    assert |s| <= 3 ==> r == seq(3 - |s|, _ => '0') + s by {
      if |s| <= 3 {
        assert forall k :: 0 <= k < 3 ==> r[k] == (seq(3 - |s|, _ => '0') + s)[k];
      }
    }
    r
  }

  /** The last glyph of the numeral of `n` is its lowest decimal digit. */
  lemma LastGlyph(n: nat)
    ensures NatToString(n)[|NatToString(n)| - 1] == Digit(n % 10)
  {
  }

  /** The last three glyphs of a string ending in two given glyphs. */
  lemma TailThree(t: string, a: char, b: char)
    requires |t| >= 1
    ensures |t + [a] + [b]| >= 3 && (t + [a] + [b])[|t| - 1..] == [t[|t| - 1], a, b]
  {
  }

  /** The last three glyphs of the numeral of a number of three or more digits. */
  lemma LastThreeDigits(n: nat)
    requires n >= 100
    ensures var s := NatToString(n);
      |s| >= 3 && s[|s| - 3..] == [Digit(n / 100 % 10), Digit(n / 10 % 10), Digit(n % 10)]
  {
    var m := n / 10;
    var m2 := m / 10;
    Div100(n, m2, 10 * (m % 10) + n % 10);
    var t := NatToString(m2);
    LastGlyph(m2);
    assert NatToString(m) == t + [Digit(m % 10)];
    assert NatToString(n) == t + [Digit(m % 10)] + [Digit(n % 10)];
    TailThree(t, Digit(m % 10), Digit(n % 10));
  }

  /** The padded numeral of a number given by its three digits. */
  lemma Pad3Of(n: nat, h: nat, t: nat, u: nat)
    requires h < 10 && t < 10 && u < 10 && n == 100 * h + 10 * t + u
    ensures n < 1000 && Pad3(n) == [Digit(h), Digit(t), Digit(u)]
  {
    Div100(n, h, 10 * t + u);
    Div10(n, 10 * h + t, u);
    Div10(10 * h + t, h, t);
  }

  /**
   * Padding the numeral of `n` shows the last three decimal digits of `n`:
   * the full numeral when `n < 1000`.
   */
  lemma ZeroPadNatToString(n: nat)
    ensures ZeroPad(NatToString(n)) == Pad3(n % 1000)
  {
    if n < 10 {
      ZeroPadOneDigit(n);
    } else if n < 100 {
      ZeroPadTwoDigits(n);
    } else {
      ZeroPadLong(n);
    }
  }

  /** For a number below 1000 the padding shows the whole numeral. */
  lemma ZeroPadSmall(n: nat)
    requires n < 1000
    ensures ZeroPad(NatToString(n)) == Pad3(n)
  {
    ZeroPadNatToString(n);
    SmallRemainder(n);
  }

  lemma SmallRemainder(n: nat)
    requires n < 1000
    ensures n % 1000 == n && Pad3(n % 1000) == Pad3(n)
  {
  }

  lemma ZeroPadOneDigit(n: nat)
    requires n < 10
    ensures ZeroPad(NatToString(n)) == Pad3(n % 1000)
  {
    PadOneGlyph(Digit(n));
    Pad3Of(n % 1000, 0, 0, n);
  }

  lemma ZeroPadTwoDigits(n: nat)
    requires 10 <= n < 100
    ensures ZeroPad(NatToString(n)) == Pad3(n % 1000)
  {
    var t, u := n / 10, n % 10;
    TwoGlyphs(n);
    PadTwoGlyphs(Digit(t), Digit(u));
    Pad3Of(n % 1000, 0, t, u);
  }

  lemma TwoGlyphs(n: nat)
    requires 10 <= n < 100
    ensures NatToString(n) == [Digit(n / 10), Digit(n % 10)]
  {
    assert NatToString(n / 10) == [Digit(n / 10)];
  }

  lemma PadOneGlyph(a: char)
    ensures ZeroPad([a]) == [Digit(0), Digit(0), a]
  {
    assert seq(2, _ => '0') == ['0', '0'];
  }

  lemma PadTwoGlyphs(a: char, b: char)
    ensures ZeroPad([a, b]) == [Digit(0), a, b]
  {
    assert seq(1, _ => '0') == ['0'];
  }

  lemma ZeroPadLong(n: nat)
    requires 100 <= n
    ensures ZeroPad(NatToString(n)) == Pad3(n % 1000)
  {
    var s := NatToString(n);
    var h, t, u := n / 100 % 10, n / 10 % 10, n % 10;
    LastThreeDigits(n);
    DigitsOfRemainder(n);
    Pad3Of(n % 1000, h, t, u);
    assert ZeroPad(s) == s[|s| - 3..];
  }

  /** The remainder by 1000 keeps the hundreds, tens and units digits. */
  lemma DigitsOfRemainder(n: nat)
    ensures n % 1000 == 100 * (n / 100 % 10) + 10 * (n / 10 % 10) + n % 10
  {
    var q, r := n / 1000, n % 1000;
    var h, t, u := r / 100, r / 10 % 10, r % 10;
    assert r == 100 * h + 10 * t + u;
    Div100(n, 10 * q + h, 10 * t + u);
    Div10(10 * q + h, q, h);
    Div10(n, 100 * q + 10 * h + t, u);
    Div10(100 * q + 10 * h + t, 10 * q + h, t);
  }

  /** Division by ten with remainder has one answer. */
  lemma Div10(n: int, q: int, r: int)
    requires 0 <= r < 10 && n == 10 * q + r
    ensures n / 10 == q && n % 10 == r
  {
  }

  /** Division by a hundred with remainder has one answer. */
  lemma Div100(n: int, q: int, r: int)
    requires 0 <= r < 100 && n == 100 * q + r
    ensures n / 100 == q && n % 100 == r
  {
  }
}
