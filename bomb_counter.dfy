/**
 * The remaining-bomb counter (molecules/BombCount): `String(count)` padded to
 * three glyphs by keeping the last three glyphs of `"000" + String(count)`.
 * There is no clamp, so large counts lose their high digits and negative
 * counts of three or more digits lose their minus sign.
 */
module BombCounter {
  import opened Digits

  /** `zeroPaddingCount`. */
  function ZeroPaddingCount(count: int): (r: string)
    ensures |r| == 3
    ensures r == ZeroPad(IntToString(count))
    ensures 0 <= count ==> r == Pad3(count % 1000)
    ensures -9 <= count <= -1 ==> r == ['0', '-', Digit(-count)]
    ensures -99 <= count <= -10 ==> r == ['-', Digit(-count / 10), Digit(-count % 10)]
    ensures count <= -100 ==> r == Pad3(-count % 1000)
  {
    var countStr := IntToString(count);
    if count >= 0 then
      ZeroPadNatToString(count);
      ZeroPad(countStr)
    else if count >= -9 then
      PadTwoGlyphs('-', Digit(-count));
      ZeroPad(countStr)
    else if count >= -99 then
      TwoGlyphs(-count);
      assert countStr == ['-', Digit(-count / 10), Digit(-count % 10)];
      ZeroPad(countStr)
    else
      PadLongNegative(-count);
      ZeroPad(countStr)
  }

  /** Past two digits the minus sign is cut off and three digits remain. */
  lemma PadLongNegative(m: nat)
    requires m >= 100
    ensures ZeroPad("-" + NatToString(m)) == Pad3(m % 1000)
  {
    var s := NatToString(m);
    NatToStringLength(m);
    ZeroPadNatToString(m);
    assert ("-" + s)[|"-" + s| - 3..] == s[|s| - 3..];
  }

  /** The counter shows the 3-digit numeral of every count from 0 to 999. */
  lemma ShowsSmallCounts(count: int)
    requires 0 <= count <= 999
    ensures ZeroPaddingCount(count) == Pad3(count)
    ensures Value(ZeroPaddingCount(count)) == count
  {
    assert count % 1000 == count;
  }

  /** A thousand bombs read as "000". */
  lemma ThousandWrapsToZero()
    ensures ZeroPaddingCount(1000) == "000"
  {
  }
}
