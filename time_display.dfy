/**
 * The elapsed-time counter of the game (molecules/Time): three glyphs showing
 * the seconds since the first click, frozen once the game is finished. The
 * clock is sampled outside the model; `nowSeconds` is the sampled time in
 * whole unix seconds and `startUnixTime`, `finishedUnixTime` the recorded
 * times, 0 meaning "not set".
 */
module TimeDisplay {
  import opened Digits

  /** Elapsed seconds limited to what three glyphs can show. */
  function Clamp(t: int): (c: nat)
    ensures c <= 999
    ensures 0 <= t <= 999 ==> c == t
    ensures t < 0 ==> c == 0
    ensures t > 999 ==> c == 999
  {
    if t <= 0 then 0 else if 999 <= t then 999 else t
  }

  /** `timeStr`: the decimal numeral of the elapsed seconds, clamped to 0..999. */
  function TimeStr(time: int): (s: string)
    ensures s == NatToString(Clamp(time))
    ensures 1 <= |s| <= 3 && AllDigits(s)
    ensures Value(s) == Clamp(time)
  {
    NatToStringLength(Clamp(time));
    ValueOfNatToString(Clamp(time));
    if time < 0 then
      "0"
    else if time >= 999 then
      assert NatToString(999) == NatToString(99) + "9";
      "999"
    else
      NatToString(time)
  }

  /**
   * `displayTime`: "000" before the game starts; once it is finished, the
   * clamped seconds between start and finish, whatever the clock says;
   * otherwise the clamped seconds between start and now. Always three digits.
   */
  function DisplayTime(startUnixTime: int, finishedUnixTime: int, nowSeconds: int): (r: string)
    ensures |r| == 3 && AllDigits(r)
    ensures startUnixTime == 0 ==> r == "000"
    ensures startUnixTime != 0 && finishedUnixTime != 0 ==> Value(r) == Clamp(finishedUnixTime - startUnixTime)
    ensures startUnixTime != 0 && finishedUnixTime == 0 ==> Value(r) == Clamp(nowSeconds - startUnixTime)
  {
    if startUnixTime == 0 then
      "000"
    else if finishedUnixTime != 0 then
      ShownTime(finishedUnixTime - startUnixTime)
    else
      ShownTime(nowSeconds - startUnixTime)
  }

  /** `zeroPaddingTime(timeStr(t))`: the three-glyph numeral of the clamped seconds. */
  function ShownTime(t: int): (r: string)
    ensures r == Pad3(Clamp(t))
  {
    ZeroPadSmall(Clamp(t));
    ZeroPad(TimeStr(t))
  }

  /** A finished game's display no longer depends on the clock. */
  lemma FinishedIgnoresClock(startUnixTime: int, finishedUnixTime: int, now1: int, now2: int)
    requires finishedUnixTime != 0
    ensures DisplayTime(startUnixTime, finishedUnixTime, now1) == DisplayTime(startUnixTime, finishedUnixTime, now2)
  {
  }
}
