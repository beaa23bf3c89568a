/**
 * The elapsed-time label of atoms/Time: the same counter as molecules/Time,
 * written with an early return of "000" before the game starts. Its
 * `timeStr` and `zeroPaddingTime` are the same expressions as those of
 * molecules/Time, so the model reuses them from `TimeDisplay`.
 */
module TimeLabel {
  import opened Digits
  import TimeDisplay

  /** The text the label renders. */
  function Render(startUnixTime: int, finishedUnixTime: int, nowSeconds: int): (r: string)
    ensures |r| == 3 && AllDigits(r)
    ensures startUnixTime == 0 ==> r == "000"
    ensures startUnixTime != 0 && finishedUnixTime != 0 ==>
      r == Pad3(TimeDisplay.Clamp(finishedUnixTime - startUnixTime))
    ensures startUnixTime != 0 && finishedUnixTime == 0 ==>
      r == Pad3(TimeDisplay.Clamp(nowSeconds - startUnixTime))
  {
    if startUnixTime == 0 then
      "000"
    else if finishedUnixTime != 0 then
      TimeDisplay.ShownTime(finishedUnixTime - startUnixTime)
    else
      TimeDisplay.ShownTime(nowSeconds - startUnixTime)
  }

  /** The label and the molecule counter always show the same three glyphs. */
  lemma SameAsDisplayTime(startUnixTime: int, finishedUnixTime: int, nowSeconds: int)
    ensures Render(startUnixTime, finishedUnixTime, nowSeconds)
         == TimeDisplay.DisplayTime(startUnixTime, finishedUnixTime, nowSeconds)
  {
  }
}
