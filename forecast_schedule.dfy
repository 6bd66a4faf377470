/**
 * The release schedule of the weather agency's forecasts, which the weather clients
 * pick their request times against. Instants are minutes counted from today's
 * midnight in local time, so yesterday's instants are negative.
 */
module ForecastSchedule {
  import Text

  /** An hour and minute as the clock reports them. */
  predicate ValidTime(hour: int, minute: int) {
    0 <= hour < 24 && 0 <= minute < 60
  }

  /** The instant of `hour:minute` on the day `dayOffset` days from today. */
  function Instant(dayOffset: int, hour: int, minute: int): int {
    dayOffset * 1440 + hour * 60 + minute
  }

  /** The short-term forecast is issued every three hours from 02:00: 02:00, 05:00, ..., 23:00. */
  predicate IsShortTermIssue(t: int) {
    t % 180 == 120
  }

  /** An hour of the day at which the short-term forecast is issued. */
  predicate IsSlotHour(h: int) {
    0 <= h < 24 && IsShortTermIssue(Instant(0, h, 0))
  }

  /** The slot hours are 02, 05, ..., 23, and only these. */
  lemma SlotHours(h: int)
    ensures IsSlotHour(h) <==> 2 <= h <= 23 && h % 3 == 2
  {
  }

  /** The mid-term forecast is issued twice a day, at 06:00 and at 18:00. */
  predicate IsMidTermIssue(t: int) {
    t % 720 == 360
  }

  /** A forecast release a request names: its day offset from today and its hour. */
  datatype Release = Release(dayOffset: int, hour: int)

  /** A slot hour as the four-digit text the forecast request takes, `HH00`. */
  function SlotText(h: nat): (s: string)
    ensures h < 100 ==> |s| == 4
  {
    Text.Pad2(h) + "00"
  }
}
