/**
 * The weather agency client's parsers and request times: which date and half-day a
 * land forecast entry (`numEf`) describes, the land forecast folded into one record
 * per date, the mid-term land and temperature forecasts laid out day by day, today's
 * highest and lowest temperature, and the mid-term base time. Dates are day numbers;
 * their `YYYY-MM-DD` text is left to the calendar.
 */
module KmaWeather {
  import opened Wrappers
  import opened Exceptions
  import Text
  import opened JsValues
  import opened ForecastSchedule

  /** `undefined[0]`: a table row or a response item that is not there is read. */
  const ReadOfUndefined := TypeError("Cannot read properties of undefined (reading '0')")

  // ---------------------------------------------------------------------------
  // Date and half-day of a land forecast entry
  // ---------------------------------------------------------------------------

  /** The three announcement windows the `numEf` tables are keyed by. */
  datatype TimeRange = From17To5 | From5To11 | From11To17

  function TimeRangeOf(hour: int): (r: TimeRange)
    ensures r == From17To5 <==> hour >= 17 || hour < 5
    ensures r == From5To11 <==> 5 <= hour < 11
    ensures r == From11To17 <==> 11 <= hour < 17
  {
    if hour >= 17 || hour < 5 then From17To5
    else if hour >= 5 && hour < 11 then From5To11
    else From11To17
  }

  /** Days after the announcement date, and whether the morning or the afternoon is meant. */
  datatype HalfDay = HalfDay(dayOffset: int, isMorning: bool)

  const Table17To5: seq<HalfDay> := [
    HalfDay(0, false), HalfDay(1, true), HalfDay(1, false), HalfDay(2, true), HalfDay(2, false),
    HalfDay(3, true), HalfDay(3, false), HalfDay(4, true), HalfDay(4, false)]

  const Table5To11: seq<HalfDay> := [
    HalfDay(0, true), HalfDay(0, false), HalfDay(1, true), HalfDay(1, false), HalfDay(2, true),
    HalfDay(2, false), HalfDay(3, true), HalfDay(3, false), HalfDay(4, true), HalfDay(4, false)]

  const Table11To17: seq<HalfDay> := [
    HalfDay(0, false), HalfDay(1, true), HalfDay(1, false), HalfDay(2, true), HalfDay(2, false),
    HalfDay(3, true), HalfDay(3, false)]

  function TableOf(range: TimeRange): seq<HalfDay> {
    match range
    case From17To5 => Table17To5
    case From5To11 => Table5To11
    case From11To17 => Table11To17
  }

  /**
   * `_getForecastDateAndHalfDay(announceTime, numEf)` for an announcement at `hour`;
   * `numEf` is `None` when `Number(item.numEf)` is `NaN`. A negative entry passes the
   * `numEf < table.length` guard and reads a row that is not there.
   */
  function ForecastHalfDay(hour: int, numEf: Option<int>): (r: Result<HalfDay, Error>)
    ensures r.Err? <==> numEf.Some? && numEf.value < 0
    ensures r.Err? ==> r.error == ReadOfUndefined
  {
    var table := TableOf(TimeRangeOf(hour));
    match numEf
    case None => Ok(HalfDay(0, false))
    case Some(n) =>
      if n >= |table| then Ok(HalfDay(0, false))
      else if n < 0 then Err(ReadOfUndefined)
      else Ok(table[n])
  }

  /** Announced between 05:00 and 11:00, entry `n` is day `n / 2`, the morning when `n` is even. */
  lemma MorningAnnouncementTable(hour: int, n: int)
    requires 5 <= hour < 11 && 0 <= n < 10
    ensures ForecastHalfDay(hour, Some(n)) == Ok(HalfDay(n / 2, n % 2 == 0))
  {
    assert n == 0 || n == 1 || n == 2 || n == 3 || n == 4 || n == 5 || n == 6 || n == 7 || n == 8 || n == 9;
  }

  /**
   * Announced from 17:00 to 05:00 (entries below 9) or from 11:00 to 17:00 (entries
   * below 7), entry `n` is day `(n + 1) / 2`, the morning when `n` is odd.
   */
  lemma OtherAnnouncementTables(hour: int, n: int)
    requires ((hour >= 17 || hour < 5) && 0 <= n < 9) || (11 <= hour < 17 && 0 <= n < 7)
    ensures ForecastHalfDay(hour, Some(n)) == Ok(HalfDay((n + 1) / 2, n % 2 == 1))
  {
    assert n == 0 || n == 1 || n == 2 || n == 3 || n == 4 || n == 5 || n == 6 || n == 7 || n == 8;
  }

  /** An entry past the table, or one that is not a number, is the afternoon of the announcement day. */
  lemma OutOfTable(hour: int, numEf: Option<int>)
    requires numEf.None? || numEf.value >= (if 5 <= hour < 11 then 10 else if 11 <= hour < 17 then 7 else 9)
    ensures ForecastHalfDay(hour, numEf) == Ok(HalfDay(0, false))
  {
  }

  // ---------------------------------------------------------------------------
  // The land forecast, one record per date
  // ---------------------------------------------------------------------------

  /** One land forecast entry: its announcement day and hour, `numEf`, `ta` and `wf`. */
  datatype LandItem = LandItem(announceDay: int, announceHour: int, numEf: Option<int>, ta: JsValue, wf: JsValue)

  /** A `WeatherForecast` record. */
  datatype Forecast = Forecast(date: int, minTemp: int, maxTemp: int, amSky: JsValue, pmSky: JsValue)

  /** A date's record before any entry has filled it in. */
  function BlankForecast(date: int): Forecast {
    Forecast(date, -999, -999, Str(""), Str(""))
  }

  /** `item.wf ?? ''`. */
  function SkyOf(item: LandItem): JsValue {
    if item.wf.Undefined? || item.wf.Null? then Str("") else item.wf
  }

  /** A morning entry fills the low and the morning sky, an afternoon entry the high and the afternoon sky. */
  function SetHalf(f: Forecast, isMorning: bool, temp: int, sky: JsValue): Forecast {
    if isMorning then f.(minTemp := temp, amSky := sky) else f.(maxTemp := temp, pmSky := sky)
  }

  /** `forecastMap[date]`. */
  function Find(fs: seq<Forecast>, date: int): Option<Forecast> {
    if |fs| == 0 then None
    else if fs[0].date == date then Some(fs[0])
    else Find(fs[1..], date)
  }

  predicate DistinctDates(fs: seq<Forecast>) {
    forall i, j :: 0 <= i < j < |fs| ==> fs[i].date != fs[j].date
  }

  /**
   * Filling in half of the record for `date`: the existing record in place, or a blank
   * one appended, as the insertion order of `forecastMap` keeps it.
   */
  function Upsert(fs: seq<Forecast>, date: int, isMorning: bool, temp: int, sky: JsValue): seq<Forecast> {
    if |fs| == 0 then [SetHalf(BlankForecast(date), isMorning, temp, sky)]
    else if fs[0].date == date then [SetHalf(fs[0], isMorning, temp, sky)] + fs[1..]
    else [fs[0]] + Upsert(fs[1..], date, isMorning, temp, sky)
  }

  /** A new date goes last; an existing one keeps every record's position and date. */
  lemma {:induction false} UpsertDates(fs: seq<Forecast>, date: int, isMorning: bool, temp: int, sky: JsValue)
    ensures var r := Upsert(fs, date, isMorning, temp, sky);
      && (Find(fs, date).None? ==> r == fs + [SetHalf(BlankForecast(date), isMorning, temp, sky)])
      && (Find(fs, date).Some? ==> |r| == |fs|)
      && forall i :: 0 <= i < |r| ==> r[i].date == (if i < |fs| then fs[i].date else date)
  {
    if |fs| > 0 && fs[0].date != date {
      UpsertDates(fs[1..], date, isMorning, temp, sky);
      var r := Upsert(fs, date, isMorning, temp, sky);
      assert forall i :: 1 <= i < |r| ==> r[i] == Upsert(fs[1..], date, isMorning, temp, sky)[i - 1];
    }
  }

  /** After filling in half of `date`'s record, that record has the new half and every other date reads as before. */
  lemma {:induction false} FindUpsert(fs: seq<Forecast>, date: int, isMorning: bool, temp: int, sky: JsValue, other: int)
    ensures Find(Upsert(fs, date, isMorning, temp, sky), other) ==
      if other == date then Some(SetHalf(Find(fs, date).GetOr(BlankForecast(date)), isMorning, temp, sky))
      else Find(fs, other)
  {
    if |fs| > 0 && fs[0].date != date {
      FindUpsert(fs[1..], date, isMorning, temp, sky, other);
    }
  }

  /** The date an entry is for, when its `numEf` can be looked up. */
  function ItemDate(item: LandItem): Option<int> {
    match ForecastHalfDay(item.announceHour, item.numEf)
    case Ok(h) => Some(item.announceDay + h.dayOffset)
    case Err(_) => None
  }

  /** The entry is for the given date and half-day. */
  predicate IsFor(item: LandItem, date: int, isMorning: bool) {
    var h := ForecastHalfDay(item.announceHour, item.numEf);
    h.Ok? && item.announceDay + h.value.dayOffset == date && h.value.isMorning == isMorning
  }

  /** The records `_parseLandFcst` collects from the entries so far. */
  function LandForecasts(items: seq<LandItem>, toNumber: JsValue -> int): (r: Result<seq<Forecast>, Error>)
    ensures r.Err? ==> r.error == ReadOfUndefined
  {
    if |items| == 0 then Ok([])
    else
      match LandForecasts(items[..|items| - 1], toNumber)
      case Err(e) => Err(e)
      case Ok(fs) => LandStep(fs, items[|items| - 1], toNumber)
  }

  /** One entry of the loop: look up its date and half-day, then fill in that half of the date's record. */
  function LandStep(fs: seq<Forecast>, item: LandItem, toNumber: JsValue -> int): (r: Result<seq<Forecast>, Error>)
    ensures r.Err? ==> r.error == ReadOfUndefined
  {
    match ForecastHalfDay(item.announceHour, item.numEf)
    case Err(e) => Err(e)
    case Ok(h) => Ok(Upsert(fs, item.announceDay + h.dayOffset, h.isMorning, toNumber(item.ta), SkyOf(item)))
  }

  /** No two records have the same date. */
  lemma {:induction false} LandDatesDistinct(items: seq<LandItem>, toNumber: JsValue -> int)
    requires LandForecasts(items, toNumber).Ok?
    ensures DistinctDates(LandForecasts(items, toNumber).value)
    decreases |items|
  {
    if |items| > 0 {
      var front := items[..|items| - 1];
      var item := items[|items| - 1];
      assert LandForecasts(front, toNumber).Ok?;
      LandDatesDistinct(front, toNumber);
      var fs := LandForecasts(front, toNumber).value;
      var h := ForecastHalfDay(item.announceHour, item.numEf).value;
      assert LandForecasts(items, toNumber) == LandStep(fs, item, toNumber);
      UpsertDistinct(fs, item.announceDay + h.dayOffset, h.isMorning, toNumber(item.ta), SkyOf(item));
    }
  }

  lemma {:induction false} FindSome(fs: seq<Forecast>, date: int, i: int)
    requires 0 <= i < |fs| && fs[i].date == date
    ensures Find(fs, date).Some?
  {
    if fs[0].date != date {
      FindSome(fs[1..], date, i - 1);
    }
  }

  lemma UpsertDistinct(fs: seq<Forecast>, date: int, isMorning: bool, temp: int, sky: JsValue)
    requires DistinctDates(fs)
    ensures DistinctDates(Upsert(fs, date, isMorning, temp, sky))
  {
    UpsertDates(fs, date, isMorning, temp, sky);
    if Find(fs, date).None? {
      forall i | 0 <= i < |fs|
        ensures fs[i].date != date
      {
        if fs[i].date == date {
          FindSome(fs, date, i);
        }
      }
    }
  }

  /** `_parseLandFcst`: entries fold into records, failing on an entry whose table row is missing. */
  method ParseLandFcst(items: Option<seq<LandItem>>, toNumber: JsValue -> int) returns (r: Result<seq<Forecast>, Error>)
    ensures r == LandForecasts(items.GetOr([]), toNumber)
  {
    var list := items.GetOr([]);
    var fs: seq<Forecast> := [];
    for i := 0 to |list|
      invariant LandForecasts(list[..i], toNumber) == Ok(fs)
    {
      var item := list[i];
      LandPrefixStep(list, i, fs, toNumber);
      var h := ForecastHalfDay(item.announceHour, item.numEf);
      if h.Err? {
        LandErrorPersists(list, i + 1, toNumber);
        assert h.error == ReadOfUndefined == LandForecasts(list, toNumber).error;
        return Err(h.error);
      }
      var date := item.announceDay + h.value.dayOffset;
      fs := Upsert(fs, date, h.value.isMorning, toNumber(item.ta), SkyOf(item));
    }
    assert list[..|list|] == list;
    return Ok(fs);
  }

  /** Folding in one more entry is one step of the loop. */
  lemma LandPrefixStep(items: seq<LandItem>, i: nat, fs: seq<Forecast>, toNumber: JsValue -> int)
    requires i < |items| && LandForecasts(items[..i], toNumber) == Ok(fs)
    ensures LandForecasts(items[..i + 1], toNumber) == LandStep(fs, items[i], toNumber)
  {
    assert items[..i + 1][..i] == items[..i];
  }

  /** Once an entry has failed, folding in more entries fails too. */
  lemma {:induction false} LandErrorPersists(items: seq<LandItem>, n: nat, toNumber: JsValue -> int)
    requires n <= |items| && LandForecasts(items[..n], toNumber).Err?
    ensures LandForecasts(items, toNumber).Err?
    decreases |items| - n
  {
    if n < |items| {
      assert items[..n + 1][..n] == items[..n];
      LandErrorPersists(items, n + 1, toNumber);
    } else {
      assert items[..n] == items;
    }
  }

  /** The last entry for `date` and the given half-day. */
  function LastFor(items: seq<LandItem>, date: int, isMorning: bool): Option<LandItem> {
    if |items| == 0 then None
    else if IsFor(items[|items| - 1], date, isMorning) then Some(items[|items| - 1])
    else LastFor(items[..|items| - 1], date, isMorning)
  }

  /** Some entry is for `date`. */
  predicate HasDate(items: seq<LandItem>, date: int) {
    exists i :: 0 <= i < |items| && ItemDate(items[i]) == Some(date)
  }

  /**
   * The record a date should have: the low and the morning sky of the last morning entry
   * for it, the high and the afternoon sky of the last afternoon entry, and `-999` or `''`
   * for a half no entry is for.
   */
  function ExpectedForecast(items: seq<LandItem>, date: int, toNumber: JsValue -> int): Option<Forecast> {
    if !HasDate(items, date) then None
    else
      var am := LastFor(items, date, true);
      var pm := LastFor(items, date, false);
      Some(Forecast(date,
        if am.Some? then toNumber(am.value.ta) else -999,
        if pm.Some? then toNumber(pm.value.ta) else -999,
        if am.Some? then SkyOf(am.value) else Str(""),
        if pm.Some? then SkyOf(pm.value) else Str("")))
  }

  /** Every date's record is the one its entries call for, and a date no entry is for has none. */
  lemma {:induction false} LandForecastsByDate(items: seq<LandItem>, toNumber: JsValue -> int, date: int)
    requires LandForecasts(items, toNumber).Ok?
    ensures Find(LandForecasts(items, toNumber).value, date) == ExpectedForecast(items, date, toNumber)
    decreases |items|
  {
    if |items| > 0 {
      var front := items[..|items| - 1];
      var item := items[|items| - 1];
      assert LandForecasts(front, toNumber).Ok?;
      LandForecastsByDate(front, toNumber, date);
      var fs := LandForecasts(front, toNumber).value;
      var h := ForecastHalfDay(item.announceHour, item.numEf).value;
      var d := item.announceDay + h.dayOffset;
      assert LandForecasts(items, toNumber) == LandStep(fs, item, toNumber);
      assert items == front + [item];
      FindUpsert(fs, d, h.isMorning, toNumber(item.ta), SkyOf(item), date);
      ExpectedSnoc(front, item, date, toNumber);
    }
  }

  /** One more entry changes only its own date's expected record, and only the half it is for. */
  lemma ExpectedSnoc(front: seq<LandItem>, item: LandItem, date: int, toNumber: JsValue -> int)
    requires ForecastHalfDay(item.announceHour, item.numEf).Ok?
    ensures var h := ForecastHalfDay(item.announceHour, item.numEf).value;
      ExpectedForecast(front + [item], date, toNumber) ==
      if item.announceDay + h.dayOffset == date then
        Some(SetHalf(ExpectedForecast(front, date, toNumber).GetOr(BlankForecast(date)), h.isMorning, toNumber(item.ta), SkyOf(item)))
      else ExpectedForecast(front, date, toNumber)
  {
    var items := front + [item];
    assert items[..|items| - 1] == front;
    HasDateSnoc(front, item, date);
    if !HasDate(front, date) {
      LastForHasDate(front, date, true);
      LastForHasDate(front, date, false);
    }
  }

  /** An entry for a date means some entry has that date. */
  lemma {:induction false} LastForHasDate(items: seq<LandItem>, date: int, isMorning: bool)
    ensures LastFor(items, date, isMorning).Some? ==> HasDate(items, date)
    decreases |items|
  {
    if |items| > 0 {
      var front := items[..|items| - 1];
      if IsFor(items[|items| - 1], date, isMorning) {
        assert ItemDate(items[|items| - 1]) == Some(date);
      } else {
        LastForHasDate(front, date, isMorning);
        if HasDate(front, date) {
          var i :| 0 <= i < |front| && ItemDate(front[i]) == Some(date);
          assert items[i] == front[i];
        }
      }
    }
  }

  lemma HasDateSnoc(front: seq<LandItem>, item: LandItem, date: int)
    ensures HasDate(front + [item], date) <==> HasDate(front, date) || ItemDate(item) == Some(date)
  {
    var items := front + [item];
    if HasDate(front, date) {
      var i :| 0 <= i < |front| && ItemDate(front[i]) == Some(date);
      assert items[i] == front[i];
    }
    if ItemDate(item) == Some(date) {
      assert items[|front|] == item;
    }
    if HasDate(items, date) {
      var i :| 0 <= i < |items| && ItemDate(items[i]) == Some(date);
      if i < |front| {
        assert front[i] == items[i];
      }
    }
  }

  /** The last entry for a date and half-day is the one at the highest position. */
  lemma {:induction false} LastForIsLatest(items: seq<LandItem>, date: int, isMorning: bool, i: int)
    requires 0 <= i < |items| && IsFor(items[i], date, isMorning)
    requires forall j :: i < j < |items| ==> !IsFor(items[j], date, isMorning)
    ensures LastFor(items, date, isMorning) == Some(items[i])
    decreases |items|
  {
    if i < |items| - 1 {
      var front := items[..|items| - 1];
      assert front[i] == items[i];
      assert !IsFor(items[|items| - 1], date, isMorning);
      forall j | i < j < |front|
        ensures !IsFor(front[j], date, isMorning)
      {
        assert front[j] == items[j];
      }
      LastForIsLatest(front, date, isMorning, i);
    }
  }

  /** No entry for a date and half-day means no last one. */
  lemma {:induction false} LastForNone(items: seq<LandItem>, date: int, isMorning: bool)
    requires forall j :: 0 <= j < |items| ==> !IsFor(items[j], date, isMorning)
    ensures LastFor(items, date, isMorning).None?
    decreases |items|
  {
    if |items| > 0 {
      var front := items[..|items| - 1];
      forall j | 0 <= j < |front|
        ensures !IsFor(front[j], date, isMorning)
      {
        assert front[j] == items[j];
      }
      LastForNone(front, date, isMorning);
    }
  }

  /** The fold fails exactly when some entry's `numEf` is negative. */
  lemma {:induction false} LandFailsOnNegativeEntry(items: seq<LandItem>, toNumber: JsValue -> int)
    ensures LandForecasts(items, toNumber).Err? <==>
      exists i :: 0 <= i < |items| && items[i].numEf.Some? && items[i].numEf.value < 0
    decreases |items|
  {
    if |items| > 0 {
      var front := items[..|items| - 1];
      LandFailsOnNegativeEntry(front, toNumber);
      if LandForecasts(front, toNumber).Ok? {
        assert LandForecasts(items, toNumber) == LandStep(LandForecasts(front, toNumber).value, items[|items| - 1], toNumber);
      }
      if exists i :: 0 <= i < |front| && front[i].numEf.Some? && front[i].numEf.value < 0 {
        var i :| 0 <= i < |front| && front[i].numEf.Some? && front[i].numEf.value < 0;
        assert items[i] == front[i];
      }
      if exists i :: 0 <= i < |items| && items[i].numEf.Some? && items[i].numEf.value < 0 {
        var i :| 0 <= i < |items| && items[i].numEf.Some? && items[i].numEf.value < 0;
        if i < |front| {
          assert front[i] == items[i];
        }
      }
    }
  }

  // ---------------------------------------------------------------------------
  // The mid-term land and temperature forecasts
  // ---------------------------------------------------------------------------

  /** `response.body` of a mid-term response: `totalCount` and `items.item`. */
  datatype MidTermBody = MidTermBody(totalCount: int, item: Option<seq<seq<Prop>>>)

  /** `body.items.item[0]`: `None` for an empty answer the parsers turn into `[]`. */
  function FirstItem(body: Option<MidTermBody>): (r: Result<Option<seq<Prop>>, Error>)
    ensures body.None? || body.value.totalCount == 0 ==> r == Ok(None)
    ensures body.Some? && body.value.totalCount != 0 && body.value.item.None? ==> r == Err(ReadOfUndefined)
    ensures r.Ok? && r.value.Some? <==>
      body.Some? && body.value.totalCount != 0 && body.value.item.Some? && |body.value.item.value| > 0
    ensures r.Ok? && r.value.Some? ==> r.value.value == body.value.item.value[0]
  {
    if body.None? || body.value.totalCount == 0 then Ok(None)
    else if body.value.item.None? then Err(ReadOfUndefined)
    else if |body.value.item.value| == 0 then Ok(None)
    else Ok(Some(body.value.item.value[0]))
  }

  /** `tmFc.slice(-4, -2) === '06' ? 4 : 5`: the first day after the announcement the forecast covers. */
  function StartDay(tmFc: string): (d: nat)
    ensures d == 4 || d == 5
  {
    if Text.Slice(tmFc, -4, -2) == "06" then 4 else 5
  }

  /** An announcement at 06:00 covers days 4 to 10, one at 18:00 days 5 to 10. */
  lemma StartDayOfAnnouncement(date: string)
    requires |date| == 8
    ensures StartDay(date + "0600") == 4
    ensures StartDay(date + "1800") == 5
  {
    var morning, evening := date + "0600", date + "1800";
    assert Text.Slice(morning, -4, -2) == morning[8..10] == "06";
    assert Text.Slice(evening, -4, -2) == evening[8..10] == "18";
  }

  /** A property name with the day number in it, such as `wf4Am` or `taMin10`. */
  function DayKey(prefix: string, d: nat, suffix: string): string {
    prefix + Text.NatToString(d) + suffix
  }

  /** The land record for day `d`: days up to 7 have a morning and an afternoon sky, later days one sky for both. */
  function MidLandDay(item: seq<Prop>, baseDay: int, d: nat): Forecast {
    if d <= 7 then Forecast(baseDay + d, -999, -999, Get(item, DayKey("wf", d, "Am")), Get(item, DayKey("wf", d, "Pm")))
    else
      var wf := Get(item, DayKey("wf", d, ""));
      Forecast(baseDay + d, -999, -999, wf, wf)
  }

  /** The temperature record for day `d`: `taMin{d}` and `taMax{d}` as numbers, no sky. */
  function MidTaDay(item: seq<Prop>, baseDay: int, d: nat, toNumber: JsValue -> int): Forecast {
    Forecast(baseDay + d, toNumber(Get(item, DayKey("taMin", d, ""))), toNumber(Get(item, DayKey("taMax", d, ""))), Str(""), Str(""))
  }

  /**
   * `_parseMidTermLand`: one record per day from the start day to day 10, counted from
   * `baseDay`, the date in `tmFc`.
   */
  method ParseMidTermLand(body: Option<MidTermBody>, tmFc: string, baseDay: int) returns (r: Result<seq<Forecast>, Error>)
    ensures FirstItem(body).Err? ==> r == Err(FirstItem(body).error)
    ensures FirstItem(body) == Ok(None) ==> r == Ok([])
    ensures FirstItem(body).Ok? && FirstItem(body).value.Some? ==>
      r.Ok? && |r.value| == 11 - StartDay(tmFc) &&
      forall k :: 0 <= k < |r.value| ==> r.value[k] == MidLandDay(FirstItem(body).value.value, baseDay, StartDay(tmFc) + k)
  {
    var first := FirstItem(body);
    if first.Err? {
      return Err(first.error);
    }
    if first.value.None? {
      return Ok([]);
    }
    var item := first.value.value;
    var startDay := StartDay(tmFc);
    var result: seq<Forecast> := [];
    var d := startDay;
    while d <= 10
      invariant startDay <= d <= 11
      invariant |result| == d - startDay
      invariant forall k :: 0 <= k < |result| ==> result[k] == MidLandDay(item, baseDay, startDay + k)
    {
      if d <= 7 {
        result := result + [Forecast(baseDay + d, -999, -999, Get(item, DayKey("wf", d, "Am")), Get(item, DayKey("wf", d, "Pm")))];
      } else {
        var wf := Get(item, DayKey("wf", d, ""));
        result := result + [Forecast(baseDay + d, -999, -999, wf, wf)];
      }
      d := d + 1;
    }
    return Ok(result);
  }

  /** `_parseMidTermTa`: one temperature record per day from the start day to day 10. */
  method ParseMidTermTa(body: Option<MidTermBody>, tmFc: string, baseDay: int, toNumber: JsValue -> int)
    returns (r: Result<seq<Forecast>, Error>)
    ensures FirstItem(body).Err? ==> r == Err(FirstItem(body).error)
    ensures FirstItem(body) == Ok(None) ==> r == Ok([])
    ensures FirstItem(body).Ok? && FirstItem(body).value.Some? ==>
      r.Ok? && |r.value| == 11 - StartDay(tmFc) &&
      forall k :: 0 <= k < |r.value| ==> r.value[k] == MidTaDay(FirstItem(body).value.value, baseDay, StartDay(tmFc) + k, toNumber)
  {
    var first := FirstItem(body);
    if first.Err? {
      return Err(first.error);
    }
    if first.value.None? {
      return Ok([]);
    }
    var item := first.value.value;
    var startDay := StartDay(tmFc);
    var result: seq<Forecast> := [];
    var d := startDay;
    while d <= 10
      invariant startDay <= d <= 11
      invariant |result| == d - startDay
      invariant forall k :: 0 <= k < |result| ==> result[k] == MidTaDay(item, baseDay, startDay + k, toNumber)
    {
      var minTemp := toNumber(Get(item, DayKey("taMin", d, "")));
      var maxTemp := toNumber(Get(item, DayKey("taMax", d, "")));
      result := result + [Forecast(baseDay + d, minTemp, maxTemp, Str(""), Str(""))];
      d := d + 1;
    }
    return Ok(result);
  }

  // ---------------------------------------------------------------------------
  // Today's highest and lowest temperature
  // ---------------------------------------------------------------------------

  /** A short-term forecast item: `category`, `fcstDate` and `fcstValue`. */
  datatype ShortTermItem = ShortTermItem(category: string, fcstDate: string, fcstValue: JsValue)

  /** `response.body` of a short-term response: `totalCount` and `items.item`. */
  datatype ShortTermBody = ShortTermBody(totalCount: int, item: Option<seq<ShortTermItem>>)

  /** A temperature forecast for today. */
  predicate TodayTmp(x: ShortTermItem, today: string) {
    x.category == "TMP" && x.fcstDate == today
  }

  /** The reduce of `_parseTodayMaxTemp`: the largest of `acc` and today's temperatures. */
  function FoldMax(items: seq<ShortTermItem>, today: string, toNumber: JsValue -> int, acc: int): (m: int)
    ensures m >= acc
    ensures forall i :: 0 <= i < |items| && TodayTmp(items[i], today) ==> m >= toNumber(items[i].fcstValue)
    ensures m == acc || exists i :: 0 <= i < |items| && TodayTmp(items[i], today) && m == toNumber(items[i].fcstValue)
    decreases |items|
  {
    if |items| == 0 then acc
    else
      var next := if TodayTmp(items[0], today) then Text.Max(acc, toNumber(items[0].fcstValue)) else acc;
      var m := FoldMax(items[1..], today, toNumber, next);
      assert forall i :: 1 <= i < |items| ==> items[i] == items[1..][i - 1];
      assert m != acc && m != next ==> exists i :: 1 <= i < |items| && TodayTmp(items[i], today) && m == toNumber(items[i].fcstValue);
      m
  }

  /** The reduce of `_parseTodayMinTemp`: the smallest of `acc` and today's temperatures. */
  function FoldMin(items: seq<ShortTermItem>, today: string, toNumber: JsValue -> int, acc: int): (m: int)
    ensures m <= acc
    ensures forall i :: 0 <= i < |items| && TodayTmp(items[i], today) ==> m <= toNumber(items[i].fcstValue)
    ensures m == acc || exists i :: 0 <= i < |items| && TodayTmp(items[i], today) && m == toNumber(items[i].fcstValue)
    decreases |items|
  {
    if |items| == 0 then acc
    else
      var next := if TodayTmp(items[0], today) then Text.Min(acc, toNumber(items[0].fcstValue)) else acc;
      var m := FoldMin(items[1..], today, toNumber, next);
      assert forall i :: 1 <= i < |items| ==> items[i] == items[1..][i - 1];
      assert m != acc && m != next ==> exists i :: 1 <= i < |items| && TodayTmp(items[i], today) && m == toNumber(items[i].fcstValue);
      m
  }

  /** `_parseTodayMaxTemp`, with today's `YYYYMMDD` as a parameter. */
  function TodayMaxTemp(body: Option<ShortTermBody>, today: string, toNumber: JsValue -> int): int {
    if body.None? || body.value.totalCount == 0 || body.value.item.None? then -999
    else FoldMax(body.value.item.value, today, toNumber, -999)
  }

  /** `_parseTodayMinTemp`, with today's `YYYYMMDD` as a parameter. */
  function TodayMinTemp(body: Option<ShortTermBody>, today: string, toNumber: JsValue -> int): int {
    if body.None? || body.value.totalCount == 0 || body.value.item.None? then -999
    else FoldMin(body.value.item.value, today, toNumber, 999)
  }

  /**
   * With items present, the high is at least every temperature for today and is one of
   * them unless it is the starting -999; the low likewise with the starting 999.
   */
  lemma TodayExtremes(body: ShortTermBody, today: string, toNumber: JsValue -> int, i: int)
    requires body.totalCount != 0 && body.item.Some? && 0 <= i < |body.item.value|
    requires TodayTmp(body.item.value[i], today)
    ensures TodayMinTemp(Some(body), today, toNumber) <= toNumber(body.item.value[i].fcstValue)
      <= TodayMaxTemp(Some(body), today, toNumber)
  {
  }

  predicate NoTodayTmp(items: seq<ShortTermItem>, today: string) {
    forall i :: 0 <= i < |items| ==> !TodayTmp(items[i], today)
  }

  /**
   * A missing or empty answer gives -999 for the high and the low alike, while an answer
   * without temperatures for today keeps the folds' starting values, -999 and 999.
   */
  lemma TodayWithoutTemperatures(body: Option<ShortTermBody>, today: string, toNumber: JsValue -> int)
    ensures body.None? || body.value.totalCount == 0 ==>
      TodayMaxTemp(body, today, toNumber) == -999 && TodayMinTemp(body, today, toNumber) == -999
    ensures body.Some? && body.value.totalCount != 0 && body.value.item.Some? && NoTodayTmp(body.value.item.value, today) ==>
      TodayMaxTemp(body, today, toNumber) == -999 && TodayMinTemp(body, today, toNumber) == 999
  {
  }

  // ---------------------------------------------------------------------------
  // The mid-term base time
  // ---------------------------------------------------------------------------

  /**
   * `_getMidTermBaseDateTime`: the release picked for the instant fifty minutes ago, on
   * that instant's own day.
   */
  function MidTermBaseDateTime(hour: int, minute: int): Release {
    var shifted := Instant(0, hour, minute) - 50;
    var dayShift := if shifted < 0 then -1 else 0;
    var h := (shifted - dayShift * 1440) / 60;
    if h < 6 then Release(dayShift - 1, 18)
    else if h < 18 then Release(dayShift, 6)
    else Release(dayShift, 18)
  }

  /** The base time is the latest mid-term release at least fifty minutes old. */
  lemma MidTermBaseLatest(hour: int, minute: int, u: int)
    requires ValidTime(hour, minute)
    ensures var b := MidTermBaseDateTime(hour, minute); var t := Instant(b.dayOffset, b.hour, 0);
      && IsMidTermIssue(t) && t <= Instant(0, hour, minute) - 50
      && (IsMidTermIssue(u) && u <= Instant(0, hour, minute) - 50 ==> u <= t)
  {
    var b := MidTermBaseDateTime(hour, minute);
    assert Instant(0, hour, minute) - 50 < Instant(b.dayOffset, b.hour, 0) + 720;
  }
}
