/**
 * `WeatherApiService`: picks the base date and base time of a short-term forecast
 * request, the release of a mid-term request, and condenses the forecast items of a
 * day into temperatures and one sky label. The HTTP calls around these are not part
 * of this model; the clock is passed in as an hour and a minute, dates as day offsets
 * from today, and `parseFloat` of a forecast value as the function `parseFloat`.
 */
module WeatherApi {
  import opened Wrappers
  import opened Exceptions
  import Text
  import JsValues
  import opened ForecastSchedule

  // ---------------------------------------------------------------------------
  // Request times
  // ---------------------------------------------------------------------------

  /** A short-term forecast is served from ten minutes after it is issued. */
  predicate ShortTermPublished(t: int, now: int) {
    IsShortTermIssue(t) && t + 10 < now
  }

  /** `getCurrentDate`: the base date, as a day offset from today. */
  function CurrentDateOffset(hour: int, minute: int): int {
    if hour < 2 || (hour == 2 && minute <= 10) then -1 else 0
  }

  /** The hour `getNearestPastBaseTime` picks. */
  function NearestPastBaseHour(hour: int, minute: int): (h: nat)
    ensures IsSlotHour(h)
  {
    if hour < 2 || (hour == 2 && minute <= 10) then 23
    else if hour < 5 || (hour == 5 && minute <= 10) then 2
    else if hour < 8 || (hour == 8 && minute <= 10) then 5
    else if hour < 11 || (hour == 11 && minute <= 10) then 8
    else if hour < 14 || (hour == 14 && minute <= 10) then 11
    else if hour < 17 || (hour == 17 && minute <= 10) then 14
    else if hour < 20 || (hour == 20 && minute <= 10) then 17
    else if hour < 23 || (hour == 23 && minute <= 10) then 20
    else 23
  }

  /** `getNearestPastBaseTime`: the base time as `HH00` text. */
  function NearestPastBaseTime(hour: int, minute: int): (s: string)
    ensures |s| == 4
  {
    SlotText(NearestPastBaseHour(hour, minute))
  }

  /**
   * Base date and base time together name the latest short-term forecast already
   * served: at 02:10 or earlier that is yesterday's 23:00 one, later the latest slot of
   * today whose ten minutes have passed.
   */
  lemma LatestPublishedForecast(hour: int, minute: int, u: int)
    requires ValidTime(hour, minute)
    ensures var t := Instant(CurrentDateOffset(hour, minute), NearestPastBaseHour(hour, minute), 0);
      && ShortTermPublished(t, Instant(0, hour, minute))
      && (ShortTermPublished(u, Instant(0, hour, minute)) ==> u <= t)
  {
    var now := Instant(0, hour, minute);
    var t := Instant(CurrentDateOffset(hour, minute), NearestPastBaseHour(hour, minute), 0);
    assert IsShortTermIssue(t) && now <= t + 190;
  }

  /** The base date is yesterday exactly until 02:10 has passed. */
  lemma BaseDateRollsOverAt0210(hour: int, minute: int)
    requires ValidTime(hour, minute)
    ensures CurrentDateOffset(hour, minute) == -1 <==> Instant(0, hour, minute) <= Instant(0, 2, 10)
    ensures CurrentDateOffset(hour, minute) == -1 ==> NearestPastBaseTime(hour, minute) == SlotText(23)
  {
  }

  /** The leading decimal digits of `s`. */
  function LeadingDigits(s: string): (d: string)
    ensures |d| <= |s| && d == s[..|d|]
    ensures forall i :: 0 <= i < |d| ==> Text.IsDigit(d[i])
    ensures |d| < |s| ==> !Text.IsDigit(s[|d|])
  {
    if |s| == 0 || !Text.IsDigit(s[0]) then ""
    else
      var rest := LeadingDigits(s[1..]);
      assert [s[0]] + rest == s[..|rest| + 1];
      [s[0]] + rest
  }

  /** `parseInt(s, 10)` on text that starts with a digit; `None` stands for `NaN`. */
  function ParseInt(s: string): Option<nat> {
    var d := LeadingDigits(s);
    if |d| == 0 then None else Some(Text.DigitsValue(d))
  }

  /** `addOneHour`: the next hour, zero-padded, followed by `00`; `NaN` when there is no hour to read. */
  function AddOneHour(baseTime: string): string {
    match ParseInt(Text.Slice(baseTime, 0, 2))
    case None => "NaN00"
    case Some(h) => SlotText(h + 1)
  }

  /** One hour after a base time, with no wrap at midnight: `2300` becomes `2400`. */
  lemma AddOneHourOfSlot(h: nat)
    requires h < 100
    ensures AddOneHour(SlotText(h)) == SlotText(h + 1)
  {
    var s := SlotText(h);
    var p := Text.Pad2(h);
    assert Text.Slice(s, 0, 2) == p;
    assert LeadingDigits(p) == p;
    PaddedValue(h);
  }

  /** The two digits of a padded number read back as the number. */
  lemma PaddedValue(h: nat)
    requires h < 100
    ensures Text.DigitsValue(Text.Pad2(h)) == h
  {
    var p := Text.Pad2(h);
    if h < 10 {
      assert p == ['0', Text.DigitChar(h)];
      assert p[..1] == ['0'] && p[..1][..0] == [];
      assert Text.DigitsValue(p[..1]) == Text.DigitsValue(p[..1][..0]) * 10 + Text.DigitValue('0') == 0;
      assert Text.DigitsValue(p) == Text.DigitsValue(p[..1]) * 10 + Text.DigitValue(p[1]);
      assert Text.DigitValue(Text.DigitChar(h)) == h;
    } else {
      Text.DigitsOfNatToString(h);
    }
  }

  /** `getMidTermBaseTime`. */
  function MidTermBaseTime(hour: int): Release {
    if hour < 6 then Release(-1, 18)
    else if hour < 18 then Release(0, 6)
    else Release(0, 18)
  }

  /** The mid-term base time is the latest mid-term release at or before now. */
  lemma MidTermLatestRelease(hour: int, minute: int, u: int)
    requires ValidTime(hour, minute)
    ensures var b := MidTermBaseTime(hour); var t := Instant(b.dayOffset, b.hour, 0);
      && IsMidTermIssue(t) && t <= Instant(0, hour, minute)
      && (IsMidTermIssue(u) && u <= Instant(0, hour, minute) ==> u <= t)
  {
    var b := MidTermBaseTime(hour);
    assert Instant(0, hour, minute) < Instant(b.dayOffset, b.hour, 0) + 720;
  }

  // ---------------------------------------------------------------------------
  // Sky status
  // ---------------------------------------------------------------------------

  const Rain := "비"
  const RainAndSnow := "비/눈"
  const Snow := "눈"
  const Shower := "소나기"
  const Clear := "맑음"
  const MostlyCloudy := "구름 많음"
  const Overcast := "흐림"
  const UnknownSky := "알 수 없음"

  /** A `PTY` code that reports precipitation. */
  predicate IsPrecipitation(pty: Option<string>) {
    pty == Some("1") || pty == Some("2") || pty == Some("3") || pty == Some("4")
  }

  /** A `SKY` code with a label of its own. */
  predicate IsKnownSky(sky: Option<string>) {
    sky == Some("1") || sky == Some("3") || sky == Some("4")
  }

  /** `getSkyStatus(skyValue, ptyValue)`; `None` stands for `null`. */
  function SkyStatus(sky: Option<string>, pty: Option<string>): (r: string)
    ensures IsPrecipitation(pty) <==> r in {Rain, RainAndSnow, Snow, Shower}
    ensures r == UnknownSky <==> !IsPrecipitation(pty) && !IsKnownSky(sky)
  {
    if pty == Some("1") then Rain
    else if pty == Some("2") then RainAndSnow
    else if pty == Some("3") then Snow
    else if pty == Some("4") then Shower
    else if sky == Some("1") then Clear
    else if sky == Some("3") then MostlyCloudy
    else if sky == Some("4") then Overcast
    else UnknownSky
  }

  /** Precipitation decides the label whatever the sky reports. */
  lemma PrecipitationOverridesSky(sky1: Option<string>, sky2: Option<string>, pty: Option<string>)
    requires IsPrecipitation(pty)
    ensures SkyStatus(sky1, pty) == SkyStatus(sky2, pty)
  {
  }

  /** Without precipitation the sky alone decides the label. */
  lemma SkyDecidesWithoutPrecipitation(sky: Option<string>, pty1: Option<string>, pty2: Option<string>)
    requires !IsPrecipitation(pty1) && !IsPrecipitation(pty2)
    ensures SkyStatus(sky, pty1) == SkyStatus(sky, pty2)
  {
  }

  // ---------------------------------------------------------------------------
  // Condensing the forecast items of a day
  // ---------------------------------------------------------------------------

  /** One entry of the forecast response: its category, its value and its forecast hour (`HHMM`). */
  datatype ForecastItem = ForecastItem(category: string, fcstValue: string, fcstTime: string)

  /** What `processWeatherData` and `processWeatherDataV2` return; `None` stands for `null`. */
  datatype DayWeather = DayWeather(
    currentTemperature: Option<int>,
    maxTemperature: Option<int>,
    minTemperature: Option<int>,
    skyStatus: string)

  /** The `TMP` values of `items`, parsed, in order. */
  function Temperatures(items: seq<ForecastItem>, parseFloat: string -> int): (ts: seq<int>)
    ensures |ts| <= |items|
  {
    if |items| == 0 then []
    else
      var last := items[|items| - 1];
      Temperatures(items[..|items| - 1], parseFloat) + (if last.category == "TMP" then [parseFloat(last.fcstValue)] else [])
  }

  /** Every parsed `TMP` value is among the temperatures, and nothing else is. */
  lemma {:induction false} TemperaturesAreTmpValues(items: seq<ForecastItem>, parseFloat: string -> int, x: int)
    ensures x in Temperatures(items, parseFloat) <==>
      exists i :: 0 <= i < |items| && items[i].category == "TMP" && parseFloat(items[i].fcstValue) == x
  {
    if |items| > 0 {
      var n := |items| - 1;
      TemperaturesAreTmpValues(items[..n], parseFloat, x);
      if exists i :: 0 <= i < n && items[..n][i].category == "TMP" && parseFloat(items[..n][i].fcstValue) == x {
        var i :| 0 <= i < n && items[..n][i].category == "TMP" && parseFloat(items[..n][i].fcstValue) == x;
        assert items[i] == items[..n][i];
      }
      if exists i :: 0 <= i < |items| && items[i].category == "TMP" && parseFloat(items[i].fcstValue) == x {
        var i :| 0 <= i < |items| && items[i].category == "TMP" && parseFloat(items[i].fcstValue) == x;
        if i < n {
          assert items[..n][i] == items[i];
        }
      }
    }
  }

  /** `Math.max(...ts)` on a non-empty list. */
  function MaxOf(ts: seq<int>): (m: int)
    requires |ts| > 0
    ensures m in ts && forall x :: x in ts ==> x <= m
  {
    if |ts| == 1 then ts[0]
    else
      var m := MaxOf(ts[..|ts| - 1]);
      assert forall x :: x in ts ==> x in ts[..|ts| - 1] || x == ts[|ts| - 1];
      if ts[|ts| - 1] > m then ts[|ts| - 1] else m
  }

  /** `Math.min(...ts)` on a non-empty list. */
  function MinOf(ts: seq<int>): (m: int)
    requires |ts| > 0
    ensures m in ts && forall x :: x in ts ==> m <= x
  {
    if |ts| == 1 then ts[0]
    else
      var m := MinOf(ts[..|ts| - 1]);
      assert forall x :: x in ts ==> x in ts[..|ts| - 1] || x == ts[|ts| - 1];
      if ts[|ts| - 1] < m then ts[|ts| - 1] else m
  }

  /** The item `i` is a `TMP` forecast for the hour `time`. */
  predicate TemperatureAt(items: seq<ForecastItem>, i: int, time: string) {
    0 <= i < |items| && items[i].category == "TMP" && items[i].fcstTime == time
  }

  /** The first `TMP` value forecast for the hour `time`. */
  function FirstTemperatureAt(items: seq<ForecastItem>, time: string, parseFloat: string -> int): Option<int> {
    if |items| == 0 then None
    else
      var first := FirstTemperatureAt(items[..|items| - 1], time, parseFloat);
      if first.Some? then first
      else if TemperatureAt(items, |items| - 1, time) then Some(parseFloat(items[|items| - 1].fcstValue))
      else None
  }

  /** The current temperature is the value of the earliest matching `TMP` item, and exists exactly when one does. */
  lemma {:induction false} FirstTemperatureIsEarliest(items: seq<ForecastItem>, time: string, parseFloat: string -> int)
    ensures FirstTemperatureAt(items, time, parseFloat).None? <==> forall i :: 0 <= i < |items| ==> !TemperatureAt(items, i, time)
    ensures FirstTemperatureAt(items, time, parseFloat).Some? ==> exists i ::
      && TemperatureAt(items, i, time)
      && FirstTemperatureAt(items, time, parseFloat).value == parseFloat(items[i].fcstValue)
      && forall j :: 0 <= j < i ==> !TemperatureAt(items, j, time)
  {
    if |items| > 0 {
      var n := |items| - 1;
      var front := items[..n];
      FirstTemperatureIsEarliest(front, time, parseFloat);
      assert forall j :: 0 <= j < n ==> (TemperatureAt(front, j, time) <==> TemperatureAt(items, j, time));
      if FirstTemperatureAt(front, time, parseFloat).Some? {
        var i :| && TemperatureAt(front, i, time)
          && FirstTemperatureAt(front, time, parseFloat).value == parseFloat(front[i].fcstValue)
          && forall j :: 0 <= j < i ==> !TemperatureAt(front, j, time);
        assert TemperatureAt(items, i, time) && items[i] == front[i];
      }
    }
  }

  /** The item `i` has the category `category` and the hour `time`. */
  predicate ValueAt(items: seq<ForecastItem>, i: int, category: string, time: string) {
    0 <= i < |items| && items[i].category == category && items[i].fcstTime == time
  }

  /** The value of the last item of `category` for the hour `time`: a later one overwrites an earlier one. */
  function LastValueAt(items: seq<ForecastItem>, category: string, time: string): Option<string> {
    if |items| == 0 then None
    else if ValueAt(items, |items| - 1, category, time) then Some(items[|items| - 1].fcstValue)
    else LastValueAt(items[..|items| - 1], category, time)
  }

  /** The value kept is the one of the latest matching item, and there is one exactly when an item matches. */
  lemma {:induction false} LastValueIsLatest(items: seq<ForecastItem>, category: string, time: string)
    ensures LastValueAt(items, category, time).None? <==> forall i :: 0 <= i < |items| ==> !ValueAt(items, i, category, time)
    ensures LastValueAt(items, category, time).Some? ==> exists i ::
      && ValueAt(items, i, category, time)
      && LastValueAt(items, category, time).value == items[i].fcstValue
      && forall j :: i < j < |items| ==> !ValueAt(items, j, category, time)
  {
    if |items| > 0 {
      var n := |items| - 1;
      var front := items[..n];
      if !ValueAt(items, n, category, time) {
        LastValueIsLatest(front, category, time);
        assert forall j :: 0 <= j < n ==> (ValueAt(front, j, category, time) <==> ValueAt(items, j, category, time));
        if LastValueAt(front, category, time).Some? {
          var i :| && ValueAt(front, i, category, time)
            && LastValueAt(front, category, time).value == front[i].fcstValue
            && forall j :: i < j < n ==> !ValueAt(front, j, category, time);
          assert ValueAt(items, i, category, time) && items[i] == front[i];
        }
      }
    }
  }

  /** The value `processWeatherData(items, baseTime)` returns. */
  function DayWeatherOf(items: seq<ForecastItem>, baseTime: string, parseFloat: string -> int): DayWeather {
    var next := AddOneHour(baseTime);
    var ts := Temperatures(items, parseFloat);
    DayWeather(
      FirstTemperatureAt(items, next, parseFloat),
      if |ts| > 0 then Some(MaxOf(ts)) else None,
      if |ts| > 0 then Some(MinOf(ts)) else None,
      SkyStatus(LastValueAt(items, "SKY", next), LastValueAt(items, "PTY", next)))
  }

  /**
   * `processWeatherData`: one pass over the items keeps the first `TMP` of the hour after
   * the base time as the current temperature, collects every `TMP` value for the
   * maximum and minimum, and keeps the last `SKY` and `PTY` value of that hour.
   */
  method ProcessWeatherData(items: seq<ForecastItem>, baseTime: string, parseFloat: string -> int)
    returns (w: DayWeather)
    ensures w == DayWeatherOf(items, baseTime, parseFloat)
  {
    var next := AddOneHour(baseTime);
    var currentTemperature: Option<int> := None;
    var skyStatus: Option<string> := None;
    var ptyValue: Option<string> := None;
    var temperatures: seq<int> := [];
    for i := 0 to |items|
      invariant temperatures == Temperatures(items[..i], parseFloat)
      invariant currentTemperature == FirstTemperatureAt(items[..i], next, parseFloat)
      invariant skyStatus == LastValueAt(items[..i], "SKY", next)
      invariant ptyValue == LastValueAt(items[..i], "PTY", next)
    {
      var item := items[i];
      assert items[..i + 1][..i] == items[..i] && items[..i + 1][i] == item;
      if item.category == "TMP" {
        var temperature := parseFloat(item.fcstValue);
        if currentTemperature == None && item.fcstTime == next {
          currentTemperature := Some(temperature);
        }
        temperatures := temperatures + [temperature];
      }
      if item.category == "SKY" && item.fcstTime == next {
        skyStatus := Some(item.fcstValue);
      }
      if item.category == "PTY" && item.fcstTime == next {
        ptyValue := Some(item.fcstValue);
      }
    }
    assert items[..|items|] == items;
    var maxTemperature: Option<int> := None;
    var minTemperature: Option<int> := None;
    if |temperatures| > 0 {
      maxTemperature := Some(MaxOf(temperatures));
      minTemperature := Some(MinOf(temperatures));
    }
    w := DayWeather(currentTemperature, maxTemperature, minTemperature, SkyStatus(skyStatus, ptyValue));
  }

  /** The maximum and minimum bound every `TMP` value of the day and are two of them. */
  lemma DayExtremes(items: seq<ForecastItem>, baseTime: string, parseFloat: string -> int, i: nat)
    requires i < |items| && items[i].category == "TMP"
    ensures var w := DayWeatherOf(items, baseTime, parseFloat);
      && w.maxTemperature.Some? && w.minTemperature.Some?
      && w.minTemperature.value <= parseFloat(items[i].fcstValue) <= w.maxTemperature.value
  {
    TemperaturesAreTmpValues(items, parseFloat, parseFloat(items[i].fcstValue));
  }

  /** Without any `TMP` item the maximum and minimum are `null`. */
  lemma NoTemperatures(items: seq<ForecastItem>, baseTime: string, parseFloat: string -> int)
    requires forall i :: 0 <= i < |items| ==> items[i].category != "TMP"
    ensures DayWeatherOf(items, baseTime, parseFloat).maxTemperature.None?
    ensures DayWeatherOf(items, baseTime, parseFloat).minTemperature.None?
  {
    var ts := Temperatures(items, parseFloat);
    if |ts| > 0 {
      TemperaturesAreTmpValues(items, parseFloat, ts[0]);
    }
  }

  // ---------------------------------------------------------------------------
  // The most frequent value, as `processWeatherDataV2` computes it
  // ---------------------------------------------------------------------------

  /** How often `v` occurs in `vs`. */
  function Count(vs: seq<string>, v: string): nat {
    multiset(vs)[v]
  }

  /** The distinct values of `vs` in order of first occurrence: the order they become keys of a fresh object. */
  function Distinct(vs: seq<string>): (ds: seq<string>)
    ensures forall x :: x in ds <==> x in vs
  {
    if |vs| == 0 then []
    else
      var front := vs[..|vs| - 1];
      assert forall x :: x in vs <==> x in front || x == vs[|vs| - 1];
      Distinct(front) + (if vs[|vs| - 1] in front then [] else [vs[|vs| - 1]])
  }

  /** The keys JavaScript enumerates first, ascending by value: array indices. */
  function IndexKeys(ks: seq<string>): (r: seq<string>)
    ensures forall x :: x in r <==> x in ks && JsValues.IsArrayIndex(x)
  {
    if |ks| == 0 then []
    else (if JsValues.IsArrayIndex(ks[0]) then [ks[0]] else []) + IndexKeys(ks[1..])
  }

  /** The other keys, which JavaScript enumerates after the indices in insertion order. */
  function OtherKeys(ks: seq<string>): (r: seq<string>)
    ensures forall x :: x in r <==> x in ks && !JsValues.IsArrayIndex(x)
  {
    if |ks| == 0 then []
    else (if JsValues.IsArrayIndex(ks[0]) then [] else [ks[0]]) + OtherKeys(ks[1..])
  }

  /** The numeric value of an array-index key. */
  function IndexValue(k: string): nat
    requires JsValues.IsArrayIndex(k)
  {
    Text.DigitsValue(k)
  }

  /** Index keys in ascending numeric order. */
  predicate AscendingIndices(ks: seq<string>) {
    && (forall i :: 0 <= i < |ks| ==> JsValues.IsArrayIndex(ks[i]))
    && (forall i, j :: 0 <= i < j < |ks| ==> IndexValue(ks[i]) <= IndexValue(ks[j]))
  }

  /** Inserts an index key into a list of index keys kept in ascending order. */
  function InsertIndex(k: string, sorted: seq<string>): (r: seq<string>)
    requires JsValues.IsArrayIndex(k) && AscendingIndices(sorted)
    ensures AscendingIndices(r)
    ensures forall x :: x in r <==> x in sorted || x == k
  {
    if |sorted| == 0 then [k]
    else if IndexValue(k) <= IndexValue(sorted[0]) then [k] + sorted
    else
      var rest := InsertIndex(k, sorted[1..]);
      assert forall x :: x in sorted <==> x == sorted[0] || x in sorted[1..];
      assert forall x :: x in rest ==> IndexValue(sorted[0]) <= IndexValue(x) by {
        forall x | x in rest ensures IndexValue(sorted[0]) <= IndexValue(x) {
          if x != k {
            var j :| 0 <= j < |sorted| - 1 && sorted[1..][j] == x;
            assert sorted[j + 1] == x;
          }
        }
      }
      ConsAscending(sorted[0], rest);
      [sorted[0]] + rest
  }

  lemma ConsAscending(k: string, rest: seq<string>)
    requires JsValues.IsArrayIndex(k) && AscendingIndices(rest)
    requires forall x :: x in rest ==> IndexValue(k) <= IndexValue(x)
    ensures AscendingIndices([k] + rest)
  {
    var r := [k] + rest;
    forall i, j | 0 <= i < j < |r| ensures IndexValue(r[i]) <= IndexValue(r[j]) {
      assert r[j] == rest[j - 1];
      if i > 0 {
        assert r[i] == rest[i - 1];
      } else {
        assert rest[j - 1] in rest;
      }
    }
  }

  /** Sorts index keys by value. */
  function SortIndices(ks: seq<string>): (r: seq<string>)
    requires forall i :: 0 <= i < |ks| ==> JsValues.IsArrayIndex(ks[i])
    ensures AscendingIndices(r)
    ensures forall x :: x in r <==> x in ks
  {
    if |ks| == 0 then []
    else
      assert forall x :: x in ks <==> x == ks[0] || x in ks[1..];
      InsertIndex(ks[0], SortIndices(ks[1..]))
  }

  /** `Object.keys` of an object whose keys were added in the order `ks`. */
  function EnumerationOrder(ks: seq<string>): (r: seq<string>)
    ensures forall x :: x in r <==> x in ks
  {
    var indices := IndexKeys(ks);
    assert forall i :: 0 <= i < |indices| ==> JsValues.IsArrayIndex(indices[i]) by {
      forall i | 0 <= i < |indices| ensures JsValues.IsArrayIndex(indices[i]) { assert indices[i] in indices; }
    }
    SortIndices(indices) + OtherKeys(ks)
  }

  /** The keys of the frequency table `vs.reduce((acc, v) => { acc[v] = (acc[v] || 0) + 1; ... }, {})`. */
  function FrequencyKeys(vs: seq<string>): (ks: seq<string>)
    ensures forall x :: x in ks <==> x in vs
  {
    EnumerationOrder(Distinct(vs))
  }

  /** `keys.reduce((a, b) => freq[a] > freq[b] ? a : b)` without an initial value. */
  function MostFrequentKey(keys: seq<string>, vs: seq<string>): (r: string)
    requires |keys| > 0
    ensures r in keys
    ensures forall k :: k in keys ==> Count(vs, k) <= Count(vs, r)
  {
    if |keys| == 1 then keys[0]
    else
      var front := keys[..|keys| - 1];
      var last := keys[|keys| - 1];
      var a := MostFrequentKey(front, vs);
      assert forall k :: k in keys ==> k in front || k == last;
      if Count(vs, a) > Count(vs, last) then a else last
  }

  /** `keys[i]` is `r` and every key after it is less frequent. */
  predicate LastOfTies(keys: seq<string>, vs: seq<string>, i: int, r: string) {
    0 <= i < |keys| && keys[i] == r && forall j :: i < j < |keys| ==> Count(vs, keys[j]) < Count(vs, r)
  }

  /** A tie goes to the later key: no key after the chosen one is as frequent. */
  lemma {:induction false} MostFrequentKeyIsLastOfTies(keys: seq<string>, vs: seq<string>)
    requires |keys| > 0
    ensures exists i :: LastOfTies(keys, vs, i, MostFrequentKey(keys, vs))
  {
    var n := |keys| - 1;
    if n > 0 {
      var front := keys[..n];
      var a := MostFrequentKey(front, vs);
      if Count(vs, a) > Count(vs, keys[n]) {
        MostFrequentKeyIsLastOfTies(front, vs);
        var i :| LastOfTies(front, vs, i, a);
        assert forall j :: i < j < n ==> keys[j] == front[j];
        assert MostFrequentKey(keys, vs) == a;
        assert LastOfTies(keys, vs, i, a);
      } else {
        assert MostFrequentKey(keys, vs) == keys[n];
        assert LastOfTies(keys, vs, n, keys[n]);
      }
    } else {
      assert MostFrequentKey(keys, vs) == keys[0];
      assert LastOfTies(keys, vs, 0, keys[0]);
    }
  }

  /** The most frequent value; `None` when `reduce` throws on an empty key list. */
  function Mode(vs: seq<string>): (r: Option<string>)
    ensures r.None? <==> |vs| == 0
    ensures r.Some? ==> r.value in vs && forall x :: x in vs ==> Count(vs, x) <= Count(vs, r.value)
  {
    if |vs| == 0 then None
    else
      assert vs[0] in FrequencyKeys(vs);
      Some(MostFrequentKey(FrequencyKeys(vs), vs))
  }

  /** The frequency keys are the index keys in ascending order followed by the other keys. */
  lemma FrequencyKeysShape(vs: seq<string>) returns (sorted: seq<string>, others: seq<string>)
    ensures FrequencyKeys(vs) == sorted + others
    ensures AscendingIndices(sorted)
    ensures forall x :: x in others ==> !JsValues.IsArrayIndex(x)
    ensures forall x :: x in vs && JsValues.IsArrayIndex(x) ==> x in sorted
  {
    var indices := IndexKeys(Distinct(vs));
    assert forall i :: 0 <= i < |indices| ==> JsValues.IsArrayIndex(indices[i]) by {
      forall i | 0 <= i < |indices| ensures JsValues.IsArrayIndex(indices[i]) { assert indices[i] in indices; }
    }
    sorted, others := SortIndices(indices), OtherKeys(Distinct(vs));
  }

  /** Among the most frequent values, the numerically largest index key wins: `SKY` codes tie towards `4`. */
  lemma ModeTieGoesToLargerCode(vs: seq<string>, x: string, y: string)
    requires x in vs && y in vs && JsValues.IsArrayIndex(x) && JsValues.IsArrayIndex(y)
    requires Count(vs, x) == Count(vs, y) && IndexValue(x) < IndexValue(y)
    ensures Mode(vs) != Some(x)
  {
    var ks := FrequencyKeys(vs);
    if MostFrequentKey(ks, vs) == x {
      var sorted, others := FrequencyKeysShape(vs);
      MostFrequentKeyIsLastOfTies(ks, vs);
      var i :| LastOfTies(ks, vs, i, x);
      var p :| 0 <= p < |sorted| && sorted[p] == y;
      InFront(sorted, others, i);
      InFront(sorted, others, p);
      AscendingPositions(sorted, i, p);
    }
  }

  /** A position of the front part of `a + b` reads `a`; a later one reads an element of `b`. */
  lemma InFront(a: seq<string>, b: seq<string>, i: int)
    requires 0 <= i < |a + b|
    ensures i < |a| ==> (a + b)[i] == a[i]
    ensures i >= |a| ==> (a + b)[i] in b
  {
    if i >= |a| {
      assert (a + b)[i] == b[i - |a|];
    }
  }

  /** In an ascending list a smaller value sits at an earlier position. */
  lemma AscendingPositions(sorted: seq<string>, i: int, p: int)
    requires AscendingIndices(sorted) && 0 <= i < |sorted| && 0 <= p < |sorted|
    requires IndexValue(sorted[i]) < IndexValue(sorted[p])
    ensures i < p
  {
  }

  /** The `SKY` or the `PTY` values of `items`, in order. */
  function ValuesOf(items: seq<ForecastItem>, category: string): (vs: seq<string>)
    ensures forall v :: v in vs <==> exists i :: 0 <= i < |items| && items[i].category == category && items[i].fcstValue == v
  {
    if |items| == 0 then []
    else
      var front := items[..|items| - 1];
      var last := items[|items| - 1];
      assert forall i :: 0 <= i < |front| ==> front[i] == items[i];
      ValuesOf(front, category) + (if last.category == category then [last.fcstValue] else [])
  }

  /** What `MostFrequentKey` throws when a category has no values while the other has some. */
  const EmptyReduce := TypeError("Reduce of empty array with no initial value")

  /** The value `processWeatherDataV2(items)` returns or throws. */
  function DayWeatherV2Of(items: seq<ForecastItem>, parseFloat: string -> int): Result<DayWeather, Error> {
    var ts := Temperatures(items, parseFloat);
    var skies := ValuesOf(items, "SKY");
    var ptys := ValuesOf(items, "PTY");
    var maxT := if |ts| > 0 then Some(MaxOf(ts)) else None;
    var minT := if |ts| > 0 then Some(MinOf(ts)) else None;
    if |skies| == 0 && |ptys| == 0 then Ok(DayWeather(None, maxT, minT, SkyStatus(None, None)))
    else if |skies| == 0 || |ptys| == 0 then Err(EmptyReduce)
    else Ok(DayWeather(None, maxT, minT, SkyStatus(Mode(skies), Mode(ptys))))
  }

  /**
   * `processWeatherDataV2`: one pass collects the `TMP`, `SKY` and `PTY` values; the
   * label comes from the most frequent `SKY` and `PTY` values of the whole day.
   */
  method ProcessWeatherDataV2(items: seq<ForecastItem>, parseFloat: string -> int)
    returns (r: Result<DayWeather, Error>)
    ensures r == DayWeatherV2Of(items, parseFloat)
  {
    var skyStatusList: seq<string> := [];
    var ptyValueList: seq<string> := [];
    var temperatures: seq<int> := [];
    for i := 0 to |items|
      invariant temperatures == Temperatures(items[..i], parseFloat)
      invariant skyStatusList == ValuesOf(items[..i], "SKY")
      invariant ptyValueList == ValuesOf(items[..i], "PTY")
    {
      var item := items[i];
      assert items[..i + 1][..i] == items[..i] && items[..i + 1][i] == item;
      if item.category == "TMP" {
        temperatures := temperatures + [parseFloat(item.fcstValue)];
      }
      if item.category == "SKY" {
        skyStatusList := skyStatusList + [item.fcstValue];
      }
      if item.category == "PTY" {
        ptyValueList := ptyValueList + [item.fcstValue];
      }
    }
    assert items[..|items|] == items;
    var maxTemperature: Option<int> := None;
    var minTemperature: Option<int> := None;
    if |temperatures| > 0 {
      maxTemperature := Some(MaxOf(temperatures));
      minTemperature := Some(MinOf(temperatures));
    }
    var skyStatus: Option<string> := None;
    var ptyValue: Option<string> := None;
    if |skyStatusList| > 0 || |ptyValueList| > 0 {
      skyStatus := Mode(skyStatusList);
      if skyStatus.None? {
        return Err(EmptyReduce);
      }
      ptyValue := Mode(ptyValueList);
      if ptyValue.None? {
        return Err(EmptyReduce);
      }
    }
    r := Ok(DayWeather(None, maxTemperature, minTemperature, SkyStatus(skyStatus, ptyValue)));
  }

  /** The day's label reports the most frequent `SKY` value when precipitation is not the most frequent `PTY` value. */
  lemma V2LabelFromMostFrequent(items: seq<ForecastItem>, parseFloat: string -> int)
    requires DayWeatherV2Of(items, parseFloat).Ok?
    requires exists i :: 0 <= i < |items| && items[i].category == "SKY"
    ensures var skies := ValuesOf(items, "SKY"); var ptys := ValuesOf(items, "PTY");
      && Mode(skies).Some? && Mode(ptys).Some?
      && DayWeatherV2Of(items, parseFloat).value.skyStatus == SkyStatus(Mode(skies), Mode(ptys))
      && DayWeatherV2Of(items, parseFloat).value.currentTemperature.None?
  {
    var i :| 0 <= i < |items| && items[i].category == "SKY";
    assert items[i].fcstValue in ValuesOf(items, "SKY");
  }
}
