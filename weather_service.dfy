/**
 * The short-term forecast service: the base time it asks the forecast for, and the
 * grouping of the forecast items into one record per forecast date and time. A
 * JavaScript `Map` is a map together with the order its keys were first set in.
 */
module WeatherService {
  import opened Wrappers
  import Text
  import opened ForecastSchedule

  // ---------------------------------------------------------------------------
  // The base time
  // ---------------------------------------------------------------------------

  /** The hour of `getBaseTime(date)` for the local hour `hour`. */
  function BaseHour(hour: int): int {
    if hour < 2 then 23
    else if hour < 5 then 2
    else if hour < 8 then 5
    else if hour < 11 then 8
    else if hour < 14 then 11
    else if hour < 17 then 14
    else if hour < 20 then 17
    else if hour < 23 then 20
    else 23
  }

  /** `getBaseTime(date)`: the base hour as `HH00`. */
  function BaseTime(hour: int): (s: string)
    ensures |s| == 4
  {
    SlotText(BaseHour(hour))
  }

  /**
   * From 02:00 on, the base hour is the latest slot hour not after the hour; before
   * 02:00 it is 23, the last slot of the day.
   */
  lemma BaseHourIsLatestSlot(hour: int, u: int)
    requires 0 <= hour < 24
    ensures IsSlotHour(BaseHour(hour))
    ensures hour < 2 ==> BaseHour(hour) == 23
    ensures hour >= 2 ==> BaseHour(hour) <= hour && (IsSlotHour(u) && u <= hour ==> u <= BaseHour(hour))
  {
    SlotHours(BaseHour(hour));
    SlotHours(u);
  }

  // ---------------------------------------------------------------------------
  // Grouping the forecast items
  // ---------------------------------------------------------------------------

  /** A forecast item: `fcstDate`, `fcstTime`, `category` and `fcstValue`. */
  datatype WeatherItem = WeatherItem(fcstDate: string, fcstTime: string, category: string, fcstValue: string)

  /** A `WeatherForecast` record; `None` is `null`. */
  datatype WeatherForecast = WeatherForecast(date: string, temperature: Option<int>, humidity: Option<int>)

  /** `${fcstDate}-${fcstTime}`. */
  function KeyOf(date: string, time: string): string {
    date + "-" + time
  }

  function Key(item: WeatherItem): string {
    KeyOf(item.fcstDate, item.fcstTime)
  }

  /** The record a key starts with: the label `${fcstDate} ${fcstTime}` and no values. */
  function Fresh(item: WeatherItem): WeatherForecast {
    WeatherForecast(item.fcstDate + " " + item.fcstTime, None, None)
  }

  /** The `switch` on the category: `TMP` sets the temperature, `REH` the humidity, anything else nothing. */
  function Absorb(f: WeatherForecast, item: WeatherItem, parseFloat: string -> int): WeatherForecast {
    if item.category == "TMP" then f.(temperature := Some(parseFloat(item.fcstValue)))
    else if item.category == "REH" then f.(humidity := Some(parseFloat(item.fcstValue)))
    else f
  }

  /** The entries of `weatherMap` after the given items. */
  function Grouped(items: seq<WeatherItem>, parseFloat: string -> int): map<string, WeatherForecast> {
    if |items| == 0 then map[]
    else
      var m := Grouped(items[..|items| - 1], parseFloat);
      var item := items[|items| - 1];
      var f := if Key(item) in m then m[Key(item)] else Fresh(item);
      m[Key(item) := Absorb(f, item, parseFloat)]
  }

  /** The keys of `weatherMap` in the order they were first set: each distinct key once, at its first item. */
  function KeyOrder(items: seq<WeatherItem>): seq<string> {
    if |items| == 0 then []
    else
      var o := KeyOrder(items[..|items| - 1]);
      var k := Key(items[|items| - 1]);
      if k in o then o else o + [k]
  }

  /** Each key of the items is listed, and only once. */
  lemma {:induction false} KeyOrderKeys(items: seq<WeatherItem>)
    ensures forall a, b :: 0 <= a < b < |KeyOrder(items)| ==> KeyOrder(items)[a] != KeyOrder(items)[b]
    ensures forall k :: k in KeyOrder(items) <==> exists i :: 0 <= i < |items| && Key(items[i]) == k
    decreases |items|
  {
    if |items| > 0 {
      var front := items[..|items| - 1];
      KeyOrderKeys(front);
      var o, o' := KeyOrder(front), KeyOrder(items);
      forall k
        ensures k in o' <==> exists i :: 0 <= i < |items| && Key(items[i]) == k
      {
        if k in o {
          var i :| 0 <= i < |front| && Key(front[i]) == k;
          assert items[i] == front[i];
        } else if k in o' {
          assert Key(items[|items| - 1]) == k;
        }
        if exists i :: 0 <= i < |items| && Key(items[i]) == k {
          var i :| 0 <= i < |items| && Key(items[i]) == k;
          if i < |front| {
            assert front[i] == items[i];
          }
        }
      }
    }
  }

  /** The map and the key order hold the same keys. */
  lemma {:induction false} GroupedKeys(items: seq<WeatherItem>, parseFloat: string -> int)
    ensures forall k :: k in Grouped(items, parseFloat) <==> k in KeyOrder(items)
    decreases |items|
  {
    if |items| > 0 {
      GroupedKeys(items[..|items| - 1], parseFloat);
    }
  }

  /** `Array.from(weatherMap.values())`. */
  function GroupedRecords(items: seq<WeatherItem>, parseFloat: string -> int): seq<WeatherForecast> {
    var m := Grouped(items, parseFloat);
    var o := KeyOrder(items);
    GroupedKeys(items, parseFloat);
    seq(|o|, k requires 0 <= k < |o| => m[o[k]])
  }

  /** `parseWeatherData(items)`. */
  method ParseWeatherData(items: seq<WeatherItem>, parseFloat: string -> int) returns (r: seq<WeatherForecast>)
    ensures r == GroupedRecords(items, parseFloat)
  {
    var weatherMap: map<string, WeatherForecast> := map[];
    var order: seq<string> := [];
    for i := 0 to |items|
      invariant weatherMap == Grouped(items[..i], parseFloat)
      invariant order == KeyOrder(items[..i])
    {
      var item := items[i];
      assert items[..i + 1][..i] == items[..i] && items[..i + 1][i] == item;
      GroupedKeys(items[..i], parseFloat);
      ghost var before := if Key(item) in weatherMap then weatherMap[Key(item)] else Fresh(item);
      assert Grouped(items[..i + 1], parseFloat) == weatherMap[Key(item) := Absorb(before, item, parseFloat)];
      var key := item.fcstDate + "-" + item.fcstTime;
      if key !in weatherMap {
        weatherMap := weatherMap[key := WeatherForecast(item.fcstDate + " " + item.fcstTime, None, None)];
        order := order + [key];
      }
      var forecast := weatherMap[key];
      if item.category == "TMP" {
        forecast := forecast.(temperature := Some(parseFloat(item.fcstValue)));
      } else if item.category == "REH" {
        forecast := forecast.(humidity := Some(parseFloat(item.fcstValue)));
      }
      assert forecast == Absorb(before, item, parseFloat);
      weatherMap := weatherMap[key := forecast];
    }
    assert items[..|items|] == items;
    GroupedKeys(items, parseFloat);
    r := seq(|order|, k requires 0 <= k < |order| => weatherMap[order[k]]);
  }

  /** The first item with key `k`. */
  function FirstWith(items: seq<WeatherItem>, k: string): Option<WeatherItem> {
    if |items| == 0 then None
    else
      var earlier := FirstWith(items[..|items| - 1], k);
      if earlier.Some? then earlier
      else if Key(items[|items| - 1]) == k then Some(items[|items| - 1])
      else None
  }

  /** The value of the last item with key `k` and category `category`, parsed. */
  function LastValue(items: seq<WeatherItem>, k: string, category: string, parseFloat: string -> int): Option<int> {
    if |items| == 0 then None
    else
      var item := items[|items| - 1];
      if Key(item) == k && item.category == category then Some(parseFloat(item.fcstValue))
      else LastValue(items[..|items| - 1], k, category, parseFloat)
  }

  /**
   * A key's record is labelled after its first item, holds the last `TMP` value as the
   * temperature and the last `REH` value as the humidity, and `null` where there is none.
   */
  lemma {:induction false} GroupedRecord(items: seq<WeatherItem>, parseFloat: string -> int, k: string)
    requires k in Grouped(items, parseFloat)
    ensures FirstWith(items, k).Some?
    ensures Grouped(items, parseFloat)[k] == WeatherForecast(
      Fresh(FirstWith(items, k).value).date, LastValue(items, k, "TMP", parseFloat), LastValue(items, k, "REH", parseFloat))
    decreases |items|
  {
    var front := items[..|items| - 1];
    var item := items[|items| - 1];
    if k in Grouped(front, parseFloat) {
      GroupedRecord(front, parseFloat, k);
    } else {
      GroupedKeys(front, parseFloat);
      KeyOrderKeys(front);
      FirstWithNone(front, parseFloat, k);
      LastValueNone(front, k, "TMP", parseFloat);
      LastValueNone(front, k, "REH", parseFloat);
    }
  }

  lemma {:induction false} FirstWithNone(items: seq<WeatherItem>, parseFloat: string -> int, k: string)
    requires k !in Grouped(items, parseFloat)
    ensures FirstWith(items, k).None?
    decreases |items|
  {
    if |items| > 0 {
      FirstWithNone(items[..|items| - 1], parseFloat, k);
    }
  }

  lemma {:induction false} LastValueNone(items: seq<WeatherItem>, k: string, category: string, parseFloat: string -> int)
    requires forall i :: 0 <= i < |items| ==> Key(items[i]) != k
    ensures LastValue(items, k, category, parseFloat).None?
    decreases |items|
  {
    if |items| > 0 {
      var front := items[..|items| - 1];
      assert forall i :: 0 <= i < |front| ==> front[i] == items[i];
      LastValueNone(front, k, category, parseFloat);
    }
  }

  /** The records come in the order their keys first occur: a key listed later first occurs later. */
  lemma {:induction false} KeyOrderFollowsItems(items: seq<WeatherItem>, a: int, b: int, j: int)
    requires 0 <= a < b < |KeyOrder(items)| && 0 <= j < |items| && Key(items[j]) == KeyOrder(items)[b]
    ensures exists i :: 0 <= i < j && Key(items[i]) == KeyOrder(items)[a]
    decreases |items|
  {
    var front := items[..|items| - 1];
    var o := KeyOrder(front);
    KeyOrderKeys(front);
    assert forall i :: 0 <= i < |front| ==> front[i] == items[i];
    if j == |items| - 1 {
      if b < |o| {
        var i :| 0 <= i < |front| && Key(front[i]) == o[b];
        KeyOrderFollowsItems(front, a, b, i);
      } else {
        assert KeyOrder(items)[a] == o[a] && o[a] in o;
        var i :| 0 <= i < |front| && Key(front[i]) == o[a];
      }
    } else {
      KeyOrderFollowsItems(front, a, b, j);
    }
  }

  /**
   * Dates without a `-` make the key `${fcstDate}-${fcstTime}` determine the date and
   * the time, so each record then belongs to exactly one date and time.
   */
  lemma KeyDeterminesDateAndTime(d1: string, t1: string, d2: string, t2: string)
    requires '-' !in d1 && '-' !in d2
    ensures KeyOf(d1, t1) == KeyOf(d2, t2) <==> d1 == d2 && t1 == t2
  {
    var k1, k2 := KeyOf(d1, t1), KeyOf(d2, t2);
    FirstDash(d1, t1);
    FirstDash(d2, t2);
    if k1 == k2 {
      assert |d1| == |d2|;
      assert d1 == k1[..|d1|] == k2[..|d2|] == d2;
      assert t1 == k1[|d1| + 1..] == k2[|d2| + 1..] == t2;
    }
  }

  /** The first `-` of a key is the one after a date without dashes. */
  lemma FirstDash(d: string, t: string)
    requires '-' !in d
    ensures KeyOf(d, t)[|d|] == '-'
    ensures forall i :: 0 <= i < |d| ==> KeyOf(d, t)[i] != '-'
  {
    assert forall i :: 0 <= i < |d| ==> KeyOf(d, t)[i] == d[i];
  }

  /** Dates with a `-` can collide: the items of two different dates and times then share one record. */
  lemma KeysCollideOnDashes()
    ensures KeyOf("2024-01", "01") == KeyOf("2024", "01-01")
  {
  }
}
