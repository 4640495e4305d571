/** The severe-weather pass of `check_weather_forecast`: after the forecast
    list is thinned to one entry per day, the timestamp of every entry whose
    rain, wind or temperature crosses a fixed threshold is collected into
    `worst_weather_days`. */
module SevereWeather {
  import opened Forecast
  import opened Sequences
  import opened DailyFilter

  /** Heavy rain, in mm over three hours. */
  const RainThresholdMm: real := 1.6
  /** Strong wind, in the feed's unit. */
  const WindSpeedThreshold: real := 20.0
  /** Extreme heat, compared with the temperature as the feed gives it. */
  const HighTemperatureThreshold: real := 35.0
  /** Extreme cold, compared with the temperature as the feed gives it. */
  const LowTemperatureThreshold: real := 0.0

  /** The three-hour rain reading, 0 when the entry has none. */
  function RainOf(e: Entry): (mm: real)
    ensures e.rain.Some? ==> mm == e.rain.value
    ensures e.rain.None? ==> mm == 0.0
  {
    match e.rain
    case Some(mm) => mm
    case None => 0.0
  }

  /** The entry trips at least one of the four thresholds (bounds inclusive). */
  predicate IsSevere(e: Entry)
    ensures !IsSevere(e) <==>
      && RainOf(e) < RainThresholdMm
      && e.wind < WindSpeedThreshold
      && LowTemperatureThreshold < e.temp < HighTemperatureThreshold
  {
    || RainOf(e) >= RainThresholdMm
    || e.wind >= WindSpeedThreshold
    || e.temp >= HighTemperatureThreshold
    || e.temp <= LowTemperatureThreshold
  }

  ghost function SevereAt(days: seq<Entry>): int -> bool
  {
    i => 0 <= i < |days| && IsSevere(days[i])
  }

  /** The positions of `days` whose entry is severe, in order. */
  ghost function SevereIndices(days: seq<Entry>): seq<int>
  {
    Positions(|days|, SevereAt(days))
  }

  /** What the loop leaves in `worst_weather_days`: the timestamps of the
      severe entries, in input order. */
  function SevereDays(days: seq<Entry>): (dates: seq<string>)
    ensures |dates| <= |days|
  {
    if days == [] then []
    else
      var n := |days| - 1;
      SevereDays(days[..n]) + if IsSevere(days[n]) then [days[n].dtTxt] else []
  }

  /** The threshold loop of `check_weather_forecast`, run over the list that
      `filter_data` returned. */
  method WorstWeatherDays(filteredData: seq<Entry>) returns (worstWeatherDays: seq<string>)
    ensures worstWeatherDays == SevereDays(filteredData)
  {
    worstWeatherDays := [];
    for i := 0 to |filteredData|
      invariant worstWeatherDays == SevereDays(filteredData[..i])
    {
      var day := filteredData[i];
      var date := day.dtTxt;
      var rain := match day.rain case Some(mm) => mm case None => 0.0;
      var windSpeed := day.wind;
      var temperature := day.temp;
      assert filteredData[..i + 1][..i] == filteredData[..i];
      if || rain >= RainThresholdMm
         || windSpeed >= WindSpeedThreshold
         || temperature >= HighTemperatureThreshold
         || temperature <= LowTemperatureThreshold
      {
        worstWeatherDays := worstWeatherDays + [date];
      }
    }
    assert filteredData[..|filteredData|] == filteredData;
  }

  /** `check_weather_forecast` past its HTTP fetch: thin the forecast list to
      one entry per day, then collect the severe days. */
  method CheckWeatherForecast(forecast: seq<Entry>) returns (worstWeatherDays: seq<string>)
    ensures worstWeatherDays == SevereDays(FirstPerDay(forecast))
  {
    var filteredData := FilterData(forecast);
    worstWeatherDays := WorstWeatherDays(filteredData);
  }

  /** The output lists the timestamps of exactly the severe entries, one per
      severe entry and in input order: `SevereDays(days)[a]` is the timestamp
      of `days[SevereIndices(days)[a]]`. Stated for every prefix `days[..k]`. */
  lemma {:induction false} SevereDaysPrefix(days: seq<Entry>, k: nat)
    requires k <= |days|
    ensures |SevereDays(days[..k])| == |Positions(k, SevereAt(days))|
    ensures forall a :: 0 <= a < |Positions(k, SevereAt(days))| ==>
              SevereDays(days[..k])[a] == days[Positions(k, SevereAt(days))[a]].dtTxt
  {
    if k > 0 {
      var n := k - 1;
      assert days[..k][..n] == days[..n];
      SevereDaysPrefix(days, n);
      PositionsSnoc(n, SevereAt(days));
      assert SevereAt(days)(n) == IsSevere(days[..k][n]);
    }
  }

  /** The whole-list form of `SevereDaysPrefix`: as many timestamps as
      severe entries, listed in input order, every severe entry visited once. */
  lemma SevereDaysPicksSevereIndices(days: seq<Entry>)
    ensures |SevereDays(days)| == |SevereIndices(days)|
    ensures forall a :: 0 <= a < |SevereIndices(days)| ==>
              SevereDays(days)[a] == days[SevereIndices(days)[a]].dtTxt
    ensures forall a :: 0 <= a < |SevereIndices(days)| ==>
              0 <= SevereIndices(days)[a] < |days| && IsSevere(days[SevereIndices(days)[a]])
    ensures forall i :: 0 <= i < |days| && IsSevere(days[i]) ==> i in SevereIndices(days)
  {
    SevereDaysPrefix(days, |days|);
    assert days[..|days|] == days;
  }

  /** A timestamp is reported exactly when some entry carrying it is severe. */
  lemma {:induction false} SevereDaysMembership(days: seq<Entry>, date: string)
    ensures date in SevereDays(days) <==>
            exists i :: 0 <= i < |days| && days[i].dtTxt == date && IsSevere(days[i])
  {
    if days != [] {
      var n := |days| - 1;
      SevereDaysMembership(days[..n], date);
      if date in SevereDays(days[..n]) {
        var i :| 0 <= i < n && days[..n][i].dtTxt == date && IsSevere(days[..n][i]);
        assert days[i] == days[..n][i];
      }
      if exists i :: 0 <= i < |days| && days[i].dtTxt == date && IsSevere(days[i]) {
        var i :| 0 <= i < |days| && days[i].dtTxt == date && IsSevere(days[i]);
        if i < n {
          assert days[..n][i] == days[i];
        }
      }
    }
  }

  /** An absent rain reading behaves exactly like a reading of 0 mm. */
  lemma MissingRainIsZeroRain(e: Entry)
    ensures IsSevere(e.(rain := None)) == IsSevere(e.(rain := Some(0.0)))
    ensures e.wind < WindSpeedThreshold && LowTemperatureThreshold < e.temp < HighTemperatureThreshold
            ==> !IsSevere(e.(rain := None))
  {
  }

  /** The four thresholds have the values 1.6 mm, 20, 35 and 0, each
      bound inclusive, and an entry is flagged when any one is crossed. */
  lemma ThresholdValues(e: Entry)
    ensures IsSevere(e) <==> RainOf(e) >= 1.6 || e.wind >= 20.0 || e.temp >= 35.0 || e.temp <= 0.0
  {
  }

  /** The boundaries are inclusive: 1.6 mm, 35 and 0 are flagged; values
      just inside the benign range are not. */
  lemma ThresholdBoundaries()
    ensures IsSevere(Entry("d", Some(1.6), 0.0, 20.0))
    ensures !IsSevere(Entry("d", Some(1.599), 0.0, 20.0))
    ensures IsSevere(Entry("d", None, 20.0, 20.0))
    ensures !IsSevere(Entry("d", None, 19.999, 20.0))
    ensures IsSevere(Entry("d", None, 0.0, 35.0))
    ensures !IsSevere(Entry("d", None, 0.0, 34.999))
    ensures IsSevere(Entry("d", None, 0.0, 0.0))
    ensures !IsSevere(Entry("d", None, 0.0, 0.001))
  {
  }

  /** End to end: a timestamp is reported exactly when it belongs to the
      first entry of its day and that entry is severe. */
  lemma ForecastReportsFirstSevereEntries(forecast: seq<Entry>, date: string)
    ensures date in SevereDays(FirstPerDay(forecast)) <==>
            exists i :: IsFirstOfDay(forecast, i) && forecast[i].dtTxt == date && IsSevere(forecast[i])
  {
    var kept := FirstPerDay(forecast);
    FirstPerDayPicksFirstIndices(forecast);
    SevereDaysMembership(kept, date);
    var fi := FirstIndices(forecast);
    if date in SevereDays(kept) {
      var j :| 0 <= j < |kept| && kept[j].dtTxt == date && IsSevere(kept[j]);
      assert IsFirstOfDay(forecast, fi[j]) && kept[j] == forecast[fi[j]];
    }
    if exists i :: IsFirstOfDay(forecast, i) && forecast[i].dtTxt == date && IsSevere(forecast[i]) {
      var i :| IsFirstOfDay(forecast, i) && forecast[i].dtTxt == date && IsSevere(forecast[i]);
      var j :| 0 <= j < |fi| && fi[j] == i;
      assert kept[j] == forecast[i];
    }
  }

  /** End to end: no two reported timestamps share a day key. */
  lemma ForecastReportsDistinctDays(forecast: seq<Entry>)
    ensures forall a, b :: 0 <= a < b < |SevereDays(FirstPerDay(forecast))| ==>
              DayKey(SevereDays(FirstPerDay(forecast))[a]) != DayKey(SevereDays(FirstPerDay(forecast))[b])
  {
    var kept := FirstPerDay(forecast);
    var out := SevereDays(kept);
    FirstPerDayKeysDistinct(forecast);
    SevereDaysPicksSevereIndices(kept);
    var si := SevereIndices(kept);
    forall a, b | 0 <= a < b < |out| ensures DayKey(out[a]) != DayKey(out[b]) {
      assert si[a] < si[b];
      assert Key(kept[si[a]]) != Key(kept[si[b]]);
    }
  }

  /** When every reading is at or above the heat threshold, as any Kelvin
      reading of Earth weather is, every entry is reported. */
  lemma {:induction false} AllHotAllFlagged(days: seq<Entry>)
    requires forall i :: 0 <= i < |days| ==> days[i].temp >= HighTemperatureThreshold
    ensures |SevereDays(days)| == |days|
    ensures forall i :: 0 <= i < |days| ==> SevereDays(days)[i] == days[i].dtTxt
  {
    if days != [] {
      var n := |days| - 1;
      AllHotAllFlagged(days[..n]);
      forall i | 0 <= i < n ensures SevereDays(days)[i] == days[i].dtTxt {
        assert days[..n][i] == days[i];
      }
    }
  }

  /** A three-entry forecast over two days, with temperatures in Kelvin as
      the feed sends them when no unit system is requested: the second entry
      of 1 June is dropped, and as written both remaining days are flagged
      for heat, since any Kelvin reading of Earth weather exceeds 35. */
  lemma KelvinScenarioAsWritten()
    ensures
      var forecast := [Entry("2024-06-01 00:00:00", None, 5.0, 308.15),
                       Entry("2024-06-01 03:00:00", None, 5.0, 309.15),
                       Entry("2024-06-02 00:00:00", None, 25.0, 300.15)];
      && FirstPerDay(forecast) == [forecast[0], forecast[2]]
      && SevereDays(FirstPerDay(forecast)) == ["2024-06-01 00:00:00", "2024-06-02 00:00:00"]
  {
    var forecast := [Entry("2024-06-01 00:00:00", None, 5.0, 308.15),
                     Entry("2024-06-01 03:00:00", None, 5.0, 309.15),
                     Entry("2024-06-02 00:00:00", None, 25.0, 300.15)];
    DayKeyOfTimestamp(forecast[0].dtTxt, forecast[1].dtTxt);
    DayKeyOfTimestamp(forecast[0].dtTxt, forecast[2].dtTxt);
    assert forecast[0].dtTxt[..10] == forecast[1].dtTxt[..10];
    assert forecast[0].dtTxt[9] != forecast[2].dtTxt[9];
    assert forecast[..1] == [forecast[0]];
    assert forecast[..2] == [forecast[0], forecast[1]];
    assert [forecast[0]][..0] == [];
    assert [forecast[0], forecast[1]][..1] == [forecast[0]];
    KeysOfSnoc([], forecast[0]);
    assert FirstPerDay(forecast[..1]) == [forecast[0]];
    assert FirstPerDay(forecast[..2]) == [forecast[0]];
    assert forecast[..3] == forecast;
    var kept := [forecast[0], forecast[2]];
    assert kept[..1] == [forecast[0]];
  }
}
