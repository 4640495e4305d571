# Weather-aware crop advisor: forecast filtering and severe-day flagging

The script `app.py` asks for a crop and a city and fetches the current
weather and a forecast from OpenWeatherMap. It thins the forecast to one entry
per day (`filter_data`), then flags the days whose rain, wind or temperature
crosses a fixed threshold (the loop in `check_weather_forecast`). It also
composes a prompt for a chat model. This project models the two
list-processing steps and proves their properties.

- `forecast.dfy`, module `Forecast`: an `Entry` holds the fields the core
  reads from one item of the response's `list`: `dt_txt`, the optional
  `rain.3h`, `wind.speed` and `main.temp`, all as exact reals.
- `sequences.dfy`, module `Sequences`: `Positions(n, p)` lists the positions
  below `n` where `p` holds. Both filters are characterised by the positions
  they keep.
- `daily_filter.dfy`, module `DailyFilter`: `FilterData` is a loop method.
  Like the source, it keeps a set of seen day keys and a list that grows.
  It is proved equal to the recursive specification `FirstPerDay`. The
  lemmas state the properties of `FirstPerDay`.
- `severe_weather.dfy`, module `SevereWeather`: `WorstWeatherDays` is the
  threshold loop, taken out of `check_weather_forecast` and run on the
  filtered list. It is proved equal to `SevereDays`. `CheckWeatherForecast`
  chains the two loops as the source does after its fetch.

Three details of the code are easy to misread; the model follows the code
in each:

- The day key is `dt_txt[0:-9]`: the timestamp minus its last nine
  characters, not its first ten. For the feed's `"YYYY-MM-DD HH:MM:SS"` form
  the two agree (`DayKeyOfTimestamp`).
- A timestamp of nine characters or fewer raises no error. Python's slice
  gives it the key `""`, so all such entries count as one day
  (`ShortTimestampHasEmptyKey`).
- The temperature is compared with the thresholds 35 and 0 exactly as the
  feed gives it, with no Kelvin-to-Celsius step. The forecast request
  (app.py:39) names no unit system. With Kelvin readings every day is
  flagged for heat: `AllHotAllFlagged` proves that every entry at or above
  35 is reported, and `KelvinScenarioAsWritten` works one forecast through.

## Model

| member | source | states |
|---|---|---|
| `DailyFilter.DayKey` | app.py:31 | The key is the prefix of `dt_txt` that leaves off its last nine characters, and is empty when the string is nine characters or shorter |
| `DailyFilter.DayKeyOfTimestamp` | app.py:31 | For 19-character timestamps the key is the first ten characters, so two timestamps share a key iff their dates agree |
| `DailyFilter.ShortTimestampHasEmptyKey` | app.py:31 | Every timestamp of nine characters or fewer gets the key `""` |
| `DailyFilter.FilterData` | app.py:27-35 | The loop returns `FirstPerDay(data)`. Its invariant keeps the seen-key set equal to the keys of the entries kept so far |
| `DailyFilter.FirstPerDay` | app.py:28-34 | The list the loop builds, appending each entry whose day key is new, is never longer than the input. Its meaning is stated by the lemmas below |
| `DailyFilter.KeysOfMembership` | app.py:32-33 | A key is in the seen-key set of a list iff some entry of that list has that key |
| `DailyFilter.FirstPerDayKeepsEveryKey` | app.py:30-34 | The output's day keys are exactly the input's day keys |
| `DailyFilter.FirstPerDayKeysDistinct` | app.py:31-34 | No two output entries share a day key |
| `DailyFilter.FirstPerDayOfDistinct` | app.py:30-34 | An input whose day keys are all distinct comes back unchanged |
| `DailyFilter.FirstPerDayLength` | app.py:28-35 | Output length is at most input length, equal iff all input day keys are distinct; empty input gives empty output |
| `DailyFilter.FirstPerDayIdempotent` | app.py:30-34 | Filtering the output again returns it unchanged |
| `DailyFilter.FirstPerDayPrefix` | app.py:30-34 | On every prefix of the input, output entry `a` is the input entry at the `a`-th position that first shows its day |
| `DailyFilter.FirstPerDayPicksFirstIndices` | app.py:30-34 | The output is the input taken at increasing positions. These are exactly the positions of the first entry of each day, so the output is an order-preserving subsequence and the first entry of a day wins |
| `SevereWeather.RainOf` | app.py:57 | The rain reading is the entry's `3h` value when present and 0 when absent |
| `SevereWeather.IsSevere` | app.py:47-62 | An entry is not flagged exactly when rain is below 1.6, wind below 20, and temperature strictly between 0 and 35 |
| `SevereWeather.SevereDays` | app.py:52-63 | The list of flagged timestamps is never longer than the input |
| `SevereWeather.WorstWeatherDays` | app.py:52-65 | The loop applies the four threshold tests, with missing rain read as 0, and returns `SevereDays(filteredData)` |
| `SevereWeather.CheckWeatherForecast` | app.py:45-65 | Filtering to one entry per day and then flagging gives `SevereDays(FirstPerDay(forecast))` |
| `SevereWeather.SevereDaysPrefix` | app.py:52-63 | On every prefix, output item `a` is the timestamp of the `a`-th severe entry |
| `SevereWeather.SevereDaysPicksSevereIndices` | app.py:52-63 | One timestamp per severe entry, in input order. The output length equals the number of severe entries, and no severe entry is missed |
| `SevereWeather.SevereDaysMembership` | app.py:55-63 | A timestamp is in the output iff some entry carrying it trips rain >= 1.6, wind >= 20, temp >= 35 or temp <= 0 |
| `SevereWeather.MissingRainIsZeroRain` | app.py:57 | An entry without a rain reading is judged exactly as one with 0 mm. With benign wind and temperature it is not flagged |
| `SevereWeather.ThresholdValues` | app.py:47-62 | An entry is flagged iff rain >= 1.6, wind >= 20, temperature >= 35 or temperature <= 0: the threshold values with their inclusive bounds |
| `SevereWeather.ThresholdBoundaries` | app.py:47-62 | The bounds are inclusive: rain 1.6, wind 20, temperature 35 and 0 are flagged, while 1.599, 19.999, 34.999 and 0.001 are not |
| `SevereWeather.ForecastReportsFirstSevereEntries` | app.py:45-65 | End to end, a timestamp is reported iff it belongs to the first entry of its day and that entry is severe |
| `SevereWeather.ForecastReportsDistinctDays` | app.py:45-65 | End to end, no two reported timestamps share a day key |
| `SevereWeather.AllHotAllFlagged` | app.py:59-63 | When every temperature is at least 35, as every raw Kelvin reading is, each entry's timestamp is reported, in order |
| `SevereWeather.KelvinScenarioAsWritten` | app.py:39-62 | Three Kelvin entries over two days keep the first entry of each day, and both days are reported, because raw Kelvin values are at least 35 |

## Left out

- The HTTP requests to OpenWeatherMap and their JSON decoding (app.py:17-18, 39-40, 45) are network I/O. The model starts from the decoded `list` as a sequence of `Entry`.
- The `'cod' == '404'` branches (app.py:21-22, 41-42) are left out. So is the implicit `None` that `check_weather_forecast` returns after its error branch (app.py:66). This is error handling of the HTTP responses. The check at line 41 reads the current-weather response rather than the forecast response; the model does not capture that either.
- A forecast entry without `dt_txt`, `wind.speed` or `main.temp` makes the source raise `KeyError`. The model's `Entry` always has these fields, and validating the JSON belongs to the decoding step.
- The `input()` prompts and `print` output (app.py:14-15, 22, 69, 71) are console I/O.
- The chat-model setup and the commented-out conversation call (app.py:4-5, 10-11, 72-73) are calls into a hosted language model.
- The API-key and environment setup (app.py:7-8) is configuration.
- The rounding of the current temperature and the prompt text (app.py:24-25, 70) are presentation.
- Readings are exact `real`s. IEEE double rounding, for example of the literal 1.6, is not modelled.
- Temperature unit conversion is not modelled, because the source performs none before comparing.
- The Python set and list are modelled as a Dafny `set<string>` and `seq<Entry>` local to the method. Their hashing and amortised growth are not modelled.
