/** Values handed over by the forecast feed: one entry of the response's
    `list`, with the fields the core reads. */
module Forecast {

  /** A value that may be absent from the feed. */
  datatype Option<T> = None | Some(value: T)

  /** One three-hour forecast sample: its `dt_txt` timestamp text, the
      optional `rain.3h` accumulation (absent when the feed has no `rain`
      object or no `3h` inside it), `wind.speed` and `main.temp`, each in
      whatever unit the feed supplied. */
  datatype Entry = Entry(dtTxt: string, rain: Option<real>, wind: real, temp: real)
}
