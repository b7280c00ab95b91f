/** What the pages' value converters receive and share: the bound value
    (C#'s `object? value`, of which only a `TimeSpan` or a `DateTime` is ever
    inspected), the `ConverterParameter`, and the one-way `ConvertBack`. */
module Converters {
  import opened Calendar

  /** The run-time type of a converter's input, as far as the converters
      test it with `is`; everything else, `null` included, is `Other`. */
  datatype Boxed =
    | BoxedTimeSpan(ticks: int)
    | BoxedDateTime(when: DateTime)
    | Other

  /** A `ConverterParameter`: a boxed `bool`, or anything else. */
  datatype Parameter = BoolParameter(flag: bool) | OtherParameter

  /** `ConvertBack` of every converter in the sample: whatever it is given,
      the answer is the empty string, so no binding ever writes back. */
  function ConvertBack(value: Boxed, parameter: Parameter): (r: string)
    ensures |r| == 0
  {
    ""
  }
}
