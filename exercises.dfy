/**
 * Exercises as they are embedded in a user document, and the values they are
 * built from.  JavaScript's `Date` and `parseInt` are not re-implemented: a
 * parsed date is reduced to the calendar day it names (or to "Invalid Date"),
 * and a parsed integer is a number or NaN.
 */
module Exercises {
  import opened Wrappers

  /** A date after parsing: a day number, or the invalid date (a NaN time value). */
  datatype Date = Day(n: int) | InvalidDate

  /** `d >= bound` on two Dates: a comparison with an invalid date is false. */
  predicate OnOrAfter(d: Date, bound: Date) {
    d.Day? && bound.Day? && d.n >= bound.n
  }

  /** `d <= bound` on two Dates: a comparison with an invalid date is false. */
  predicate OnOrBefore(d: Date, bound: Date) {
    d.Day? && bound.Day? && d.n <= bound.n
  }

  /** The outcome of `parseInt(x, 10)`. */
  datatype ParsedInt = Int(value: int) | NaN

  datatype Exercise = Exercise(description: string, duration: ParsedInt, date: Date)

  /**
   * The exercise the add-exercise handler builds from the request body.
   * `date` is None when the body has no date or an empty one; `today` is the
   * server's current day, which is never an invalid date.
   */
  function NewExercise(description: string, duration: ParsedInt, date: Option<Date>, today: int): Exercise
  {
    Exercise(description, duration, match date case Some(d) => d case None => Day(today))
  }
}
