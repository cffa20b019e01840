/** Days counted from 1 January 1970, a Thursday, and the weekdays among them. */
module Weekdays {

  predicate Weekday(day: int) {
    (day + 3) % 7 < 5
  }

  /** The other days are those 7 weeks on, or back, from Saturday and Sunday, 3 and 4 January 1970. */
  lemma WeekendsAre(day: int)
    ensures !Weekday(day) <==> exists week :: day == 7 * week + 2 || day == 7 * week + 3
  {
    if !Weekday(day) {
      assert day == 7 * (day / 7) + 2 || day == 7 * (day / 7) + 3;
    }
  }

  /** The weekday after a day. */
  function NextWeekday(day: int): (next: int)
    ensures day < next <= day + 3
  {
    if Weekday(day + 1) then day + 1 else if Weekday(day + 2) then day + 2 else day + 3
  }

  lemma NextWeekdayIsFirst(day: int)
    ensures Weekday(NextWeekday(day)) && forall between :: day < between < NextWeekday(day) ==> !Weekday(between)
  {}
}
