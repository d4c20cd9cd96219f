/** Time of day, as chrono's `NaiveTime` is used by the program.

    Leap seconds are not modelled: a second is always below 60. The date
    part of the local clock is not represented: where a decision depends on
    it (resolving a light trigger to today's sunrise or sunset), the
    decision's result is an input instead. */
module Clock {

  const NanosPerSecond: nat := 1_000_000_000

  datatype Time = Time(hour: nat, minute: nat, second: nat) {
    predicate Valid() {
      hour < 24 && minute < 60 && second < 60
    }

    /** Seconds since midnight. */
    function Seconds(): nat {
      (hour * 60 + minute) * 60 + second
    }
  }

  /** A reading of the local clock: a time of day and the nanoseconds
      within the current second. */
  datatype Instant = Instant(time: Time, nano: nat) {
    predicate Valid() {
      time.Valid() && nano < NanosPerSecond
    }

    /** Nanoseconds since midnight. */
    function Nanos(): nat {
      time.Seconds() * NanosPerSecond + nano
    }
  }

  /** The `remove_seconds` helper the daemon applies to clock readings; its
      definition is not part of this model. It is read as keeping the hour
      and minute and clearing both the seconds and the nanoseconds within
      the second: the result is the start of the minute holding the
      reading. */
  function RemoveSeconds(t: Instant): (r: Time)
    ensures r.hour == t.time.hour && r.minute == t.time.minute && r.second == 0
    ensures t.Valid() ==> r.Valid() && r.Seconds() * NanosPerSecond <= t.Nanos() < (r.Seconds() + 60) * NanosPerSecond
  {
    Time(t.time.hour, t.time.minute, 0)
  }
}
