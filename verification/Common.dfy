/** Vocabulary shared by every component: optional values, the breaker states
    and the clock. Instants and durations are whole nanoseconds. */
module Common {
  datatype Option<+T> = None | Some(value: T)

  /** The states that the two kinds of breaker draw from. */
  datatype State = Closed | Open | HalfOpen | Permanent

  type Time = int

  type Duration = int

  const ZERO_TIME: Time := 0
  const SECOND: Duration := 1_000_000_000

  function Max(x: int, y: int): int {
    if x < y then y else x
  }

  function Min(x: int, y: int): int {
    if x < y then x else y
  }
}
