/** Time and machine integers, as the whole program uses them. */
module Units {

  /** Instants and durations in nanoseconds. */
  type Time = int

  function Seconds(d: Time): real {
    d as real / 1_000_000_000.0
  }

  /** A second is a billion nanoseconds, and durations add up. */
  lemma SecondsAdd(d: Time, e: Time)
    ensures Seconds(1_000_000_000) == 1.0 && Seconds(d + e) == Seconds(d) + Seconds(e)
  {
  }

  /** One more than the largest unsigned and the largest signed 64-bit integer. */
  const U64: nat := 0x1_0000_0000_0000_0000
  const I64: nat := 0x8000_0000_0000_0000
}
