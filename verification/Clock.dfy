/**
 Instants are nanoseconds on one clock shared by every process. Stored timestamps
 (RFC 3339 text, Unix seconds) keep whole seconds only.
 */
module Clock {

  type Instant = nat

  const SECOND: nat := 1_000_000_000
  const MINUTE: nat := 60 * SECOND
  const HOUR: nat := 60 * MINUTE

  /** The second an instant is written down as. */
  function Seconds(t: Instant): nat {
    t / SECOND
  }
}
