/** Identifiers and instants shared by every component. */
module Types {
  /** UTC time in nanoseconds; durations are differences of instants. */
  type Instant = int
  type Duration = nat

  /** Identifiers are only compared (and, for the audio manifest, ordered and written out). */
  type Uuid = nat
  type ClientId = nat
  type NfcUid = nat

  datatype Option<+T> = None | Some(value: T)
}
