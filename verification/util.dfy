/**
 The ephemeral-port test of connections/util.go, with the range constants
 of connections/connection.go.
 */
module Util {
  import opened Net

  /** The default Linux ephemeral port range, both bounds inclusive. */
  const MinEphemeralPort: Port := 32768
  const MaxEphemeralPort: Port := 60999

  /** IsEphemeralPort. */
  predicate IsEphemeralPort(port: Port) {
    port >= MinEphemeralPort && port <= MaxEphemeralPort
  }

  /** The cases of the unit tests, and both bounds from either side. */
  lemma EphemeralExamples()
    ensures IsEphemeralPort(60000) && !IsEphemeralPort(80)
    ensures IsEphemeralPort(32768) && IsEphemeralPort(60999)
    ensures !IsEphemeralPort(32767) && !IsEphemeralPort(61000)
  {
  }
}
