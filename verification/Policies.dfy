/** What the gating loops ask of the command policy. */
module Policies {
  import opened Bytes

  /** Outcome of a policy call; a failed call is a decision that is not allowed. */
  datatype Decision = Decision(allowed: bool, reason: bytes)

  /** "denied by command policy". */
  const DEFAULT_REASON: bytes := [100, 101, 110, 105, 101, 100, 32, 98, 121, 32, 99, 111, 109, 109, 97, 110, 100, 32,
                                  112, 111, 108, 105, 99, 121]

  /** The reason given to the operator. */
  function Reason(d: Decision): bytes { if d.reason == [] then DEFAULT_REASON else d.reason }
}
