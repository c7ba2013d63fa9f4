/** What several parts of the program share: optional values, inserts that may fail, hashes of
    credentials, roles, sites and clock units. */
module Basics {
  datatype Option<+T> = None | Some(value: T)

  /** One INSERT: stored, refused, or stored although an error is reported. */
  datatype Insert = Done | Refused | DoneButReported {
    predicate Stores() {
      !Refused?
    }
  }

  /** The hash a credential is stored under. */
  type Hash = string

  type Site = nat

  datatype Role = Admin | Viewer | Api

  /** Clocks count nanoseconds; the tables store unix seconds. */
  const SECOND := 1_000_000_000
  const MINUTE := 60 * SECOND

  function Unix(now: nat): nat {
    now / SECOND
  }
}
