/** enums.py and step.py: the states and needs that several modules share, and the shared test of an input. */
module Enums {

  datatype StepState = Pending | Running | Checking | Succeeded | Failed

  datatype FileState = Undeclared | Unconfirmed | Missing | Confirmed | Planned | Built | Outdated | Volatile

  const OPTIONAL := 31
  const DEFAULT := 32
  const TARGET := 33
  const PLAN := 34

  /** UNAVAILABLE_INPUT_WHERE: an input in this state keeps its step from being dispatched. */
  predicate UnavailableInput(state: FileState, detached: bool, dynamic: bool) {
    || state == Volatile
    || (dynamic && !detached && state in {Planned, Outdated})
    || (!dynamic && (detached || state !in {Built, Confirmed}))
  }
}
