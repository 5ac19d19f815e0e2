/** How an operation ends: the program goes on, or reports a fatal error and exits. */
module Outcomes {
  datatype Outcome = Done | Fatal
}
