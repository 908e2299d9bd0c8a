/** Results of operations that the C code leaves undefined in some states. */
module Outcomes {

  /** Stuck: the C code has no defined behaviour from here on. */
  datatype Outcome<+T> = Stuck | Done(value: T)
}
