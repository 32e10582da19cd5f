/** Small result types shared by the onboarding model. */
module Wrappers {

  datatype Option<+T> = None | Some(value: T)

  /** A value read from the input lines, together with the position of the
      first line not yet read. */
  datatype Reply<+T> = Reply(value: T, next: nat)

  /** How an interactive step ends: it accepted an answer and the next unread
      line is `next`, or the input ran out before any acceptable answer appeared. */
  datatype Outcome = Accepted(next: nat) | Exhausted
}
