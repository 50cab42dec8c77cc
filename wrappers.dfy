/** An optional value, used where the components show "nothing" (no current card, no update). */
module Wrappers {
  datatype Option<+T> = None | Some(value: T)
}
