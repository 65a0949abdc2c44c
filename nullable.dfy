/** JavaScript's `T | null` (and an absent optional field) as a datatype. */
module Nullable {
  datatype Option<+T> = None | Some(value: T)

  /** One key of an object spread: the patch's value when the key is present, the old value otherwise. */
  function Pick<T>(given: Option<T>, current: T): (r: T)
    ensures given.Some? ==> r == given.value
    ensures given.None? ==> r == current
  {
    if given.Some? then given.value else current
  }
}
