/** Optional values: a task's due date, the position of a matching task. */
module Wrappers {

  datatype Option<+T> = None | Some(value: T)
}
