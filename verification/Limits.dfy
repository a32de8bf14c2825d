/** A row ceiling; none stands for infinity. */
module Limits {
  import opened Wrappers

  predicate Over<T>(rows: seq<T>, limit: Option<nat>) {
    limit.Some? && |rows| > limit.value
  }
}
