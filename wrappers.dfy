/** Optional values: `None` stands for JavaScript's `undefined` (an absent request field)
    and for a query that matched nothing. */
module Wrappers {
  datatype Option<+T> = None | Some(value: T) {
    function GetOr(default: T): T {
      match this
      case Some(v) => v
      case None => default
    }
  }
}
