/** Sequence operations shared by the models. */
module Sequences {

  /** The last `limit` elements; all of them without a positive limit. */
  function KeepLast<T>(s: seq<T>, limit: int): (r: seq<T>)
    ensures |r| == if 0 < limit < |s| then limit else |s|
  {
    if limit > 0 && |s| > limit then s[|s| - limit..] else s
  }
}
