/** The opener callable a manager is built with. */
module Openers {
  import opened Wrappers
  import opened CacheModel

  /** The opener: every successful call gives a handle never given before. */
  class Opener {
    var next: Handle

    constructor ()
      ensures next == 0
    {
      next := 0;
    }

    /** `works` says whether this call succeeds or raises. */
    method Open(works: bool) returns (r: Option<Handle>)
      modifies this
      ensures r == if works then Some(old(next)) else None
      ensures next == old(next) + if works then 1 else 0
    {
      if !works {
        return None;
      }
      r := Some(next);
      next := next + 1;
    }
  }
}
