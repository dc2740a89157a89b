/** The usual Some/None wrapper; `None` stands for JavaScript's `undefined`/`null`. */
module Wrappers {
  datatype Option<+T> = None | Some(value: T) {
    /** The value, or `default` when there is none. */
    function GetOr(default: T): T
    {
      match this
      case Some(v) => v
      case None => default
    }
  }
}

/** Scans over sequences. */
module Sequences {
  /** The first position whose element satisfies `P`, or -1 when none does: what
      `findIndex` returns, and where `find` takes its element from. */
  function FirstIndex<T>(s: seq<T>, P: T -> bool): (i: int)
    ensures -1 <= i < |s|
    ensures 0 <= i ==> P(s[i])
    ensures forall j | 0 <= j < |s| && (i < 0 || j < i) :: !P(s[j])
  {
    if |s| == 0 then -1
    else if P(s[0]) then 0
    else
      var k := FirstIndex(s[1..], P);
      if k < 0 then -1 else k + 1
  }
}

/** Wall-clock readings. The service stores `new Date().toISOString()` and the token
    library reads the clock in seconds; the model only compares readings, so a reading
    is a natural number passed in by the caller. */
module Clock {
  type Timestamp = nat
}

/** Errors and responses as values rather than thrown exceptions. */
module Errors {
  import opened Wrappers

  /** What `createError(status, message)` builds, and what the guard sends directly. */
  datatype HttpError = HttpError(status: int, message: string)

  /** A response body: `success: true` with its status, optional message and data,
      or an error that the error handler turns into `success: false`. */
  datatype Reply<T> = Ok(status: int, message: Option<string>, data: T) | Err(error: HttpError)
}
