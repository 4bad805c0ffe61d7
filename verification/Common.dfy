// Shared vocabulary: optional values, and the outcome of a request.
module Common {

  datatype Option<+T> = None | Some(value: T) {
    function GetOr(default: T): T {
      if None? then default else value
    }
  }

  // What an HTTP handler or a validation ends with: it goes through, it is refused with a
  // client error, or it dies of an exception nobody catches.
  datatype Verdict = Accepted | Refused | Crashed

  function Min(x: int, y: int): int { if x <= y then x else y }

  function Max(x: int, y: int): int { if x >= y then x else y }
}
