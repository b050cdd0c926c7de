/** Types shared by both vector stores and both recognition front ends. */
module Common {

  /** A timestamp, counted in microseconds (the resolution of Python's datetime). */
  type Time = int

  /** A face embedding; its components are opaque to every store operation. */
  type Vector = seq<real>

  datatype Option<+T> = None | Some(value: T)

  /** An operation that either completes or raises (the store is unreachable or refuses). */
  datatype Result<+T> = Success(value: T) | Failure

  /** The answer of `check_person_exists`: ("found", last_seen, person_id) or ("not found", None, None). */
  datatype Verdict = Found(lastSeen: Time, personId: int) | NotFound
}
