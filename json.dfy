/** Values as the integration sees them after JSON decoding, and the outcome of
    one HTTP exchange with the controller. No I/O happens here: every reply is
    an input to the model. */
module Json {

  datatype Option<+T> = None | Some(value: T) {
    /** Python's `x if x is not None else d`. */
    function GetOr(default: T): T {
      match this
      case Some(v) => v
      case None => default
    }
  }

  /** A key of a decoded JSON object: missing, present with `null`, or present
      with a value. */
  datatype Field<+T> = Absent | Null | Present(value: T) {

    /** Python's `obj.get(key, default)`: the default only replaces a MISSING
        key; an explicit `null` comes back as `None`. */
    function Get(default: T): Option<T> {
      match this
      case Absent => Some(default)
      case Null => None
      case Present(v) => Some(v)
    }

    /** Python's `obj.get(key)`: missing and `null` both read as `None`. */
    function Peek(): Option<T> {
      match this
      case Present(v) => Some(v)
      case _ => None
    }
  }

  /** Stores a Python value that may be `None` back into a JSON object. */
  function Store<T>(v: Option<T>): Field<T> {
    match v
    case Some(x) => Present(x)
    case None => Null
  }

  /** Python truthiness of a boolean key read with `obj.get(key)` or
      `obj.get(key, False)`. */
  predicate Truthy(f: Field<bool>) {
    f == Present(true)
  }

  /** Outcome of a GET: the controller answered with a status code and a body
      (the body is only decoded when the status is 200), or the request failed
      in transport (client error or timeout). */
  datatype Response<+T> = Reply(status: int, body: T) | TransportError {
    predicate IsOk() { Reply? && status == 200 }
  }

  /** Outcome of a POST whose body the integration never reads. */
  datatype WriteResult = Answered(status: int) | TransportFailure {
    predicate IsOk() { Answered? && status == 200 }
  }

  /** The reply to the `k`-th of a run of fetches; fetches beyond the replies
      given failed in transport. */
  function ReplyAt<T>(replies: seq<Response<T>>, k: nat): Response<T> {
    if k < |replies| then replies[k] else TransportError
  }

  /** The body of a reply when it is a 200, otherwise the soft-failure default. */
  function BodyOr<T>(r: Response<T>, default: T): T {
    if r.IsOk() then r.body else default
  }
}
