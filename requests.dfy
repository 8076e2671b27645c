/** The request object the middlewares and upload callbacks work on: the
    parsed body, the account the authentication middleware attaches, and
    how many times the request has been passed on with `next()`. */
module Requests {
  import opened Common
  import opened Models

  /** A body value as JavaScript sees it. `Absent` is a missing key
      (`undefined`); `Object` is any other object, which is truthy. */
  datatype Value = Absent | Str(s: string) | Strs(items: seq<string>) | Num(n: int) | Flag(b: bool) | Object

  /** JavaScript truthiness: the empty string, 0, false and undefined are
      falsy; every array and object is truthy, even an empty one. */
  predicate Truthy(v: Value) {
    match v
    case Absent => false
    case Str(s) => s != []
    case Strs(_) => true
    case Num(n) => n != 0
    case Flag(b) => b
    case Object => true
  }

  /** Mongoose's cast and `required` check for a String path: a string,
      number or boolean casts, an array or object does not, and the empty
      string fails `required`. */
  predicate RequiredString(v: Value) {
    match v
    case Str(s) => s != []
    case Num(_) => true
    case Flag(_) => true
    case _ => false
  }

  /** `req.body[field]`. */
  function Field(body: map<string, Value>, field: string): Value {
    if field in body then body[field] else Absent
  }

  class Request {
    var body: map<string, Value>
    var user: Option<User>
    var nextCalls: nat

    constructor(body: map<string, Value>)
      ensures this.body == body && user == None && nextCalls == 0
    {
      this.body := body;
      user := None;
      nextCalls := 0;
    }
  }
}
