/** An optional value: `None` stands for JavaScript's `undefined` where a value
    is held or passed (an environment variable, a header, `req.user`, the request
    body). The result of reading a property is `Json.Access`, whose `Undefined`
    sits beside the throwing case. */
module Wrappers {

  datatype Option<+T> = None | Some(value: T)
}
