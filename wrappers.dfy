/** Small pieces shared by the services: an optional value (a JSON field
    that may be absent, a nullable column), the success test a caller
    applies to an HTTP status code, and the primary-key lookup. */
module Wrappers {

  datatype Option<+T> = None | Some(value: T)

  /** The `ok` property of an HTTP response as the `requests` library
      defines it: false exactly for client (4xx) and server (5xx) errors. */
  predicate Ok(code: int)
  {
    !(400 <= code < 600)
  }

  /** Position of the first element whose key is `id`, if any: the lookup
      of a table row by its primary key. */
  function IndexOf<T>(s: seq<T>, key: T -> int, id: int): (r: Option<nat>)
    ensures r.Some? ==> r.value < |s| && key(s[r.value]) == id
    ensures r.Some? ==> forall i :: 0 <= i < r.value ==> key(s[i]) != id
    ensures r.None? <==> forall i :: 0 <= i < |s| ==> key(s[i]) != id
  {
    if s == [] then None
    else if key(s[0]) == id then Some(0)
    else
      match IndexOf(s[1..], key, id)
      case None => None
      case Some(k) => Some(k + 1)
  }
}
