/** Small value types shared by every module of the model. */
module Base {

  /** Discord snowflakes (channel, role and member ids); only equality matters. */
  type Id = nat

  /** A JavaScript value that may be `undefined`. */
  datatype Option<T> = None | Some(value: T) {
    function GetOr(default: T): T {
      if Some? then value else default
    }
  }

  /** The result of a step that either returns or throws (a TypeError or a rejected promise). */
  datatype Outcome<T> = Returns(value: T) | Throws

  /** Map lookup as a JavaScript `m[k]` read: `undefined` when the key is absent. */
  function Get<K, V>(m: map<K, V>, k: K): (r: Option<V>)
    ensures r.Some? <==> k in m
    ensures r.Some? ==> r.value == m[k]
  {
    if k in m then Some(m[k]) else None
  }

  /** `String.prototype.startsWith`. */
  predicate StartsWith(s: string, prefix: string) {
    |prefix| <= |s| && s[..|prefix|] == prefix
  }
}
