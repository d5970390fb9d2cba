/** Optional values, standing in for Go's nil-able references and for the
    "comma ok" idiom of map lookups. */
module Options {

  /** `None` plays the role of Go's `nil`; `Some(v)` a non-nil value. */
  datatype Option<+T> = None | Some(value: T)

  /** The lookup `v, ok := m[k]` as one value: `Some(v)` when `ok`, else `None`. */
  function Lookup<K, V>(m: map<K, V>, k: K): (r: Option<V>)
    ensures r.Some? <==> k in m
    ensures r.Some? ==> m[k] == r.value
  {
    if k in m then Some(m[k]) else None
  }
}
