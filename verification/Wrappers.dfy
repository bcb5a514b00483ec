module Wrappers {

  datatype Option<+T> = None | Some(value: T)

  /** The row stored under a key, if any. */
  function Lookup<K, V>(m: map<K, V>, k: K): Option<V> {
    if k in m then Some(m[k]) else None
  }

  /** The table with one row replaced, or removed when there is no new row. */
  function Store<K, V>(m: map<K, V>, k: K, v: Option<V>): map<K, V> {
    if v.Some? then m[k := v.value] else m - {k}
  }
}
