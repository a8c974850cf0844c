/** Results that may be absent. */
module Wrappers {

  datatype Option<+T> = None | Some(value: T)

  /** What a map has at a key. */
  function At<V>(m: map<string, V>, key: string): Option<V> {
    if key in m then Some(m[key]) else None
  }
}
