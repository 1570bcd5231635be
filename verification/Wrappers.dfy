/** Failure and absence, as every other module uses them. */
module Wrappers {

  datatype Option<+T> = None | Some(value: T)

  /** The outcome of a contract action: it ran to the end, or a check stopped it with a
      message and the whole transaction was rolled back. */
  datatype Result<+T> = Ok(value: T) | Aborted(message: string)

  datatype Unit = Unit

  function Lookup<K, V>(m: map<K, V>, k: K): Option<V> {
    if k in m then Some(m[k]) else None
  }
}
