/** Values that may be missing, and operations that return 0 or a negative errno code. */
module Results {
  datatype Option<+T> = None | Some(value: T)

  datatype Result<+T> = Ok(value: T) | Err(code: int) {
    predicate IsFailure() { Err? }

    function PropagateFailure<U>(): Result<U>
      requires Err?
    {
      Err(code)
    }

    function Extract(): T
      requires Ok?
    {
      value
    }
  }

  function Lookup<K, V>(m: map<K, V>, k: K): Option<V> { if k in m then Some(m[k]) else None }

  const ENOENT := -2
  const EAGAIN := -11
  const EINVAL := -22
  const ERANGE := -34
  const EPROTO := -71
  const ENOTUNIQ := -76
  const EMSGSIZE := -90
  const EPROTOTYPE := -91
  const ENOTSUP := -95
  const ECONNRESET := -104
  const ETIMEDOUT := -110
  const ESTALE := -116
  const ECANCELED := -125
}
