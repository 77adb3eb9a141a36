module Common {
  datatype Option<+T> = None | Some(value: T)

  /** A UTF-8 file path. */
  type Path = string

  /** A document id. The ids the daemon makes up never repeat, so they are counted. */
  type DocId = nat

  function Lookup<K, V>(m: map<K, V>, k: K): Option<V> {
    if k in m then Some(m[k]) else None
  }

  lemma {:induction false} SubsetCount<T>(a: set<T>, b: set<T>)
    requires a <= b
    ensures |a| <= |b|
    ensures |a| == |b| ==> a == b
  {
    if a != {} {
      var x :| x in a;
      SubsetCount(a - {x}, b - {x});
    }
  }
}
