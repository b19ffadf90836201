/** The optional value used wherever the Java code may hold `null` or an empty `Optional`, and two small collection helpers. */
module Wrappers {
  datatype Option<T> = None | Some(value: T)

  /** Some element of a non-empty set: the next element a set iterator would hand out. */
  method Pick<T>(s: set<T>) returns (x: T)
    requires s != {}
    ensures x in s
  {
    x :| x in s;
  }

  /** A key under which a map holds a given value. */
  lemma KeyOfValue<K, V>(m: map<K, V>, v: V) returns (k: K)
    requires v in m.Values
    ensures k in m && m[k] == v
  {
    k :| k in m && m[k] == v;
  }
}
