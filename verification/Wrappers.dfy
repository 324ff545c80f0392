/** The optional value used wherever the program returns "nothing found" or refuses a statement. */
module Wrappers {
  datatype Option<+T> = None | Some(value: T) {
    predicate IsFailure() {
      None?
    }

    function PropagateFailure<U>(): Option<U>
      requires None?
    {
      None
    }

    function Extract(): T
      requires Some?
    {
      value
    }
  }

  lemma Pick<T>(s: set<T>) returns (x: T)
    requires s != {}
    ensures x in s
  {
    x :| x in s;
  }

  lemma SameMap<K, V>(m: map<K, V>, m': map<K, V>)
    requires m.Keys == m'.Keys && forall k :: k in m ==> m[k] == m'[k]
    ensures m == m'
  {
  }

  lemma KeyOf<K, V>(m: map<K, V>, v: V) returns (k: K)
    requires v in m.Values
    ensures k in m && m[k] == v
  {
    k :| k in m && m[k] == v;
  }

  lemma AllRemoved<K, V>(m: map<K, V>, s: set<K>)
    requires m.Keys - s == {}
    ensures m - s == map[]
  {
    assert forall k :: k in m ==> k in s || k in m.Keys - s;
  }

  lemma Singleton<T>(s: set<T>, x: T)
    requires x in s && forall y :: y in s ==> y == x
    ensures s == {x}
  {
  }
}
