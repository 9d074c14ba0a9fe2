/** What several modules share: an optional value, as the source's nil-able pointers, and facts about sets. */
module Base {
  datatype Option<+T> = None | Some(value: T)

  /** The next key of a map iteration, in whatever order. */
  method PickKey<T(==)>(keys: set<T>) returns (key: T)
    requires keys != {}
    ensures key in keys
  {
    key :| key in keys;
  }

  lemma SomeMember<T>(s: set<T>) returns (x: T)
    requires s != {}
    ensures x in s
  {
    x :| x in s;
  }

  lemma SubsetSize<T>(a: set<T>, b: set<T>)
    requires a <= b
    ensures |a| <= |b|
  {
    assert b == a + (b - a);
  }
}
