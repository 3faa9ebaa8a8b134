/** Facts about finite sets that several modules use. */
module Sets {

  lemma SomeMember<T>(s: set<T>) returns (x: T)
    requires s != {}
    ensures x in s
  {
    x :| x in s;
  }

  lemma {:induction false} SubsetSize<T>(a: set<T>, b: set<T>)
    requires a <= b
    ensures |a| <= |b|
  {
    if x :| x in a {
      SubsetSize(a - {x}, b - {x});
    }
  }

  lemma SameSizeSubset<T>(a: set<T>, b: set<T>)
    requires a <= b && |a| == |b|
    ensures a == b
  {
    if x :| x in b && x !in a {
      assert a <= b - {x};
      SubsetSize(a, b - {x});
    }
  }

  /** Among finitely many things with an age there is one that none precedes. */
  lemma {:induction false} OldestExists<T>(created: map<T, nat>, s: set<T>) returns (oldest: T)
    requires s != {} && s <= created.Keys
    ensures oldest in s && forall x <- s :: created[oldest] <= created[x]
  {
    var first :| first in s;
    var others := s - {first};
    oldest := first;
    if others != {} {
      var next := OldestExists(created, others);
      oldest := if created[next] < created[first] then next else first;
    }
    assert forall x <- s :: x == first || x in others;
  }
}
