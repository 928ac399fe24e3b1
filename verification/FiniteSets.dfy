/** Sizes and extreme elements of finite sets. */
module FiniteSets {

  lemma ProperSubsetIsSmaller<T>(a: set<T>, b: set<T>)
    requires a < b
    ensures |a| < |b|
  {
    var x :| x in b && x !in a;
    assert a <= b - {x};
    SubsetIsNoLarger(a, b - {x});
  }

  lemma {:induction false} SubsetIsNoLarger<T>(a: set<T>, b: set<T>)
    requires a <= b
    ensures |a| <= |b|
    decreases |a|
  {
    if a == {} {
    } else {
      var x :| x in a;
      SubsetIsNoLarger(a - {x}, b - {x});
    }
  }

  ghost predicate IsLargest(s: set<int>, i: int) {
    i in s && forall j :: j in s ==> j <= i
  }

  lemma {:induction false} LargestExists(s: set<int>) returns (i: int)
    requires s != {}
    ensures IsLargest(s, i)
    decreases |s|
  {
    i := SomeElement(s);
    if s != {i} {
      var rest := s - {i};
      var k := LargestExists(rest);
      forall j | j in s && j != i ensures j <= k {
        assert j in rest;
      }
      i := if i < k then k else i;
    }
  }

  lemma SomeElement<T>(s: set<T>) returns (x: T)
    requires s != {}
    ensures x in s
  {
    x :| x in s;
  }
}
