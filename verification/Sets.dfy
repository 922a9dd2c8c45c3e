/** Facts about finite sets of numbers. */
module Sets {

  lemma HasMember(s: set<int>)
    ensures s == {} || exists x :: x in s
  {
    if forall x :: x !in s { assert s == {}; }
  }

  lemma {:induction false} SubsetSize(a: set<int>, b: set<int>)
    requires a <= b
    ensures |a| <= |b|
    decreases a
  {
    HasMember(a);
    if a != {} {
      var x :| x in a;
      SubsetSize(a - {x}, b - {x});
    }
  }

  lemma ProperSubsetSize(a: set<int>, b: set<int>)
    requires a <= b && a != b
    ensures |a| < |b|
  {
    HasMember(b - a);
    var x :| x in b - a;
    SubsetSize(a, b - {x});
  }
}
