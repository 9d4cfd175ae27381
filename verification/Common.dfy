/** Optional values, and two facts about finite sets. */
module Common {

  datatype Option<+T> = None | Some(value: T)

  lemma {:induction false} Smaller<T>(a: set<T>, b: set<T>)
    requires a <= b
    ensures |a| <= |b|
  {
    if a != {} {
      var x :| x in a;
      Smaller(a - {x}, b - {x});
    }
  }

  lemma {:induction false} Least(s: set<nat>) returns (m: nat)
    requires s != {}
    ensures m in s && forall x :: x in s ==> m <= x
  {
    var k :| k in s;
    m := k;
    if s != {k} {
      var n := Least(s - {k});
      assert forall x :: x in s ==> x == k || x in s - {k};
      if n < k { m := n; }
    }
  }
}
