/** Bounds of finite sets of integers. */
module IntSets {
  import opened Common

  lemma Pick<T>(s: set<T>) returns (y: T)
    requires s != {}
    ensures y in s
  {
    y :| y in s;
  }

  lemma {:induction false} LeastExists(s: set<int>)
    requires s != {}
    ensures exists m :: m in s && forall x :: x in s ==> m <= x
  {
    var y := Pick(s);
    if s != {y} {
      LeastExists(s - {y});
      var m :| m in s - {y} && forall x :: x in s - {y} ==> m <= x;
      var least := if y < m then y else m;
      forall x | x in s ensures least <= x {
        assert x == y || x in s - {y};
      }
    }
  }

  lemma {:induction false} GreatestExists(s: set<int>)
    requires s != {}
    ensures exists m :: m in s && forall x :: x in s ==> x <= m
  {
    var y := Pick(s);
    if s != {y} {
      GreatestExists(s - {y});
      var m :| m in s - {y} && forall x :: x in s - {y} ==> x <= m;
      var greatest := if y > m then y else m;
      forall x | x in s ensures x <= greatest {
        assert x == y || x in s - {y};
      }
    }
  }

  function Least(s: set<int>): (m: Option<int>)
    ensures m.Some? <==> s != {}
    ensures m.Some? ==> m.value in s && forall x :: x in s ==> m.value <= x
  {
    if s == {} then None
    else
      LeastExists(s);
      var m :| m in s && forall x :: x in s ==> m <= x;
      Some(m)
  }

  function Greatest(s: set<int>): (m: Option<int>)
    ensures m.Some? <==> s != {}
    ensures m.Some? ==> m.value in s && forall x :: x in s ==> x <= m.value
  {
    if s == {} then None
    else
      GreatestExists(s);
      var m :| m in s && forall x :: x in s ==> x <= m;
      Some(m)
  }
}
