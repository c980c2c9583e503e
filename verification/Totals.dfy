/**
 Usage amounts and their totals over finite sets of call identities.

 Call identities are UUIDs. Their canonical text sorts like the 128-bit number
 it spells, so an identity is modelled by that number.
*/
module Totals {

  type Id = nat

  /** What a cap limits. */
  datatype Measure = Requests | Tokens | Spend

  datatype Amount = Amount(requests: int, tokens: int, cost: real) {
    function Of(m: Measure): real {
      match m
      case Requests => requests as real
      case Tokens => tokens as real
      case Spend => cost
    }
  }

  predicate IsLeast(m: Id, ids: set<Id>) {
    m in ids && forall x :: x in ids ==> m <= x
  }

  lemma {:induction false} LeastExists(ids: set<Id>)
    requires ids != {}
    ensures exists m :: IsLeast(m, ids)
    decreases |ids|
  {
    var x :| x in ids;
    var rest := ids - {x};
    assert ids == rest + {x};
    if rest == {} {
      assert IsLeast(x, rest + {x});
    } else {
      LeastExists(rest);
      var m :| IsLeast(m, rest);
      assert IsLeast(if m <= x then m else x, rest + {x});
    }
  }

  /** The smallest identity of a nonempty set: where a sorted traversal starts. */
  function Min(ids: set<Id>): (m: Id)
    requires ids != {}
    ensures IsLeast(m, ids)
  {
    LeastExists(ids);
    var m :| IsLeast(m, ids);
    m
  }

  lemma MinOfRest(ids: set<Id>, x: Id)
    requires x in ids && x != Min(ids)
    ensures ids - {x} != {} && Min(ids - {x}) == Min(ids)
  {
    assert Min(ids) in ids - {x};
  }

  /** Total of f over a set of identities, taken in sorted order. */
  function SumOver(ids: set<Id>, f: Id -> real): real
    decreases |ids|
  {
    if ids == {} then 0.0
    else
      var m := Min(ids);
      f(m) + SumOver(ids - {m}, f)
  }

  /** A total does not depend on the order: any element can be taken out first. */
  lemma {:induction false} SumRemove(ids: set<Id>, f: Id -> real, x: Id)
    requires x in ids
    ensures SumOver(ids, f) == f(x) + SumOver(ids - {x}, f)
    decreases |ids|
  {
    var m := Min(ids);
    if m != x {
      SumRemove(ids - {m}, f, x);
      assert ids - {m} - {x} == ids - {x} - {m};
      MinOfRest(ids, x);
    }
  }

  lemma {:induction false} SumInsert(ids: set<Id>, f: Id -> real, x: Id)
    requires x !in ids
    ensures SumOver(ids + {x}, f) == f(x) + SumOver(ids, f)
  {
    SumRemove(ids + {x}, f, x);
    assert ids + {x} - {x} == ids;
  }

  lemma {:induction false} SumMono(ids: set<Id>, f: Id -> real, g: Id -> real)
    requires forall x :: x in ids ==> f(x) <= g(x)
    ensures SumOver(ids, f) <= SumOver(ids, g)
    decreases |ids|
  {
    if ids != {} {
      SumMono(ids - {Min(ids)}, f, g);
    }
  }

  lemma {:induction false} SumSame(ids: set<Id>, f: Id -> real, g: Id -> real)
    requires forall x :: x in ids ==> f(x) == g(x)
    ensures SumOver(ids, f) == SumOver(ids, g)
    decreases |ids|
  {
    if ids != {} {
      SumSame(ids - {Min(ids)}, f, g);
    }
  }

  lemma {:induction false} SumSplit(ids: set<Id>, f: Id -> real, g: Id -> real, h: Id -> real)
    requires forall x :: x in ids ==> f(x) == g(x) + h(x)
    ensures SumOver(ids, f) == SumOver(ids, g) + SumOver(ids, h)
    decreases |ids|
  {
    if ids != {} {
      SumSplit(ids - {Min(ids)}, f, g, h);
    }
  }
}
