/** Sums of natural numbers over finite sets. */
module FiniteSums {

  ghost function Sum<T(!new)>(s: set<T>, f: T -> nat): nat {
    if s == {} then 0 else
      var x :| x in s;
      f(x) + Sum(s - {x}, f)
  }

  /** Any member can be taken out first. */
  lemma {:induction false} SumTake<T(!new)>(s: set<T>, f: T -> nat, x: T)
    requires x in s
    ensures Sum(s, f) == f(x) + Sum(s - {x}, f)
    decreases s
  {
    var y :| y in s && Sum(s, f) == f(y) + Sum(s - {y}, f);
    if y != x {
      SumTake(s - {y}, f, x);
      SumTake(s - {x}, f, y);
      assert s - {y} - {x} == s - {x} - {y};
    }
  }

  lemma {:induction false} SumSame<T(!new)>(s: set<T>, f: T -> nat, g: T -> nat)
    requires forall x :: x in s ==> f(x) == g(x)
    ensures Sum(s, f) == Sum(s, g)
    decreases s
  {
    if s != {} {
      var x :| x in s;
      SumTake(s, f, x);
      SumTake(s, g, x);
      SumSame(s - {x}, f, g);
    }
  }

  lemma SumAtLeast<T(!new)>(s: set<T>, f: T -> nat, x: T)
    requires x in s
    ensures f(x) <= Sum(s, f)
  {
    SumTake(s, f, x);
  }

  lemma {:induction false} SumZero<T(!new)>(s: set<T>, f: T -> nat)
    ensures Sum(s, f) == 0 <==> forall x :: x in s ==> f(x) == 0
    decreases s
  {
    if s != {} {
      var x :| x in s;
      SumTake(s, f, x);
      SumZero(s - {x}, f);
    }
  }

  /** `g` is `f` with `d` more at one member. */
  lemma SumBump<T(!new)>(s: set<T>, f: T -> nat, g: T -> nat, at: T, d: nat)
    requires at in s && g(at) == f(at) + d
    requires forall x :: x in s && x != at ==> g(x) == f(x)
    ensures Sum(s, g) == Sum(s, f) + d
  {
    SumTake(s, f, at);
    SumTake(s, g, at);
    SumSame(s - {at}, f, g);
  }

  lemma {:induction false} SumGrows<T(!new)>(s: set<T>, t: set<T>, f: T -> nat, g: T -> nat)
    requires s <= t && forall x :: x in s ==> f(x) <= g(x)
    ensures Sum(s, f) <= Sum(t, g)
    decreases s
  {
    if s != {} {
      var x :| x in s;
      SumTake(s, f, x);
      SumTake(t, g, x);
      SumGrows(s - {x}, t - {x}, f, g);
    }
  }
}
