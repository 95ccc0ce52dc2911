/** Sums over finite sets, whatever order the elements are taken in. */
module SetSum {
  ghost function SumOver(f: nat -> nat, s: set<nat>): nat {
    if s == {} then 0
    else
      var x :| x in s;
      f(x) + SumOver(f, s - {x})
  }

  lemma {:induction false} SumPick(f: nat -> nat, s: set<nat>, x: nat)
    requires x in s
    ensures SumOver(f, s) == f(x) + SumOver(f, s - {x})
    decreases |s|
  {
    var y :| y in s && SumOver(f, s) == f(y) + SumOver(f, s - {y});
    if y != x {
      SumPick(f, s - {y}, x);
      SumPick(f, s - {x}, y);
      assert s - {y} - {x} == s - {x} - {y};
    }
  }

  lemma SumAdd(f: nat -> nat, s: set<nat>, x: nat)
    requires x !in s
    ensures SumOver(f, s + {x}) == f(x) + SumOver(f, s)
  {
    SumPick(f, s + {x}, x);
    assert s + {x} - {x} == s;
  }

  lemma {:induction false} SumUnion(f: nat -> nat, s: set<nat>, t: set<nat>)
    requires s !! t
    ensures SumOver(f, s + t) == SumOver(f, s) + SumOver(f, t)
    decreases |t|
  {
    if t == {} {
      assert s + t == s;
    } else {
      var x :| x in t;
      SumPick(f, t, x);
      SumUnion(f, s, t - {x});
      SumAdd(f, s + (t - {x}), x);
      assert s + (t - {x}) + {x} == s + t;
    }
  }

  lemma SumSplit(f: nat -> nat, s: set<nat>, t: set<nat>)
    requires t <= s
    ensures SumOver(f, s) == SumOver(f, s - t) + SumOver(f, t)
  {
    SumUnion(f, s - t, t);
    assert s - t + t == s;
  }

  lemma {:induction false} SumZero(f: nat -> nat, s: set<nat>)
    ensures SumOver(f, s) == 0 <==> forall x :: x in s ==> f(x) == 0
    decreases |s|
  {
    if s != {} {
      var x :| x in s;
      SumPick(f, s, x);
      SumZero(f, s - {x});
    }
  }

  lemma {:induction false} SumSame(f: nat -> nat, g: nat -> nat, s: set<nat>)
    requires forall x :: x in s ==> f(x) == g(x)
    ensures SumOver(f, s) == SumOver(g, s)
    decreases |s|
  {
    if s != {} {
      var x :| x in s;
      SumPick(f, s, x);
      SumPick(g, s, x);
      SumSame(f, g, s - {x});
    }
  }
}
