/** Totals of a per-element quantity over a sequence, used for "how many threads are at ...". */
module Tally {

  function Sum<T>(f: T -> nat, s: seq<T>): nat {
    if |s| == 0 then 0 else Sum(f, s[..|s| - 1]) + f(s[|s| - 1])
  }

  /** Replacing one element moves the total by exactly the change of that element. */
  lemma {:induction false} SumUpdate<T>(f: T -> nat, s: seq<T>, i: nat, v: T)
    requires i < |s|
    ensures Sum(f, s[i := v]) + f(s[i]) == Sum(f, s) + f(v)
  {
    var last := |s| - 1;
    if i == last {
      assert s[i := v][..last] == s[..last];
    } else {
      SumUpdate(f, s[..last], i, v);
      assert s[i := v][..last] == s[..last][i := v];
    }
  }

  lemma {:induction false} SumAtLeast<T>(f: T -> nat, s: seq<T>, i: nat)
    requires i < |s|
    ensures f(s[i]) <= Sum(f, s)
  {
    if i < |s| - 1 {
      SumAtLeast(f, s[..|s| - 1], i);
    }
  }

  lemma {:induction false} SumAtLeastTwo<T>(f: T -> nat, s: seq<T>, i: nat, j: nat)
    requires i < j < |s|
    ensures f(s[i]) + f(s[j]) <= Sum(f, s)
  {
    if j < |s| - 1 {
      SumAtLeastTwo(f, s[..|s| - 1], i, j);
    } else {
      SumAtLeast(f, s[..j], i);
    }
  }

  lemma {:induction false} SumAtMostLength<T>(f: T -> nat, s: seq<T>)
    requires forall i :: 0 <= i < |s| ==> f(s[i]) <= 1
    ensures Sum(f, s) <= |s|
  {
    if |s| > 0 {
      SumAtMostLength(f, s[..|s| - 1]);
    }
  }

  lemma {:induction false} SumZero<T>(f: T -> nat, s: seq<T>)
    ensures Sum(f, s) == 0 <==> forall i :: 0 <= i < |s| ==> f(s[i]) == 0
  {
    if |s| > 0 {
      SumZero(f, s[..|s| - 1]);
      assert forall i :: 0 <= i < |s| - 1 ==> s[..|s| - 1][i] == s[i];
      if Sum(f, s) == 0 {
        forall i | 0 <= i < |s| ensures f(s[i]) == 0 {
          SumAtLeast(f, s, i);
        }
      }
    }
  }

  lemma {:induction false} SumPositive<T>(f: T -> nat, s: seq<T>) returns (i: nat)
    requires Sum(f, s) > 0
    ensures i < |s| && f(s[i]) > 0
  {
    if f(s[|s| - 1]) > 0 {
      i := |s| - 1;
    } else {
      i := SumPositive(f, s[..|s| - 1]);
    }
  }

  /** With one element that counts, the total is what it counts for. */
  lemma {:induction false} SumSingle<T>(f: T -> nat, s: seq<T>, t: nat)
    requires t < |s| && forall i :: 0 <= i < |s| && i != t ==> f(s[i]) == 0
    ensures Sum(f, s) == f(s[t])
  {
    var last := |s| - 1;
    if t == last {
      SumZero(f, s[..last]);
    } else {
      SumSingle(f, s[..last], t);
    }
  }

  lemma {:induction false} SumMonotone<T>(f: T -> nat, g: T -> nat, s: seq<T>)
    requires forall i :: 0 <= i < |s| ==> f(s[i]) <= g(s[i])
    ensures Sum(f, s) <= Sum(g, s)
  {
    if |s| > 0 {
      SumMonotone(f, g, s[..|s| - 1]);
    }
  }

  lemma {:induction false} SumDominates<T>(f: T -> nat, s: seq<T>, r: seq<T>)
    requires |s| == |r| && forall i :: 0 <= i < |s| ==> f(s[i]) <= f(r[i])
    ensures Sum(f, s) <= Sum(f, r)
  {
    if |s| > 0 {
      SumDominates(f, s[..|s| - 1], r[..|r| - 1]);
    }
  }

  lemma SumAgrees<T>(f: T -> nat, s: seq<T>, r: seq<T>)
    requires |s| == |r| && forall i :: 0 <= i < |s| ==> f(s[i]) == f(r[i])
    ensures Sum(f, s) == Sum(f, r)
  {
    SumDominates(f, s, r);
    SumDominates(f, r, s);
  }
}
