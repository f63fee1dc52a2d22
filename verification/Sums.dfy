/** Sums of a per-element measure over a sequence. The step systems count threads
    by program point, and add up ranks, with these. */
module Sums {

  function Sum<T>(s: seq<T>, f: T -> nat): nat
  {
    if s == [] then 0 else f(s[0]) + Sum(s[1..], f)
  }

  /** Replacing one element changes the sum by the difference of its measure. */
  lemma {:induction false} SumUpdate<T>(s: seq<T>, i: nat, x: T, f: T -> nat)
    requires i < |s|
    ensures Sum(s[i := x], f) + f(s[i]) == Sum(s, f) + f(x)
  {
    if i == 0 {
      assert s[i := x][1..] == s[1..];
    } else {
      SumUpdate(s[1..], i - 1, x, f);
      assert s[i := x][1..] == s[1..][i - 1 := x];
    }
  }

  /** One element never exceeds the sum. */
  lemma {:induction false} SumAtLeast<T>(s: seq<T>, i: nat, f: T -> nat)
    requires i < |s|
    ensures f(s[i]) <= Sum(s, f)
  {
    if i > 0 {
      SumAtLeast(s[1..], i - 1, f);
    }
  }

  /** Two different elements together never exceed the sum. */
  lemma {:induction false} SumAtLeastTwo<T>(s: seq<T>, i: nat, j: nat, f: T -> nat)
    requires i < j < |s|
    ensures f(s[i]) + f(s[j]) <= Sum(s, f)
  {
    if i == 0 {
      SumAtLeast(s[1..], j - 1, f);
    } else {
      SumAtLeastTwo(s[1..], i - 1, j - 1, f);
    }
  }

  /** A positive sum has a positive element. */
  lemma {:induction false} SumWitness<T>(s: seq<T>, f: T -> nat) returns (i: nat)
    requires Sum(s, f) > 0
    ensures i < |s| && f(s[i]) > 0
  {
    if f(s[0]) > 0 {
      i := 0;
    } else {
      var j := SumWitness(s[1..], f);
      i := j + 1;
    }
  }

  /** Elementwise equal measures give equal sums. */
  lemma {:induction false} SumSame<T>(s: seq<T>, t: seq<T>, f: T -> nat)
    requires |s| == |t|
    requires forall i :: 0 <= i < |s| ==> f(t[i]) == f(s[i])
    ensures Sum(t, f) == Sum(s, f)
  {
    if s != [] {
      SumSame(s[1..], t[1..], f);
    }
  }

  lemma {:induction false} SumZero<T>(s: seq<T>, f: T -> nat)
    requires forall i :: 0 <= i < |s| ==> f(s[i]) == 0
    ensures Sum(s, f) == 0
  {
    if s != [] {
      SumZero(s[1..], f);
    }
  }

  lemma Pick<T>(s: set<T>) returns (x: T)
    requires s != {}
    ensures x in s
  {
    x :| x in s;
  }

  // ----- The same for multisets ---------------------------------------------------------------

  function Pile<T>(s: seq<T>, f: T -> multiset<int>): multiset<int>
  {
    if s == [] then multiset{} else f(s[0]) + Pile(s[1..], f)
  }

  lemma {:induction false} PileUpdate<T>(s: seq<T>, i: nat, x: T, f: T -> multiset<int>)
    requires i < |s|
    ensures Pile(s[i := x], f) + f(s[i]) == Pile(s, f) + f(x)
  {
    if i == 0 {
      assert s[i := x][1..] == s[1..];
      Swap(f(x), Pile(s[1..], f), f(s[0]));
    } else {
      PileUpdate(s[1..], i - 1, x, f);
      assert s[i := x][1..] == s[1..][i - 1 := x];
      Shift(f(s[0]), Pile(s[1..][i - 1 := x], f), f(s[i]), Pile(s[1..], f), f(x));
    }
  }

  lemma Swap(a: multiset<int>, b: multiset<int>, c: multiset<int>)
    ensures a + b + c == c + b + a
  {
  }

  lemma Shift(a: multiset<int>, b: multiset<int>, c: multiset<int>, d: multiset<int>, e: multiset<int>)
    requires b + c == d + e
    ensures a + b + c == a + d + e
  {
    assert a + b + c == a + (b + c) && a + d + e == a + (d + e);
  }

  /** Books stay balanced: what came in (`d`) and went out (`e`) through one hand. */
  lemma Balance(popped: multiset<int>, handled: multiset<int>, pile: multiset<int>, pile': multiset<int>,
                h: multiset<int>, h': multiset<int>, d: multiset<int>, e: multiset<int>)
    requires popped == handled + pile
    requires pile' + h == pile + h'
    requires h + d == h' + e
    ensures popped + d == handled + e + pile'
  {
    forall x ensures (popped + d)[x] == (handled + e + pile')[x] {
      assert (pile' + h)[x] == (pile + h')[x] && (h + d)[x] == (h' + e)[x];
    }
  }

  lemma Cancel(a: multiset<int>, b: multiset<int>, c: multiset<int>)
    requires a + c == b + c
    ensures a == b
  {
    forall x ensures a[x] == b[x] {
      assert (a + c)[x] == (b + c)[x];
    }
  }

  /** A pile of hands with at most one `x` each; as many `x` as hands means one in each. */
  lemma {:induction false} PileCount<T>(s: seq<T>, f: T -> multiset<int>, x: int)
    requires forall i :: 0 <= i < |s| ==> f(s[i])[x] <= 1
    ensures Pile(s, f)[x] <= |s|
    ensures Pile(s, f)[x] == |s| <==> forall i :: 0 <= i < |s| ==> f(s[i])[x] == 1
  {
    if s != [] {
      PileCount(s[1..], f, x);
      assert forall i :: 1 <= i < |s| ==> s[i] == s[1..][i - 1];
      if Pile(s, f)[x] == |s| {
        forall i | 0 <= i < |s| ensures f(s[i])[x] == 1 {
          if i > 0 {
            assert f(s[1..][i - 1])[x] == 1;
          }
        }
      }
    }
  }
}
