/** Totals over the threads of a concurrent system. */
module Counting {
  function Total<T>(s: seq<T>, weight: T -> nat): nat {
    if s == [] then 0 else weight(s[0]) + Total(s[1..], weight)
  }

  lemma {:induction false} TotalUpdate<T>(s: seq<T>, weight: T -> nat, i: nat, x: T)
    requires i < |s|
    ensures Total(s[i := x], weight) + weight(s[i]) == Total(s, weight) + weight(x)
  {
    if i == 0 {
      assert s[0 := x][1..] == s[1..];
    } else {
      assert s[i := x][1..] == s[1..][i - 1 := x];
      TotalUpdate(s[1..], weight, i - 1, x);
    }
  }

  lemma {:induction false} TotalAtLeast<T>(s: seq<T>, weight: T -> nat, i: nat)
    requires i < |s|
    ensures Total(s, weight) >= weight(s[i])
  {
    if i > 0 { TotalAtLeast(s[1..], weight, i - 1); }
  }

  lemma {:induction false} TotalZero<T>(s: seq<T>, weight: T -> nat)
    requires forall i :: 0 <= i < |s| ==> weight(s[i]) == 0
    ensures Total(s, weight) == 0
  {
    if s != [] { TotalZero(s[1..], weight); }
  }

  lemma {:induction false} TotalSame<T>(s: seq<T>, t: seq<T>, weight: T -> nat)
    requires |s| == |t| && forall i :: 0 <= i < |s| ==> weight(s[i]) == weight(t[i])
    ensures Total(s, weight) == Total(t, weight)
  {
    if s != [] { TotalSame(s[1..], t[1..], weight); }
  }

  /** The same change made to every thread. */
  function Each<T>(s: seq<T>, change: T -> T): (r: seq<T>)
    ensures |r| == |s| && forall i :: 0 <= i < |r| ==> r[i] == change(s[i])
  {
    if s == [] then [] else [change(s[0])] + Each(s[1..], change)
  }
}
