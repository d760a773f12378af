/** Sums over the elements of a sequence, for counting the threads or tasks of a kind. */
module Counting {

  function Total<T>(s: seq<T>, weight: T -> nat): nat {
    if s == [] then 0 else Total(s[..|s| - 1], weight) + weight(s[|s| - 1])
  }

  lemma {:induction false} TotalUpdate<T>(s: seq<T>, i: nat, x: T, weight: T -> nat)
    requires i < |s|
    ensures Total(s[i := x], weight) == Total(s, weight) - weight(s[i]) + weight(x)
  {
    var n := |s| - 1;
    if i == n {
      assert s[i := x][..n] == s[..n];
    } else {
      assert s[i := x][..n] == s[..n][i := x];
      TotalUpdate(s[..n], i, x, weight);
    }
  }

  lemma TotalAppend<T>(s: seq<T>, x: T, weight: T -> nat)
    ensures Total(s + [x], weight) == Total(s, weight) + weight(x)
  {
    assert (s + [x])[..|s|] == s;
  }

  lemma {:induction false} TotalFirst<T>(s: seq<T>, weight: T -> nat)
    requires s != []
    ensures Total(s, weight) == weight(s[0]) + Total(s[1..], weight)
  {
    var n := |s| - 1;
    if n > 0 {
      TotalFirst(s[..n], weight);
      assert s[..n][1..] == s[1..][..n - 1];
    }
  }

  lemma {:induction false} TotalZero<T>(s: seq<T>, weight: T -> nat)
    ensures Total(s, weight) == 0 <==> forall i :: 0 <= i < |s| ==> weight(s[i]) == 0
  {
    if s != [] {
      TotalZero(s[..|s| - 1], weight);
    }
  }

  lemma {:induction false} TotalAtLeast<T>(s: seq<T>, i: nat, weight: T -> nat)
    requires i < |s|
    ensures Total(s, weight) >= weight(s[i])
  {
    if i < |s| - 1 {
      TotalAtLeast(s[..|s| - 1], i, weight);
    }
  }

  lemma {:induction false} TotalOfTwo<T>(s: seq<T>, i: nat, j: nat, weight: T -> nat)
    requires i < j < |s|
    ensures Total(s, weight) >= weight(s[i]) + weight(s[j])
  {
    if j == |s| - 1 {
      TotalAtLeast(s[..j], i, weight);
    } else {
      TotalOfTwo(s[..|s| - 1], i, j, weight);
    }
  }

  lemma {:induction false} TotalMost<T>(s: seq<T>, weight: T -> nat, most: nat)
    requires forall x :: weight(x) <= most
    ensures Total(s, weight) <= most * |s|
  {
    if s != [] {
      TotalMost(s[..|s| - 1], weight, most);
      assert most * |s| == most * (|s| - 1) + most;
    }
  }
}
