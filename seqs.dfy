/**
 * Sequence helpers shared by the model: concatenation of a list of lists,
 * occurrence counts, repetition and removal of a first occurrence
 * (`List<T>.Remove` in .NET).
 */
module Seqs {

  /** The concatenation of all lists in `ss`, in order. */
  function Flatten<T>(ss: seq<seq<T>>): seq<T>
  {
    if ss == [] then [] else ss[0] + Flatten(ss[1..])
  }

  lemma {:induction false} FlattenAppend<T>(a: seq<seq<T>>, b: seq<seq<T>>)
    ensures Flatten(a + b) == Flatten(a) + Flatten(b)
  {
    if a == [] {
      assert a + b == b;
    } else {
      assert (a + b)[1..] == a[1..] + b;
      FlattenAppend(a[1..], b);
      assert Flatten(a + b) == a[0] + Flatten(a[1..] + b);
    }
  }

  lemma FlattenSnoc<T>(rest: seq<seq<T>>, x: seq<T>)
    ensures Flatten(rest + [x]) == Flatten(rest) + x
  {
    FlattenAppend(rest, [x]);
    assert Flatten([x]) == x + Flatten([]);
  }

  /** Number of occurrences of `x` in `s`. */
  function Count<T(==)>(s: seq<T>, x: T): nat
  {
    if s == [] then 0 else Count(s[..|s| - 1], x) + (if s[|s| - 1] == x then 1 else 0)
  }

  lemma {:induction false} CountPositive<T>(s: seq<T>, x: T)
    ensures Count(s, x) > 0 <==> x in s
  {
    if s != [] {
      var n := |s| - 1;
      CountPositive(s[..n], x);
      assert s == s[..n] + [s[n]];
    }
  }

  /** `k` copies of `s`, one after the other. */
  function Repeat<T>(s: seq<T>, k: nat): seq<T>
  {
    if k == 0 then [] else Repeat(s, k - 1) + s
  }

  /** `s` without its first occurrence of `x`; `s` itself when `x` does not occur. */
  function RemoveFirst<T(==)>(s: seq<T>, x: T): (r: seq<T>)
    ensures |r| <= |s|
  {
    if s == [] then []
    else if s[0] == x then s[1..]
    else [s[0]] + RemoveFirst(s[1..], x)
  }

  lemma {:induction false} RemoveFirstSpec<T>(s: seq<T>, x: T)
    ensures x !in s ==> RemoveFirst(s, x) == s
    ensures x in s ==> multiset(RemoveFirst(s, x)) == multiset(s) - multiset{x}
    ensures x in s ==> |RemoveFirst(s, x)| == |s| - 1
  {
    if s != [] {
      assert s == [s[0]] + s[1..];
      if s[0] != x {
        RemoveFirstSpec(s[1..], x);
      }
    }
  }

  /** Number of `true` entries. */
  function CountTrue(bs: seq<bool>): nat
  {
    if bs == [] then 0 else CountTrue(bs[..|bs| - 1]) + (if bs[|bs| - 1] then 1 else 0)
  }

  lemma {:induction false} CountTrueBounds(bs: seq<bool>)
    ensures CountTrue(bs) <= |bs|
    ensures CountTrue(bs) == |bs| <==> forall i :: 0 <= i < |bs| ==> bs[i]
    ensures CountTrue(bs) == 0 <==> forall i :: 0 <= i < |bs| ==> !bs[i]
  {
    if bs != [] {
      var n := |bs| - 1;
      CountTrueBounds(bs[..n]);
      assert forall i :: 0 <= i < n ==> bs[..n][i] == bs[i];
    }
  }
}
