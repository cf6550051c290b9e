/** Sequence helpers shared by the store query and the report. */
module Seqs {

  /** The elements of `s`, last first. */
  function Reverse<T>(s: seq<T>): (r: seq<T>)
    ensures |r| == |s|
    ensures forall i :: 0 <= i < |s| ==> r[i] == s[|s| - 1 - i]
    decreases |s|
  {
    if |s| == 0 then [] else [s[|s| - 1]] + Reverse(s[..|s| - 1])
  }

  lemma ReverseLast<T>(s: seq<T>)
    requires |s| > 0
    ensures Reverse(s) == [s[|s| - 1]] + Reverse(s[..|s| - 1])
  {
  }

  /** SQL `LIMIT n` on an ordered row list, as SQLite reads it: a negative
      limit means no limit at all, otherwise at most `n` leading rows. */
  function Limit<T>(s: seq<T>, n: int): (r: seq<T>)
    ensures n < 0 || |s| <= n ==> r == s
    ensures 0 <= n <= |s| ==> |r| == n
    ensures r <= s
  {
    if n < 0 || |s| <= n then s else s[..n]
  }

  /** Cutting after a first element leaves one place less for the rest. */
  lemma LimitCons<T>(x: T, s: seq<T>, n: int)
    requires n != 0
    ensures Limit([x] + s, n) == [x] + Limit(s, n - 1)
  {
    if 0 < n <= |s| {
      assert ([x] + s)[..n] == [x] + s[..n - 1];
    }
  }

  /** Putting an element in front of a concatenation. */
  lemma ConsAppend<T>(x: T, a: seq<T>, b: seq<T>)
    ensures [x] + (a + b) == ([x] + a) + b
  {
  }

  /** Index of the first occurrence of `x` in `s`. */
  function FirstIndex<T(==)>(s: seq<T>, x: T): (k: nat)
    requires x in s
    ensures k < |s| && s[k] == x
    ensures forall j :: 0 <= j < k ==> s[j] != x
  {
    if s[0] == x then 0 else 1 + FirstIndex(s[1..], x)
  }

  /** Appending an element leaves the first occurrence of anything already present where it was. */
  lemma {:induction false} FirstIndexAppend<T>(s: seq<T>, y: T, x: T)
    requires x in s
    ensures x in s + [y] && FirstIndex(s + [y], x) == FirstIndex(s, x)
  {
    if s[0] != x {
      assert (s + [y])[1..] == s[1..] + [y];
      FirstIndexAppend(s[1..], y, x);
    }
  }
}
