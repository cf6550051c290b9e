/** `collections.Counter` over a sequence, as app/graphs.py uses it: a tally of
    (key, count) pairs whose keys appear in order of first occurrence. */
module Counter {
  import opened Seqs

  /** The keys of a tally, in order. */
  function Keys<T>(t: seq<(T, nat)>): (ks: seq<T>)
    ensures |ks| == |t|
    ensures forall i :: 0 <= i < |t| ==> ks[i] == t[i].0
  {
    seq(|t|, i requires 0 <= i < |t| => t[i].0)
  }

  /** No key is listed twice. */
  predicate DistinctKeys<T(==)>(t: seq<(T, nat)>) {
    forall i, j :: 0 <= i < j < |t| ==> t[i].0 != t[j].0
  }

  /** Total of all counts. */
  function Sum<T>(t: seq<(T, nat)>): nat
    decreases |t|
  {
    if |t| == 0 then 0 else t[0].1 + Sum(t[1..])
  }

  lemma {:induction false} SumAppend<T>(t: seq<(T, nat)>, p: (T, nat))
    ensures Sum(t + [p]) == Sum(t) + p.1
    decreases |t|
  {
    if |t| > 0 {
      assert (t + [p])[1..] == t[1..] + [p];
      SumAppend(t[1..], p);
    } else {
      assert t + [p] == [p];
    }
  }

  lemma {:induction false} SumIncrement<T>(t: seq<(T, nat)>, k: nat)
    requires k < |t|
    ensures Sum(t[k := (t[k].0, t[k].1 + 1)]) == Sum(t) + 1
    decreases k
  {
    if k > 0 {
      assert t[k := (t[k].0, t[k].1 + 1)][1..] == t[1..][k - 1 := (t[k].0, t[k].1 + 1)];
      SumIncrement(t[1..], k - 1);
    }
  }

  /** Position of key `x` in the tally, or -1 when it is not a key. */
  function IndexOf<T(==)>(t: seq<(T, nat)>, x: T): (k: int)
    ensures -1 <= k < |t|
    ensures 0 <= k ==> t[k].0 == x
    ensures k < 0 ==> forall i :: 0 <= i < |t| ==> t[i].0 != x
    decreases |t|
  {
    if |t| == 0 then -1
    else if t[0].0 == x then 0
    else
      var k := IndexOf(t[1..], x);
      if k < 0 then -1 else k + 1
  }

  /** Counting one more `x`: its count goes up by one, or it is added at the
      end with count 1; every other entry stays as it was. */
  function Bump<T(==)>(t: seq<(T, nat)>, x: T): (t': seq<(T, nat)>)
    requires DistinctKeys(t)
    ensures DistinctKeys(t')
    ensures |t'| == if IndexOf(t, x) < 0 then |t| + 1 else |t|
    ensures forall i :: 0 <= i < |t| ==>
              t'[i].0 == t[i].0 && t'[i].1 == if t[i].0 == x then t[i].1 + 1 else t[i].1
    ensures IndexOf(t, x) < 0 ==> t'[|t|] == (x, 1)
    ensures Sum(t') == Sum(t) + 1
  {
    var k := IndexOf(t, x);
    if k < 0 then
      SumAppend(t, (x, 1));
      t + [(x, 1)]
    else
      SumIncrement(t, k);
      t[k := (x, t[k].1 + 1)]
  }

  /** `Counter(xs)`: every element of `xs` is a key, every key occurs in
      `xs`, no key twice, each count is the key's number of occurrences, and
      the counts add up to the length of `xs`. */
  function Tally<T(==)>(xs: seq<T>): (t: seq<(T, nat)>)
    ensures forall i :: 0 <= i < |t| ==> t[i].0 in xs
    ensures forall k :: 0 <= k < |xs| ==> IndexOf(t, xs[k]) >= 0
    ensures DistinctKeys(t)
    ensures forall i :: 0 <= i < |t| ==> t[i].1 == multiset(xs)[t[i].0]
    ensures Sum(t) == |xs|
    decreases |xs|
  {
    if |xs| == 0 then []
    else
      var front := xs[..|xs| - 1];
      var x := xs[|xs| - 1];
      var t0 := Tally(front);
      TallyStep(xs, front, x, t0);
      Bump(t0, x)
  }

  /** The inductive step of `Tally`: counting one more element keeps all its promises. */
  lemma TallyStep<T>(xs: seq<T>, front: seq<T>, x: T, t0: seq<(T, nat)>)
    requires xs == front + [x]
    requires forall i :: 0 <= i < |t0| ==> t0[i].0 in front
    requires forall k :: 0 <= k < |front| ==> IndexOf(t0, front[k]) >= 0
    requires DistinctKeys(t0)
    requires forall i :: 0 <= i < |t0| ==> t0[i].1 == multiset(front)[t0[i].0]
    ensures forall i :: 0 <= i < |Bump(t0, x)| ==> Bump(t0, x)[i].0 in xs
    ensures forall k :: 0 <= k < |xs| ==> IndexOf(Bump(t0, x), xs[k]) >= 0
    ensures forall i :: 0 <= i < |Bump(t0, x)| ==> Bump(t0, x)[i].1 == multiset(xs)[Bump(t0, x)[i].0]
  {
    var t := Bump(t0, x);
    assert multiset(xs) == multiset(front) + multiset{x};
    forall k | 0 <= k < |xs|
      ensures IndexOf(t, xs[k]) >= 0
    {
      var y := xs[k];
      if k < |front| {
        var j := IndexOf(t0, front[k]);
        assert t[j].0 == y;
      } else if IndexOf(t0, x) >= 0 {
        assert t[IndexOf(t0, x)].0 == y;
      } else {
        assert t[|t0|].0 == y;
      }
    }
  }

  /** `Tally` counts the last element after all the others. */
  lemma TallyLast<T>(xs: seq<T>)
    requires |xs| > 0
    ensures Tally(xs) == Bump(Tally(xs[..|xs| - 1]), xs[|xs| - 1])
  {
  }

  /** Every key occurs in `xs`, and keys come in the order of their first occurrences there. */
  predicate InFirstOccurrenceOrder<T(==)>(xs: seq<T>, ks: seq<T>) {
    && (forall i :: 0 <= i < |ks| ==> ks[i] in xs)
    && (forall i, j :: 0 <= i < j < |ks| ==> FirstIndex(xs, ks[i]) < FirstIndex(xs, ks[j]))
  }

  lemma OrderAfterAppend<T>(xs: seq<T>, x: T, ks: seq<T>)
    requires InFirstOccurrenceOrder(xs, ks)
    ensures InFirstOccurrenceOrder(xs + [x], ks)
  {
    forall i | 0 <= i < |ks|
      ensures ks[i] in xs + [x] && FirstIndex(xs + [x], ks[i]) == FirstIndex(xs, ks[i])
    {
      FirstIndexAppend(xs, x, ks[i]);
    }
  }

  lemma OrderAfterNewKey<T>(xs: seq<T>, x: T, ks: seq<T>)
    requires InFirstOccurrenceOrder(xs, ks) && x !in xs
    ensures InFirstOccurrenceOrder(xs + [x], ks + [x])
  {
    OrderAfterAppend(xs, x, ks);
    assert FirstIndex(xs + [x], x) == |xs|;
    forall i | 0 <= i < |ks|
      ensures FirstIndex(xs + [x], ks[i]) < |xs|
    {
      FirstIndexAppend(xs, x, ks[i]);
    }
  }

  lemma KeysOfBump<T>(t: seq<(T, nat)>, x: T)
    requires DistinctKeys(t)
    ensures IndexOf(t, x) >= 0 ==> Keys(Bump(t, x)) == Keys(t)
    ensures IndexOf(t, x) < 0 ==> Keys(Bump(t, x)) == Keys(t) + [x]
  {
    var t' := Bump(t, x);
    assert forall i :: 0 <= i < |t| ==> Keys(t')[i] == Keys(t)[i];
  }

  lemma NotCountedNotPresent<T>(xs: seq<T>, x: T)
    requires IndexOf(Tally(xs), x) < 0
    ensures x !in xs
  {
    forall k | 0 <= k < |xs|
      ensures xs[k] != x
    {
      assert IndexOf(Tally(xs), xs[k]) >= 0;
    }
  }

  /** The keys of `Counter(xs)` are exactly the elements of `xs`. */
  lemma TallyKeys<T>(xs: seq<T>)
    ensures forall x :: x in Keys(Tally(xs)) <==> x in xs
  {
    var t := Tally(xs);
    forall x | x in xs
      ensures x in Keys(t)
    {
      var k :| 0 <= k < |xs| && xs[k] == x;
      assert Keys(t)[IndexOf(t, xs[k])] == x;
    }
  }

  /** The keys of `Counter(xs)` come in the order their first occurrences have in `xs`. */
  lemma {:induction false} TallyFirstOccurrenceOrder<T>(xs: seq<T>)
    ensures InFirstOccurrenceOrder(xs, Keys(Tally(xs)))
    decreases |xs|
  {
    if |xs| > 0 {
      var front := xs[..|xs| - 1];
      var x := xs[|xs| - 1];
      assert xs == front + [x];
      TallyLast(xs);
      TallyFirstOccurrenceOrder(front);
      var t0 := Tally(front);
      KeysOfBump(t0, x);
      if IndexOf(t0, x) >= 0 {
        OrderAfterAppend(front, x, Keys(t0));
      } else {
        NotCountedNotPresent(front, x);
        OrderAfterNewKey(front, x, Keys(t0));
      }
    } else {
      assert Keys(Tally(xs)) == [];
    }
  }

  /** A tally is empty exactly when nothing was counted (`if word_counts:`). */
  lemma TallyEmpty<T>(xs: seq<T>)
    ensures |Tally(xs)| == 0 <==> |xs| == 0
  {
    if |xs| > 0 {
      assert IndexOf(Tally(xs), xs[0]) >= 0;
    }
  }
}
