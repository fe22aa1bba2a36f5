/** Small vocabulary shared by the modules of this project. */
module Common {

  datatype Option<+T> = None | Some(value: T)

  /** One octet of an opaque payload (`unsigned char`). */
  newtype byte = x: int | 0 <= x < 0x100

  /** Number of values of a 64-bit `size_t`. */
  const SIZE_RANGE: int := 0x1_0000_0000_0000_0000

  /** A 64-bit `size_t`. */
  type word = x: int | 0 <= x < SIZE_RANGE

  /** The value an unsigned 64-bit computation stores for the integer `x`. */
  function Wrap(x: int): word {
    if 0 <= x < SIZE_RANGE then x else x % SIZE_RANGE
  }

  /** `s` without its element at index `i`. */
  function RemoveAt<T>(s: seq<T>, i: nat): (r: seq<T>)
    requires i < |s|
    ensures |r| == |s| - 1
  {
    s[..i] + s[i + 1..]
  }

  ghost predicate Distinct<T>(s: seq<T>) {
    forall i, j :: 0 <= i < j < |s| ==> s[i] != s[j]
  }

  lemma RemoveAtDistinct<T>(s: seq<T>, i: nat)
    requires i < |s| && Distinct(s)
    ensures Distinct(RemoveAt(s, i))
    ensures s[i] !in RemoveAt(s, i)
  {
  }

  /** The weights `f` gives the first `n` elements, added up. */
  function Weigh<T>(s: seq<T>, n: nat, f: T -> nat): nat
    requires n <= |s|
  {
    if n == 0 then 0 else Weigh(s, n - 1, f) + f(s[n - 1])
  }

  lemma {:induction false} WeighUpdate<T>(s: seq<T>, n: nat, f: T -> nat, i: nat, x: T)
    requires i < |s| && n <= |s|
    ensures Weigh(s[i := x], n, f) + (if i < n then f(s[i]) else 0) == Weigh(s, n, f) + if i < n then f(x) else 0
  {
    if n > 0 {
      WeighUpdate(s, n - 1, f, i, x);
    }
  }

  lemma {:induction false} WeighMonotone<T>(s: seq<T>, t: seq<T>, n: nat, f: T -> nat)
    requires n <= |s| && n <= |t| && forall i :: 0 <= i < n ==> f(s[i]) <= f(t[i])
    ensures Weigh(s, n, f) <= Weigh(t, n, f)
    ensures forall i :: 0 <= i < n ==> f(s[i]) <= Weigh(s, n, f)
    ensures (exists i :: 0 <= i < n && f(s[i]) < f(t[i])) ==> Weigh(s, n, f) < Weigh(t, n, f)
  {
    if n > 0 {
      WeighMonotone(s, t, n - 1, f);
    }
  }

  lemma {:induction false} WeighWithin<T>(s: seq<T>, t: seq<T>, n: nat, f: T -> nat, slack: nat)
    requires n <= |s| && n <= |t| && forall i :: 0 <= i < n ==> f(s[i]) <= f(t[i]) + slack
    ensures Weigh(s, n, f) <= Weigh(t, n, f) + slack * n
  {
    if n > 0 {
      WeighWithin(s, t, n - 1, f, slack);
    }
  }

  lemma WeighAppend<T>(s: seq<T>, x: T, f: T -> nat)
    ensures Weigh(s + [x], |s| + 1, f) == Weigh(s, |s|, f) + f(x)
  {
    WeighMonotone(s, s + [x], |s|, f);
    WeighMonotone(s + [x], s, |s|, f);
  }

  lemma {:induction false} WeighRemoveAt<T>(s: seq<T>, n: nat, f: T -> nat, i: nat)
    requires i < n <= |s|
    ensures Weigh(RemoveAt(s, i), n - 1, f) + f(s[i]) == Weigh(s, n, f)
  {
    if n == i + 1 {
      WeighMonotone(s, RemoveAt(s, i), i, f);
      WeighMonotone(RemoveAt(s, i), s, i, f);
    } else {
      WeighRemoveAt(s, n - 1, f, i);
    }
  }

  lemma RemoveAtMultiset<T>(s: seq<T>, i: nat)
    requires i < |s|
    ensures multiset(RemoveAt(s, i)) == multiset(s) - multiset{s[i]}
  {
    assert s == s[..i] + [s[i]] + s[i + 1..];
  }

  /** What is contained in `t`, as often as it occurs, weighs no more. */
  lemma {:induction false} WeighContained<T>(s: seq<T>, t: seq<T>, f: T -> nat)
    requires multiset(s) <= multiset(t)
    ensures Weigh(s, |s|, f) <= Weigh(t, |t|, f)
  {
    if s != [] {
      var before, x := s[..|s| - 1], s[|s| - 1];
      assert s == before + [x];
      assert x in multiset(s);
      var i :| 0 <= i < |t| && t[i] == x;
      RemoveAtMultiset(t, i);
      hide RemoveAt, Weigh;
      WeighContained(before, RemoveAt(t, i), f);
      WeighAppend(before, x, f);
      WeighRemoveAt(t, |t|, f, i);
    }
  }

  lemma {:induction false} WeighBelow<S, T>(s: seq<S>, f: S -> nat, t: seq<T>, g: T -> nat, n: nat)
    requires n <= |s| && n <= |t| && forall i :: 0 <= i < n ==> f(s[i]) <= g(t[i])
    ensures Weigh(s, n, f) <= Weigh(t, n, g)
  {
    if n > 0 {
      WeighBelow(s, f, t, g, n - 1);
    }
  }
}
