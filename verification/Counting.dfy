/** Counting the elements of a sequence that satisfy a predicate, and summing a
    quantity over a sequence. The connection pool states its permit accounting
    with these two functions. */
module Counting {

  function Bit(b: bool): int {
    if b then 1 else 0
  }

  /** How many elements of `ts` satisfy `p`. */
  ghost function Count<T>(ts: seq<T>, p: T -> bool): nat {
    if ts == [] then 0 else Count(ts[..|ts| - 1], p) + Bit(p(ts[|ts| - 1]))
  }

  ghost function Sum<T>(ts: seq<T>, f: T -> int): int {
    if ts == [] then 0 else Sum(ts[..|ts| - 1], f) + f(ts[|ts| - 1])
  }

  lemma {:induction false} CountUpdate<T>(ts: seq<T>, i: nat, x: T, p: T -> bool)
    requires i < |ts|
    ensures Count(ts[i := x], p) == Count(ts, p) - Bit(p(ts[i])) + Bit(p(x))
  {
    var n := |ts| - 1;
    if i == n {
      assert ts[i := x][..n] == ts[..n];
    } else {
      assert ts[i := x][..n] == ts[..n][i := x];
      CountUpdate(ts[..n], i, x, p);
    }
  }

  /** Pointwise implication between two sequences of equal length bounds the counts. */
  lemma {:induction false} CountLeq<T>(ts: seq<T>, us: seq<T>, p: T -> bool, q: T -> bool)
    requires |ts| == |us|
    requires forall i :: 0 <= i < |ts| && p(ts[i]) ==> q(us[i])
    ensures Count(ts, p) <= Count(us, q)
  {
    if ts != [] {
      CountLeq(ts[..|ts| - 1], us[..|us| - 1], p, q);
    }
  }

  /** Covering `p` by `q` and `r` bounds its count by the sum of theirs. */
  lemma {:induction false} CountCover<T>(ts: seq<T>, p: T -> bool, q: T -> bool, r: T -> bool)
    requires forall i :: 0 <= i < |ts| && p(ts[i]) ==> q(ts[i]) || r(ts[i])
    ensures Count(ts, p) <= Count(ts, q) + Count(ts, r)
  {
    if ts != [] {
      CountCover(ts[..|ts| - 1], p, q, r);
    }
  }

  /** Two exclusive predicates that both imply `r` fit together under its count. */
  lemma {:induction false} CountDisjoint<T>(ts: seq<T>, p: T -> bool, q: T -> bool, r: T -> bool)
    requires forall i :: 0 <= i < |ts| ==> !(p(ts[i]) && q(ts[i])) && (p(ts[i]) || q(ts[i]) ==> r(ts[i]))
    ensures Count(ts, p) + Count(ts, q) <= Count(ts, r)
  {
    if ts != [] {
      CountDisjoint(ts[..|ts| - 1], p, q, r);
    }
  }

  /** A positive count has a witness. */
  lemma {:induction false} CountWitness<T>(ts: seq<T>, p: T -> bool) returns (i: nat)
    requires Count(ts, p) > 0
    ensures i < |ts| && p(ts[i])
  {
    i := |ts| - 1;
    if !p(ts[i]) {
      i := CountWitness(ts[..|ts| - 1], p);
    }
  }

  lemma {:induction false} CountNone<T>(ts: seq<T>, p: T -> bool)
    requires forall i :: 0 <= i < |ts| ==> !p(ts[i])
    ensures Count(ts, p) == 0
  {
    if ts != [] {
      CountNone(ts[..|ts| - 1], p);
    }
  }

  lemma SumAppend<T>(ts: seq<T>, x: T, f: T -> int)
    ensures Sum(ts + [x], f) == Sum(ts, f) + f(x)
  {
  }

  lemma {:induction false} SumUpdate<T>(ts: seq<T>, i: nat, x: T, f: T -> int)
    requires i < |ts|
    ensures Sum(ts[i := x], f) == Sum(ts, f) - f(ts[i]) + f(x)
  {
    var n := |ts| - 1;
    if i == n {
      assert ts[i := x][..n] == ts[..n];
    } else {
      assert ts[i := x][..n] == ts[..n][i := x];
      SumUpdate(ts[..n], i, x, f);
    }
  }

  /** Bounds on each term carry over to the sum. */
  lemma {:induction false} SumBounds<T>(ts: seq<T>, f: T -> int, high: nat)
    requires forall i :: 0 <= i < |ts| ==> 0 <= f(ts[i]) <= high
    ensures 0 <= Sum(ts, f) <= |ts| * high
  {
    if ts != [] {
      SumBounds(ts[..|ts| - 1], f, high);
    }
  }
}
