/** Sequences: how many elements satisfy a predicate, and how one update changes that number; the
    concurrent models use it to count the threads at a given program point. Searching, summing,
    mapping, and sizes of sets. */
module Counting {

  function Bit(b: bool): nat {
    if b then 1 else 0
  }

  function Count<A>(s: seq<A>, p: A -> bool): (n: nat)
    ensures n <= |s|
  {
    if s == [] then 0 else Bit(p(s[0])) + Count(s[1..], p)
  }

  /** Replacing one element moves the count by exactly what that element contributes. */
  lemma {:induction false} CountUpdate<A>(s: seq<A>, i: nat, a: A, p: A -> bool)
    requires i < |s|
    ensures Count(s[i := a], p) == Count(s, p) - Bit(p(s[i])) + Bit(p(a))
  {
    if i == 0 {
      assert s[i := a][1..] == s[1..];
    } else {
      CountUpdate(s[1..], i - 1, a, p);
      assert s[i := a][1..] == s[1..][i - 1 := a];
    }
  }

  /** A witness makes the count positive. */
  lemma {:induction false} CountWitness<A>(s: seq<A>, i: nat, p: A -> bool)
    requires i < |s| && p(s[i])
    ensures Count(s, p) > 0
  {
    if i > 0 {
      CountWitness(s[1..], i - 1, p);
    }
  }

  /** A positive count has a witness. */
  lemma {:induction false} CountFind<A>(s: seq<A>, p: A -> bool) returns (i: nat)
    requires Count(s, p) > 0
    ensures i < |s| && p(s[i])
  {
    if p(s[0]) {
      i := 0;
    } else {
      i := CountFind(s[1..], p);
      i := i + 1;
    }
  }

  /** No witness, no count. */
  lemma {:induction false} CountNone<A>(s: seq<A>, p: A -> bool)
    requires forall i :: 0 <= i < |s| ==> !p(s[i])
    ensures Count(s, p) == 0
  {
    if s != [] {
      CountNone(s[1..], p);
    }
  }

  /** The position of the first element that satisfies p, or the length if there is none. */
  function First<A>(s: seq<A>, p: A -> bool): (i: nat)
    ensures i <= |s| && (i < |s| ==> p(s[i]))
    ensures i == |s| ==> forall k :: 0 <= k < |s| ==> !p(s[k])
  {
    if s == [] || p(s[0]) then 0 else First(s[1..], p) + 1
  }

  /** The total weight of a sequence. */
  function Sum<A>(s: seq<A>, w: A -> nat): nat {
    if s == [] then 0 else w(s[0]) + Sum(s[1..], w)
  }

  lemma {:induction false} SumUpdate<A>(s: seq<A>, i: nat, a: A, w: A -> nat)
    requires i < |s|
    ensures Sum(s[i := a], w) == Sum(s, w) - w(s[i]) + w(a)
  {
    if i == 0 {
      assert s[i := a][1..] == s[1..];
    } else {
      SumUpdate(s[1..], i - 1, a, w);
      assert s[i := a][1..] == s[1..][i - 1 := a];
    }
  }

  lemma {:induction false} SumZero<A>(s: seq<A>, w: A -> nat)
    requires forall i :: 0 <= i < |s| ==> w(s[i]) == 0
    ensures Sum(s, w) == 0
  {
    if s != [] {
      SumZero(s[1..], w);
    }
  }

  /** A function applied to every element. */
  function Map<A, B>(s: seq<A>, f: A -> B): (r: seq<B>)
    ensures |r| == |s| && forall i :: 0 <= i < |s| ==> r[i] == f(s[i])
  {
    seq(|s|, i requires 0 <= i < |s| => f(s[i]))
  }

  lemma MapAppend<A, B>(a: seq<A>, b: seq<A>, f: A -> B)
    ensures Map(a + b, f) == Map(a, f) + Map(b, f)
  {
  }

  lemma MapPrefix<A, B>(a: seq<A>, b: seq<A>, f: A -> B)
    requires a <= b
    ensures Map(a, f) <= Map(b, f)
  {
  }

  lemma Assoc<A>(a: seq<A>, b: seq<A>, c: seq<A>)
    ensures (a + b) + c == a + (b + c)
  {
  }

  /** Two accounts in a row, the second starting with what the first leaves over, make one. */
  lemma Shift<A>(a: seq<A>, b: seq<A>, b': seq<A>, c: seq<A>, c': seq<A>, m: seq<A>, z: seq<A>)
    requires a + b == c + m && m + b' == c' + z
    ensures a + (b + b') == (c + c') + z
  {
    assert a + (b + b') == (a + b) + b';
    assert (c + m) + b' == c + (m + b');
    assert c + (c' + z) == (c + c') + z;
  }

  /** The numbers below n. */
  function Below(n: nat): (s: set<nat>)
    ensures forall i: nat :: i in s <==> i < n
    ensures |s| == n
  {
    if n == 0 then {} else Below(n - 1) + {n - 1}
  }

  /** A subset is no larger, and as large only if it is the whole set. */
  lemma SubsetSize<A>(a: set<A>, b: set<A>)
    requires a <= b
    ensures |a| <= |b| && (|a| == |b| ==> a == b)
  {
    assert b == a + (b - a);
  }
}
