/** Logs of who did what, and the part of a log that belongs to one thread. */
module Ledger {

  datatype Access<T> = Access(who: nat, item: T)

  /** The items one thread moved, in order. */
  ghost function By<T>(log: seq<Access<T>>, t: nat): seq<T> {
    if log == [] then []
    else
      var n := |log| - 1;
      By(log[..n], t) + if log[n].who == t then [log[n].item] else []
  }

  lemma ByAppend<T>(log: seq<Access<T>>, a: Access<T>, t: nat)
    ensures By(log + [a], t) == By(log, t) + if a.who == t then [a.item] else []
  {
    assert (log + [a])[..|log|] == log;
  }

  lemma {:induction false} ByConcat<T>(a: seq<Access<T>>, b: seq<Access<T>>, t: nat)
    ensures By(a + b, t) == By(a, t) + By(b, t)
    decreases |b|
  {
    if b == [] {
      assert a + b == a;
    } else {
      var n := |b| - 1;
      ByConcat(a, b[..n], t);
      assert a + b == (a + b[..n]) + [b[n]];
      ByAppend(a + b[..n], b[n], t);
      ByAppend(b[..n], b[n], t);
      assert b == b[..n] + [b[n]];
    }
  }

  lemma ByOne<T>(a: Access<T>, t: nat)
    ensures By([a], t) == if a.who == t then [a.item] else []
  {
    ByAppend([], a, t);
    assert [] + [a] == [a];
  }

  /** Everything that was moved, whoever did it. */
  ghost function Items<T>(log: seq<Access<T>>): (items: seq<T>)
    ensures |items| == |log| && forall i :: 0 <= i < |log| ==> items[i] == log[i].item
  {
    seq(|log|, i requires 0 <= i < |log| => log[i].item)
  }

  lemma ItemsConcat<T>(a: seq<Access<T>>, b: seq<Access<T>>)
    ensures Items(a + b) == Items(a) + Items(b)
  {
  }
}
