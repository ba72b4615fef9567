/**
 * Concatenation of a sequence of sequences, and the facts about it that the
 * merge proofs of both engines need.
 */
module Seqs {
  import opened Compare

  /** All the sequences of `ss`, one after the other. */
  function Flatten<T>(ss: seq<seq<T>>): seq<T> {
    if ss == [] then [] else ss[0] + Flatten(ss[1..])
  }

  lemma {:induction false} FlattenUpdate<T>(ss: seq<seq<T>>, k: nat, t: seq<T>)
    requires k < |ss|
    ensures multiset(Flatten(ss)) + multiset(t) == multiset(Flatten(ss[k := t])) + multiset(ss[k])
  {
    var u := ss[k := t];
    assert Flatten(ss) == ss[0] + Flatten(ss[1..]);
    assert Flatten(u) == u[0] + Flatten(u[1..]);
    if k == 0 {
      assert u[1..] == ss[1..];
    } else {
      assert u[0] == ss[0] && ss[1..][k - 1] == ss[k];
      assert u[1..] == ss[1..][k - 1 := t];
      FlattenUpdate(ss[1..], k - 1, t);
      calc {
        multiset(Flatten(ss)) + multiset(t);
        multiset(ss[0]) + multiset(Flatten(ss[1..])) + multiset(t);
        multiset(ss[0]) + (multiset(Flatten(ss[1..])) + multiset(t));
        multiset(ss[0]) + (multiset(Flatten(u[1..])) + multiset(ss[k]));
        multiset(ss[0]) + multiset(Flatten(u[1..])) + multiset(ss[k]);
        multiset(Flatten(u)) + multiset(ss[k]);
      }
    }
  }

  lemma {:induction false} FlattenEmpty<T>(ss: seq<seq<T>>)
    ensures Flatten(ss) == [] <==> forall k :: 0 <= k < |ss| ==> ss[k] == []
  {
    if ss != [] {
      FlattenEmpty(ss[1..]);
      if Flatten(ss) == [] {
        forall k | 0 <= k < |ss| ensures ss[k] == [] {
          if k > 0 { assert ss[k] == ss[1..][k - 1]; }
        }
      } else if ss[0] == [] {
        var j :| 0 <= j < |ss[1..]| && ss[1..][j] != [];
        assert ss[j + 1] != [];
      }
    }
  }

  lemma {:induction false} FlattenLeAll<T>(cmp: (T, T) -> Ordering, v: T, ss: seq<seq<T>>)
    requires forall k :: 0 <= k < |ss| ==> LeAll(cmp, v, ss[k])
    ensures LeAll(cmp, v, Flatten(ss))
  {
    if ss != [] {
      assert forall k :: 0 <= k < |ss[1..]| ==> ss[1..][k] == ss[k + 1];
      FlattenLeAll(cmp, v, ss[1..]);
      var f := Flatten(ss);
      forall i | 0 <= i < |f| ensures Le(cmp, v, f[i]) {
        if i >= |ss[0]| {
          assert f[i] == Flatten(ss[1..])[i - |ss[0]|];
        } else {
          assert f[i] == ss[0][i];
        }
      }
    }
  }

  lemma {:induction false} FlattenAppend<T>(ss: seq<seq<T>>, t: seq<T>)
    ensures Flatten(ss + [t]) == Flatten(ss) + t
  {
    if ss == [] {
      assert ss + [t] == [t];
      assert Flatten([t]) == t + Flatten([t][1..]);
    } else {
      assert (ss + [t])[1..] == ss[1..] + [t];
      FlattenAppend(ss[1..], t);
    }
  }

  lemma {:induction false} FlattenLength<T>(ss: seq<seq<T>>, n: nat)
    requires forall k :: 0 <= k < |ss| ==> |ss[k]| == n
    ensures |Flatten(ss)| == n * |ss|
  {
    if ss != [] {
      assert forall k :: 0 <= k < |ss[1..]| ==> ss[1..][k] == ss[k + 1];
      FlattenLength(ss[1..], n);
    }
  }

  lemma MultisetCancel<T>(a: multiset<T>, b: multiset<T>, c: multiset<T>)
    requires a + c == b + c
    ensures a == b
  {
    forall x ensures a[x] == b[x] {
      assert (a + c)[x] == (b + c)[x];
    }
  }

  /** Adding the head of `xs` and then the rest adds all of `xs`. */
  lemma MultisetHeadThenTail<T>(a: multiset<T>, b: multiset<T>, c: multiset<T>, xs: seq<T>)
    requires xs != [] && b == a + multiset{xs[0]} && c == b + multiset(xs[1..])
    ensures c == a + multiset(xs)
  {
    assert xs == [xs[0]] + xs[1..];
  }
}
