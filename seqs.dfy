/** Sequence helpers shared by the model: duplicate freedom, filtering and flattening. */
module Seqs {

  /** No value occurs twice in `s`. */
  predicate NoDup<T(==)>(s: seq<T>)
  {
    forall i, j :: 0 <= i < j < |s| ==> s[i] != s[j]
  }

  /** The elements of `s` that satisfy `keep`, in order (`Array.prototype.filter`). */
  function Filter<T(==,!new)>(s: seq<T>, keep: T -> bool): (r: seq<T>)
    ensures |r| <= |s|
    ensures forall x {:trigger x in r} :: x in r <==> x in s && keep(x)
  {
    if s == [] then []
    else Filter(s[..|s| - 1], keep) + (if keep(s[|s| - 1]) then [s[|s| - 1]] else [])
  }

  /** Every kept value occurs as often as in `s`, every other value not at all. */
  lemma {:induction false} FilterCount<T(!new)>(s: seq<T>, keep: T -> bool, x: T)
    ensures multiset(Filter(s, keep))[x] == if keep(x) then multiset(s)[x] else 0
  {
    if s != [] {
      var init := s[..|s| - 1];
      FilterCount(init, keep, x);
      assert s == init + [s[|s| - 1]];
    }
  }

  /** `FilterCount` for every value at once. */
  lemma FilterCounts<T(!new)>(s: seq<T>, keep: T -> bool)
    ensures forall x :: multiset(Filter(s, keep))[x] == if keep(x) then multiset(s)[x] else 0
  {
    forall x
      ensures multiset(Filter(s, keep))[x] == if keep(x) then multiset(s)[x] else 0
    {
      FilterCount(s, keep, x);
    }
  }

  /** Filtering a concatenation filters each part. */
  lemma {:induction false} FilterAppend<T(!new)>(a: seq<T>, b: seq<T>, keep: T -> bool)
    ensures Filter(a + b, keep) == Filter(a, keep) + Filter(b, keep)
  {
    if b == [] {
      assert a + b == a;
    } else {
      var init := b[..|b| - 1];
      var last := b[|b| - 1];
      FilterAppend(a, init, keep);
      assert (a + b)[..|a + b| - 1] == a + init;
      assert (a + b)[|a + b| - 1] == last;
      var tail := if keep(last) then [last] else [];
      calc {
        Filter(a + b, keep);
        Filter(a + init, keep) + tail;
        Filter(a, keep) + Filter(init, keep) + tail;
        Filter(a, keep) + (Filter(init, keep) + tail);
        Filter(a, keep) + Filter(b, keep);
      }
    }
  }

  /** The positions of `s` whose elements are kept, in increasing order. */
  function KeptPositions<T>(s: seq<T>, keep: T -> bool): (positions: seq<nat>)
    ensures forall k :: 0 <= k < |positions| ==> positions[k] < |s|
  {
    if s == [] then []
    else KeptPositions(s[..|s| - 1], keep) + (if keep(s[|s| - 1]) then [|s| - 1] else [])
  }

  /** The filter lists the elements at the kept positions, and those positions
      increase: the filter keeps the order of `s`. */
  lemma {:induction false} FilterInOrder<T(!new)>(s: seq<T>, keep: T -> bool)
    ensures var positions := KeptPositions(s, keep);
      && |positions| == |Filter(s, keep)|
      && (forall k :: 0 <= k < |positions| ==> Filter(s, keep)[k] == s[positions[k]])
      && (forall k, l :: 0 <= k < l < |positions| ==> positions[k] < positions[l])
  {
    if s != [] {
      var n := |s| - 1;
      var init := s[..n];
      FilterInOrder(init, keep);
      var before := KeptPositions(init, keep);
      var positions := KeptPositions(s, keep);
      var kept := Filter(init, keep);
      var r := Filter(s, keep);
      forall k | 0 <= k < |positions|
        ensures r[k] == s[positions[k]]
      {
        if k < |before| {
          assert positions[k] == before[k] && r[k] == kept[k] == init[before[k]];
        }
      }
      forall k, l | 0 <= k < l < |positions|
        ensures positions[k] < positions[l]
      {
        if l < |before| {
          assert positions[k] == before[k] && positions[l] == before[l];
        }
      }
    }
  }

  /** Every position whose element is kept is among the kept positions: the
      filter drops nothing it should keep. */
  lemma {:induction false} FilterDropsNothing<T>(s: seq<T>, keep: T -> bool, i: nat)
    requires i < |s| && keep(s[i])
    ensures exists k :: 0 <= k < |KeptPositions(s, keep)| && KeptPositions(s, keep)[k] == i
  {
    var n := |s| - 1;
    var before := KeptPositions(s[..n], keep);
    var positions := KeptPositions(s, keep);
    if i < n {
      assert s[..n][i] == s[i];
      FilterDropsNothing(s[..n], keep, i);
      var k :| 0 <= k < |before| && before[k] == i;
      assert positions[k] == i;
    } else {
      assert positions[|before|] == i;
    }
  }

  /** Two tests that agree on every element of `s` keep the same elements of it. */
  lemma {:induction false} FilterAgree<T(!new)>(s: seq<T>, keep: T -> bool, keep': T -> bool)
    requires forall x :: x in s ==> keep(x) == keep'(x)
    ensures Filter(s, keep) == Filter(s, keep')
  {
    if s != [] {
      FilterAgree(s[..|s| - 1], keep, keep');
    }
  }

  /** Concatenation of a sequence of sequences (JavaScript's `Array.prototype.flat`). */
  function Flatten<T>(ss: seq<seq<T>>): seq<T>
  {
    if |ss| == 0 then [] else Flatten(ss[..|ss| - 1]) + ss[|ss| - 1]
  }

  lemma {:induction false} FlattenAppend<T>(ss: seq<seq<T>>, tail: seq<T>)
    ensures Flatten(ss + [tail]) == Flatten(ss) + tail
  {
    assert (ss + [tail])[..|ss|] == ss;
  }

  /** An element lies in the flattening exactly when it lies in one of the parts. */
  lemma {:induction false} FlattenMember<T>(ss: seq<seq<T>>, x: T)
    ensures x in Flatten(ss) <==> exists i :: 0 <= i < |ss| && x in ss[i]
  {
    if |ss| > 0 {
      var init := ss[..|ss| - 1];
      FlattenMember(init, x);
      if x in Flatten(ss) {
        if x !in ss[|ss| - 1] {
          var i :| 0 <= i < |init| && x in init[i];
          assert x in ss[i];
        }
      } else {
        forall i | 0 <= i < |ss|
          ensures x !in ss[i]
        {
          if i < |ss| - 1 {
            assert ss[i] == init[i];
          }
        }
      }
    }
  }
}
