/** Order-preserving selection over sequences: the `Array.prototype.filter`
    and `Array.prototype.find` that every query handler relies on.

    A selection criterion is a query value `q` together with a named
    predicate `keep(q, x)`; passing the predicate by name (rather than as a
    lambda) lets contracts elsewhere mention the very same criterion. */
module Sequences {
  import opened Optional

  /** The elements of `s` that satisfy `keep(q, _)`, in their original order. */
  function Filter<Q, T>(s: seq<T>, q: Q, keep: (Q, T) -> bool): (r: seq<T>)
    ensures |r| <= |s|
    ensures forall x :: x in r ==> x in s && keep(q, x)
    ensures forall i :: 0 <= i < |s| && keep(q, s[i]) ==> s[i] in r
  {
    if |s| == 0 then []
    else
      var rest := Filter(s[1..], q, keep);
      assert forall i :: 1 <= i < |s| ==> s[i] == s[1..][i - 1];
      if keep(q, s[0]) then [s[0]] + rest else rest
  }

  ghost predicate StrictlyIncreasing(idx: seq<nat>)
  {
    forall k, m :: 0 <= k < m < |idx| ==> idx[k] < idx[m]
  }

  /** `idx` lists, in increasing order, exactly the positions of `s` whose
      element satisfies the criterion, and `r` holds the elements at those
      positions. */
  ghost predicate IsSelection<Q, T>(s: seq<T>, q: Q, keep: (Q, T) -> bool, r: seq<T>, idx: seq<nat>)
  {
    && |idx| == |r|
    && StrictlyIncreasing(idx)
    && (forall k :: 0 <= k < |idx| ==> idx[k] < |s| && r[k] == s[idx[k]])
    && (forall i :: 0 <= i < |s| ==> (keep(q, s[i]) <==> i in idx))
  }

  /** Reference definition: `r` is the order-preserving sub-sequence of `s`
      made of exactly the elements that satisfy the criterion. */
  ghost predicate Selects<Q, T>(s: seq<T>, q: Q, keep: (Q, T) -> bool, r: seq<T>)
  {
    exists idx :: IsSelection(s, q, keep, r, idx)
  }

  /** Every position moved one place to the right. */
  function Shift(idx: seq<nat>): (r: seq<nat>)
    ensures |r| == |idx|
    ensures forall k :: 0 <= k < |idx| ==> r[k] == idx[k] + 1
  {
    seq(|idx|, k requires 0 <= k < |idx| => idx[k] + 1)
  }

  /** A selection from the tail `s[1..]` becomes, shifted, the part of a
      selection from `s` that covers positions 1 and up. */
  lemma ShiftedSelection<Q, T>(s: seq<T>, q: Q, keep: (Q, T) -> bool, rest: seq<T>, tail: seq<nat>)
    requires |s| > 0
    requires IsSelection(s[1..], q, keep, rest, tail)
    ensures StrictlyIncreasing(Shift(tail))
    ensures forall k :: 0 <= k < |tail| ==> 1 <= Shift(tail)[k] < |s| && rest[k] == s[Shift(tail)[k]]
    ensures forall i :: 1 <= i < |s| ==> (keep(q, s[i]) <==> i in Shift(tail))
    ensures 0 !in Shift(tail)
  {
    var shifted := Shift(tail);
    forall i | 1 <= i < |s|
      ensures keep(q, s[i]) <==> i in shifted
    {
      assert s[i] == s[1..][i - 1];
      if i - 1 in tail {
        var k :| 0 <= k < |tail| && tail[k] == i - 1;
        assert shifted[k] == i;
      }
      if i in shifted {
        var k :| 0 <= k < |shifted| && shifted[k] == i;
      }
    }
  }

  /** A selection from the tail, extended by a leading element that is kept. */
  lemma ConsSelection<Q, T>(s: seq<T>, q: Q, keep: (Q, T) -> bool, rest: seq<T>, shifted: seq<nat>)
    requires |s| > 0 && keep(q, s[0])
    requires |shifted| == |rest| && StrictlyIncreasing(shifted)
    requires forall k :: 0 <= k < |shifted| ==> 1 <= shifted[k] < |s| && rest[k] == s[shifted[k]]
    requires forall i :: 1 <= i < |s| ==> (keep(q, s[i]) <==> i in shifted)
    ensures IsSelection(s, q, keep, [s[0]] + rest, [0] + shifted)
  {
    var idx := [0] + shifted;
    var r := [s[0]] + rest;
    assert StrictlyIncreasing(idx) by {
      forall k, m | 0 <= k < m < |idx|
        ensures idx[k] < idx[m]
      {
        assert idx[m] == shifted[m - 1];
        if k > 0 {
          assert idx[k] == shifted[k - 1];
        }
      }
    }
    assert forall k :: 0 <= k < |idx| ==> idx[k] < |s| && r[k] == s[idx[k]] by {
      forall k | 0 <= k < |idx|
        ensures idx[k] < |s| && r[k] == s[idx[k]]
      {
        if k > 0 {
          assert idx[k] == shifted[k - 1] && r[k] == rest[k - 1];
        }
      }
    }
    assert forall i :: 0 <= i < |s| ==> (keep(q, s[i]) <==> i in idx) by {
      forall i | 0 <= i < |s|
        ensures keep(q, s[i]) <==> i in idx
      {
        if i > 0 {
          assert i in shifted <==> i in idx;
        }
      }
    }
  }

  /** A selection from the tail, when the leading element is dropped. */
  lemma SkipSelection<Q, T>(s: seq<T>, q: Q, keep: (Q, T) -> bool, rest: seq<T>, tail: seq<nat>)
    requires |s| > 0 && !keep(q, s[0])
    requires IsSelection(s[1..], q, keep, rest, tail)
    ensures IsSelection(s, q, keep, rest, Shift(tail))
  {
    ShiftedSelection(s, q, keep, rest, tail);
  }

  /** Builds the positions witnessing that `Filter` is a selection. */
  lemma {:induction false} FilterWitness<Q, T>(s: seq<T>, q: Q, keep: (Q, T) -> bool) returns (idx: seq<nat>)
    ensures IsSelection(s, q, keep, Filter(s, q, keep), idx)
  {
    if |s| == 0 {
      idx := [];
    } else {
      var rest := Filter(s[1..], q, keep);
      var tail := FilterWitness(s[1..], q, keep);
      if keep(q, s[0]) {
        ShiftedSelection(s, q, keep, rest, tail);
        ConsSelection(s, q, keep, rest, Shift(tail));
        idx := [0] + Shift(tail);
      } else {
        SkipSelection(s, q, keep, rest, tail);
        idx := Shift(tail);
      }
    }
  }

  /** `Filter` meets the reference definition. */
  lemma FilterSelects<Q, T>(s: seq<T>, q: Q, keep: (Q, T) -> bool)
    ensures Selects(s, q, keep, Filter(s, q, keep))
  {
    var idx := FilterWitness(s, q, keep);
  }

  /** Two increasing enumerations of the same positions are the same. */
  lemma {:induction false} IncreasingSameElements(a: seq<nat>, b: seq<nat>)
    requires StrictlyIncreasing(a) && StrictlyIncreasing(b)
    requires forall x :: x in a <==> x in b
    ensures a == b
  {
    assert |a| > 0 ==> a[0] in b;
    assert |b| > 0 ==> b[0] in a;
    if |a| > 0 {
      assert a[0] == b[0] by {
        assert a[0] in b;
        var k :| 0 <= k < |b| && b[k] == a[0];
        assert b[0] in a;
        var m :| 0 <= m < |a| && a[m] == b[0];
        assert a[0] <= a[m];
        assert b[0] <= b[k];
      }
      TailsSameElements(a, b);
      IncreasingSameElements(a[1..], b[1..]);
      assert a == [a[0]] + a[1..];
      assert b == [b[0]] + b[1..];
    }
  }

  /** Removing the common least position leaves the same positions. */
  lemma TailsSameElements(a: seq<nat>, b: seq<nat>)
    requires StrictlyIncreasing(a) && StrictlyIncreasing(b)
    requires forall x :: x in a <==> x in b
    requires |a| > 0 && |b| > 0 && a[0] == b[0]
    ensures StrictlyIncreasing(a[1..]) && StrictlyIncreasing(b[1..])
    ensures forall x :: x in a[1..] <==> x in b[1..]
  {
    forall x | x in a[1..]
      ensures x in b[1..]
    {
      var i :| 1 <= i < |a| && a[i] == x;
      assert x in b;
      var j :| 0 <= j < |b| && b[j] == x;
      assert j != 0;
      assert b[1..][j - 1] == x;
    }
    forall x | x in b[1..]
      ensures x in a[1..]
    {
      var j :| 1 <= j < |b| && b[j] == x;
      assert x in a;
      var i :| 0 <= i < |a| && a[i] == x;
      assert i != 0;
      assert a[1..][i - 1] == x;
    }
  }

  /** Two selections by the same criterion from the same sequence agree. */
  lemma SelectionUnique<Q, T>(s: seq<T>, q: Q, keep: (Q, T) -> bool, r1: seq<T>, idx1: seq<nat>, r2: seq<T>, idx2: seq<nat>)
    requires IsSelection(s, q, keep, r1, idx1) && IsSelection(s, q, keep, r2, idx2)
    ensures r1 == r2
  {
    forall x | x in idx1
      ensures x in idx2
    {
      var k :| 0 <= k < |idx1| && idx1[k] == x;
      assert x < |s| && keep(q, s[x]);
    }
    forall x | x in idx2
      ensures x in idx1
    {
      var k :| 0 <= k < |idx2| && idx2[k] == x;
      assert x < |s| && keep(q, s[x]);
    }
    IncreasingSameElements(idx1, idx2);
    assert forall k :: 0 <= k < |r1| ==> r1[k] == s[idx1[k]] == r2[k];
  }

  /** The reference definition determines its result, and `Filter` computes
      it: a sequence is a selection exactly when it is the filter result. */
  lemma SelectsIffFilter<Q, T>(s: seq<T>, q: Q, keep: (Q, T) -> bool, r: seq<T>)
    ensures Selects(s, q, keep, r) <==> r == Filter(s, q, keep)
  {
    var fidx := FilterWitness(s, q, keep);
    if Selects(s, q, keep, r) {
      var idx :| IsSelection(s, q, keep, r, idx);
      SelectionUnique(s, q, keep, r, idx, Filter(s, q, keep), fidx);
    }
  }

  /** When every element satisfies the criterion, nothing is dropped. */
  lemma {:induction false} FilterKeepsAll<Q, T>(s: seq<T>, q: Q, keep: (Q, T) -> bool)
    requires forall i :: 0 <= i < |s| ==> keep(q, s[i])
    ensures Filter(s, q, keep) == s
  {
    if |s| > 0 {
      assert forall i :: 0 <= i < |s[1..]| ==> s[1..][i] == s[i + 1];
      FilterKeepsAll(s[1..], q, keep);
      assert s == [s[0]] + s[1..];
    }
  }

  /** The position of the first element satisfying the criterion. */
  function FindIndex<Q, T>(s: seq<T>, q: Q, keep: (Q, T) -> bool): (r: Option<nat>)
    ensures r.Some? ==> r.value < |s| && keep(q, s[r.value])
    ensures r.Some? ==> forall j :: 0 <= j < r.value ==> !keep(q, s[j])
    ensures r.None? <==> forall j :: 0 <= j < |s| ==> !keep(q, s[j])
  {
    if |s| == 0 then None
    else if keep(q, s[0]) then Some(0)
    else
      assert forall j :: 1 <= j < |s| ==> s[j] == s[1..][j - 1];
      match FindIndex(s[1..], q, keep)
      case None => None
      case Some(i) => Some(i + 1)
  }

  /** `Array.prototype.find`: the first element satisfying the criterion,
      or `None` (JavaScript's `undefined`) when there is none. */
  function Find<Q, T>(s: seq<T>, q: Q, keep: (Q, T) -> bool): (r: Option<T>)
    ensures r.None? <==> forall j :: 0 <= j < |s| ==> !keep(q, s[j])
    ensures r.Some? ==> exists i :: 0 <= i < |s| && s[i] == r.value && keep(q, s[i])
                                    && forall j :: 0 <= j < i ==> !keep(q, s[j])
  {
    match FindIndex(s, q, keep)
    case None => None
    case Some(i) => Some(s[i])
  }

  /** `find` agrees with "filter, then take the first": the two ways of
      asking for one match give the same answer. */
  lemma {:induction false} FindIsFirstOfFilter<Q, T>(s: seq<T>, q: Q, keep: (Q, T) -> bool)
    ensures var hits := Filter(s, q, keep);
            Find(s, q, keep) == if |hits| == 0 then None else Some(hits[0])
  {
    if |s| > 0 && !keep(q, s[0]) {
      FindIsFirstOfFilter(s[1..], q, keep);
      assert forall j :: 1 <= j < |s| ==> s[j] == s[1..][j - 1];
    }
  }
}
