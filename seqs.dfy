/** Sequence helpers shared by the page models: an Option type for the
    optional fields of the records, and `Filter`, the model of JavaScript's
    `Array.prototype.filter`, with the witness of which indices it keeps. */
module Seqs {

  datatype Option<T> = None | Some(value: T)

  /** `s.filter(p)`: the elements of `s` that satisfy `p`, in their original order. */
  function Filter<T(!new)>(p: T -> bool, s: seq<T>): (r: seq<T>)
    ensures |r| <= |s|
  {
    if s == [] then []
    else Filter(p, s[..|s| - 1]) + (if p(s[|s| - 1]) then [s[|s| - 1]] else [])
  }

  /** `Filter` keeps exactly the elements that satisfy `p`. */
  lemma {:induction false} FilterMembers<T(!new)>(p: T -> bool, s: seq<T>)
    ensures forall x :: x in Filter(p, s) <==> x in s && p(x)
    decreases |s|
  {
    if s != [] {
      var front := s[..|s| - 1];
      FilterMembers(p, front);
      assert s == front + [s[|s| - 1]];
    }
  }

  /** The positions of `s` that `Filter(p, s)` keeps, in increasing order. */
  function KeptIndices<T(!new)>(p: T -> bool, s: seq<T>): (idx: seq<nat>)
    ensures |idx| == |Filter(p, s)|
  {
    if s == [] then []
    else KeptIndices(p, s[..|s| - 1]) + (if p(s[|s| - 1]) then [|s| - 1] else [])
  }

  /** The k-th kept element is the element of `s` at the k-th kept position. */
  lemma {:induction false} KeptIndicesSelect<T(!new)>(p: T -> bool, s: seq<T>)
    ensures forall k :: 0 <= k < |KeptIndices(p, s)| ==>
      KeptIndices(p, s)[k] < |s| && Filter(p, s)[k] == s[KeptIndices(p, s)[k]]
    decreases |s|
  {
    if s != [] {
      var n := |s| - 1;
      var front := s[..n];
      KeptIndicesSelect(p, front);
      var idx, idx' := KeptIndices(p, front), KeptIndices(p, s);
      var r, r' := Filter(p, front), Filter(p, s);
      assert idx' == idx + if p(s[n]) then [n] else [];
      assert r' == r + if p(s[n]) then [s[n]] else [];
      forall k | 0 <= k < |idx'|
        ensures idx'[k] < |s| && r'[k] == s[idx'[k]]
      {
        if k < |idx| {
          assert idx'[k] == idx[k] && r'[k] == r[k];
          assert front[idx[k]] == s[idx[k]];
        }
      }
    }
  }

  /** The kept positions are strictly increasing and all lie inside `s`. */
  lemma {:induction false} KeptIndicesIncrease<T(!new)>(p: T -> bool, s: seq<T>)
    ensures forall k :: 0 <= k < |KeptIndices(p, s)| ==> KeptIndices(p, s)[k] < |s|
    ensures forall k, m :: 0 <= k < m < |KeptIndices(p, s)| ==> KeptIndices(p, s)[k] < KeptIndices(p, s)[m]
    decreases |s|
  {
    if s != [] {
      var n := |s| - 1;
      KeptIndicesIncrease(p, s[..n]);
      var idx, idx' := KeptIndices(p, s[..n]), KeptIndices(p, s);
      assert idx' == idx + if p(s[n]) then [n] else [];
      forall k, m | 0 <= k < m < |idx'|
        ensures idx'[k] < idx'[m]
      {
        if m < |idx| {
          assert idx'[k] == idx[k] && idx'[m] == idx[m];
        } else {
          assert idx'[k] == idx[k] < n;
        }
      }
    }
  }

  /** A position is kept exactly when its element satisfies `p`. */
  lemma {:induction false} KeptIndicesExactly<T(!new)>(p: T -> bool, s: seq<T>)
    ensures forall i :: 0 <= i < |s| ==> (p(s[i]) <==> i in KeptIndices(p, s))
    decreases |s|
  {
    if s != [] {
      var n := |s| - 1;
      var front := s[..n];
      KeptIndicesExactly(p, front);
      KeptIndicesIncrease(p, front);
      var idx, idx' := KeptIndices(p, front), KeptIndices(p, s);
      assert idx' == idx + if p(s[n]) then [n] else [];
      assert n !in idx;
      forall i | 0 <= i < n
        ensures p(s[i]) <==> i in idx'
      {
        assert front[i] == s[i];
      }
    }
  }

  lemma {:induction false} FilterAppend<T(!new)>(p: T -> bool, a: seq<T>, b: seq<T>)
    ensures Filter(p, a + b) == Filter(p, a) + Filter(p, b)
    decreases |b|
  {
    if b == [] {
      assert a + b == a;
    } else {
      var b' := b[..|b| - 1];
      assert (a + b)[..|a + b| - 1] == a + b';
      FilterAppend(p, a, b');
    }
  }

  /** Filtering around a single element. */
  lemma {:induction false} FilterAround<T(!new)>(p: T -> bool, a: seq<T>, x: T, b: seq<T>)
    ensures Filter(p, a + [x] + b) == Filter(p, a) + Filter(p, [x]) + Filter(p, b)
  {
    FilterAppend(p, a + [x], b);
    FilterAppend(p, a, [x]);
  }

  /** Putting `x` at position `k` of `s` keeps it after every kept element
      when nothing from `k` on is kept or `x` itself is not. */
  lemma {:induction false} FilterInsertAt<T(!new)>(p: T -> bool, s: seq<T>, k: nat, x: T)
    requires k <= |s|
    requires !p(x) || Filter(p, s[k..]) == []
    ensures Filter(p, s[..k] + [x] + s[k..]) == Filter(p, s) + Filter(p, [x])
  {
    var a, b := s[..k], s[k..];
    FilterAround(p, a, x, b);
    assert s == a + b;
    FilterAppend(p, a, b);
    var fa, fx, fb := Filter(p, a), Filter(p, [x]), Filter(p, b);
    assert [x][..0] == [];
    if p(x) {
      assert fa + fx + [] == fa + fx;
      assert fa + [] == fa;
    } else {
      assert fx == [];
      assert fa + [] + fb == fa + fb;
      assert fa + fb + [] == fa + fb;
    }
  }

  /** A filter whose predicate holds everywhere keeps the whole sequence. */
  lemma {:induction false} FilterKeepsAll<T(!new)>(p: T -> bool, s: seq<T>)
    requires forall i :: 0 <= i < |s| ==> p(s[i])
    ensures Filter(p, s) == s
    decreases |s|
  {
    if s != [] {
      var n := |s| - 1;
      var front := s[..n];
      assert forall i :: 0 <= i < n ==> front[i] == s[i];
      FilterKeepsAll(p, front);
      assert p(s[n]);
      assert s == front + [s[n]];
    }
  }

  /** A filter whose predicate holds nowhere keeps nothing. */
  lemma {:induction false} FilterKeepsNone<T(!new)>(p: T -> bool, s: seq<T>)
    requires forall i :: 0 <= i < |s| ==> !p(s[i])
    ensures Filter(p, s) == []
    decreases |s|
  {
    if s != [] {
      var n := |s| - 1;
      var front := s[..n];
      assert forall i :: 0 <= i < n ==> front[i] == s[i];
      FilterKeepsNone(p, front);
      assert !p(s[n]);
    }
  }
}
