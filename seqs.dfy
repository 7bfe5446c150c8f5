/**
 * Order-preserving selection from a list, as the scripts do it with a loop
 * that appends the items passing a test: the selection itself, and what it
 * keeps.
 */
module Seqs {
  import opened Wrappers

  /** The elements of `s` that satisfy `p`, in their original order. */
  function Filter<T>(s: seq<T>, p: T -> bool): (r: seq<T>)
    ensures |r| <= |s|
    ensures forall k :: 0 <= k < |r| ==> p(r[k])
    decreases |s|
  {
    if s == [] then []
    else Filter(s[..|s| - 1], p) + (if p(s[|s| - 1]) then [s[|s| - 1]] else [])
  }

  /** Appending a non-empty `ys` is appending all of it but its last element, then that element. */
  lemma AppendLast<T>(xs: seq<T>, ys: seq<T>)
    requires ys != []
    ensures xs + ys == (xs + ys[..|ys| - 1]) + [ys[|ys| - 1]]
  {
  }

  /** Concatenation is associative. */
  lemma AppendAssociates<T>(a: seq<T>, b: seq<T>, c: seq<T>)
    ensures (a + b) + c == a + (b + c)
  {
  }

  /** The positions of `s` whose element satisfies `p`, in ascending order. */
  function Positions<T>(s: seq<T>, p: T -> bool): (ix: seq<nat>)
    ensures forall k :: 0 <= k < |ix| ==> ix[k] < |s| && p(s[ix[k]])
    ensures forall k, l :: 0 <= k < l < |ix| ==> ix[k] < ix[l]
    ensures forall i :: 0 <= i < |s| && p(s[i]) ==> i in ix
    decreases |s|
  {
    if s == [] then []
    else
      var front := Positions(s[..|s| - 1], p);
      assert forall k :: 0 <= k < |front| ==> s[front[k]] == s[..|s| - 1][front[k]];
      front + (if p(s[|s| - 1]) then [|s| - 1] else [])
  }

  /**
   * The selection is exactly the elements at the selected positions: the
   * k-th kept element is the element at the k-th position that passes the
   * test, so the relative order of the input is preserved and nothing that
   * passes is dropped.
   */
  lemma {:induction false} FilterIsSelection<T>(s: seq<T>, p: T -> bool)
    ensures |Filter(s, p)| == |Positions(s, p)|
    ensures forall k :: 0 <= k < |Filter(s, p)| ==> Filter(s, p)[k] == s[Positions(s, p)[k]]
    decreases |s|
  {
    if s != [] {
      var front := s[..|s| - 1];
      FilterIsSelection(front, p);
      forall k | 0 <= k < |Filter(front, p)|
        ensures Filter(front, p)[k] == s[Positions(front, p)[k]]
      {
        assert s[Positions(front, p)[k]] == front[Positions(front, p)[k]];
      }
    }
  }

  /** Each value is kept exactly as many times as it occurs, if it passes, and never otherwise. */
  lemma {:induction false} FilterCount<T>(s: seq<T>, p: T -> bool, x: T)
    ensures multiset(Filter(s, p))[x] == if p(x) then multiset(s)[x] else 0
    decreases |s|
  {
    if s != [] {
      var front := s[..|s| - 1];
      FilterCount(front, p, x);
      assert s == front + [s[|s| - 1]];
    }
  }

  /** Nothing is kept when no element passes. */
  lemma {:induction false} FilterNone<T>(s: seq<T>, p: T -> bool)
    requires forall k :: 0 <= k < |s| ==> !p(s[k])
    ensures Filter(s, p) == []
    decreases |s|
  {
    if s != [] {
      FilterNone(s[..|s| - 1], p);
    }
  }

  /** Filtering distributes over concatenation. */
  lemma {:induction false} FilterAppend<T>(a: seq<T>, b: seq<T>, p: T -> bool)
    ensures Filter(a + b, p) == Filter(a, p) + Filter(b, p)
    decreases |b|
  {
    if b != [] {
      var b' := b[..|b| - 1];
      assert (a + b)[..|a + b| - 1] == a + b';
      FilterAppend(a, b', p);
    } else {
      assert a + b == a;
    }
  }

  /**
   * The last present value of a sequence of optional values: what a scan
   * that overwrites one variable whenever a line qualifies ends up holding.
   */
  function LastSome<U>(s: seq<Option<U>>): Option<U>
    decreases |s|
  {
    if s == [] then None
    else if s[|s| - 1].Some? then s[|s| - 1]
    else LastSome(s[..|s| - 1])
  }

  /** Position `i` holds the last present value of `s`. */
  predicate IsLastSome<U>(s: seq<Option<U>>, i: int) {
    0 <= i < |s| && s[i].Some? && forall j :: i < j < |s| ==> s[j].None?
  }

  /**
   * The last write wins: nothing is held exactly when no position is
   * present, and otherwise the value held is the one at the last present
   * position.
   */
  lemma {:induction false} LastSomeIsLast<U>(s: seq<Option<U>>)
    ensures LastSome(s).None? <==> forall i :: 0 <= i < |s| ==> s[i].None?
    ensures forall i :: IsLastSome(s, i) ==> LastSome(s) == s[i]
    decreases |s|
  {
    if s != [] && s[|s| - 1].None? {
      var front := s[..|s| - 1];
      LastSomeIsLast(front);
      forall i | IsLastSome(s, i) ensures LastSome(s) == s[i] {
        assert IsLastSome(front, i);
      }
    }
  }

  /** Extending a scan by one position: a present value replaces what was held. */
  lemma LastSomeStep<U>(s: seq<Option<U>>, i: nat)
    requires i < |s|
    ensures LastSome(s[..i + 1]) == if s[i].Some? then s[i] else LastSome(s[..i])
  {
    assert s[..i + 1][..i] == s[..i];
  }
}
