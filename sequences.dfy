/** Order-preserving selection from an immutable list: the behaviour of
    `Array.prototype.filter`, which every pass of the group filter uses. */
module Sequences {

  /** The elements of `s` that satisfy `keep`, in their original order. */
  function Select<T>(s: seq<T>, keep: T -> bool): (r: seq<T>)
    ensures |r| <= |s|
    ensures forall k :: 0 <= k < |r| ==> keep(r[k])
  {
    if s == [] then []
    else Select(s[..|s| - 1], keep) + (if keep(s[|s| - 1]) then [s[|s| - 1]] else [])
  }

  /** The indices of `s` whose element satisfies `keep`, ascending. */
  function Positions<T>(s: seq<T>, keep: T -> bool): seq<int>
  {
    if s == [] then []
    else Positions(s[..|s| - 1], keep) + (if keep(s[|s| - 1]) then [|s| - 1] else [])
  }

  /** `r` is `s` with some elements dropped: `idx` maps each position of `r` to a
      strictly later position of `s` holding the very same element. */
  ghost predicate OrderedEmbedding<T>(r: seq<T>, s: seq<T>, idx: seq<int>)
  {
    && |idx| == |r|
    && (forall k :: 0 <= k < |idx| ==> 0 <= idx[k] < |s| && s[idx[k]] == r[k])
    && (forall j, k :: 0 <= j < k < |idx| ==> idx[j] < idx[k])
  }

  /** Selection is an order-preserving subsequence of its input, and the positions
      it keeps are exactly those whose element satisfies `keep`. */
  lemma {:induction false} SelectEmbeds<T>(s: seq<T>, keep: T -> bool)
    ensures OrderedEmbedding(Select(s, keep), s, Positions(s, keep))
    ensures forall i :: i in Positions(s, keep) <==> 0 <= i < |s| && keep(s[i])
  {
    if s != [] {
      var n := |s| - 1;
      var pre := s[..n];
      SelectEmbeds(pre, keep);
      assert forall i :: 0 <= i < n ==> pre[i] == s[i];
    }
  }

  /** An element is in the selection iff it is in the input and satisfies `keep`. */
  lemma {:induction false} SelectMembership<T>(s: seq<T>, keep: T -> bool, x: T)
    ensures x in Select(s, keep) <==> x in s && keep(x)
  {
    if s != [] {
      var n := |s| - 1;
      SelectMembership(s[..n], keep, x);
      assert s == s[..n] + [s[n]];
    }
  }

  /** Selecting by a predicate that every element satisfies returns the input. */
  lemma {:induction false} SelectAll<T>(s: seq<T>, keep: T -> bool)
    requires forall k :: 0 <= k < |s| ==> keep(s[k])
    ensures Select(s, keep) == s
  {
    if s != [] {
      var n := |s| - 1;
      SelectAll(s[..n], keep);
      assert s == s[..n] + [s[n]];
    }
  }

  /** Selection only looks at the predicate on the elements of the input. */
  lemma {:induction false} SelectExt<T>(s: seq<T>, p: T -> bool, q: T -> bool)
    requires forall k :: 0 <= k < |s| ==> p(s[k]) == q(s[k])
    ensures Select(s, p) == Select(s, q)
  {
    if s != [] {
      SelectExt(s[..|s| - 1], p, q);
    }
  }

  /** Appending to the input appends the selection of the new part. */
  lemma {:induction false} SelectSnoc<T>(s: seq<T>, x: T, keep: T -> bool)
    ensures Select(s + [x], keep) == Select(s, keep) + (if keep(x) then [x] else [])
  {
    assert (s + [x])[..|s|] == s;
  }

  /** Two passes in a row equal one pass by the conjunction of their predicates. */
  lemma {:induction false} SelectFusion<T>(s: seq<T>, p: T -> bool, q: T -> bool, both: T -> bool)
    requires forall k :: 0 <= k < |s| ==> both(s[k]) == (p(s[k]) && q(s[k]))
    ensures Select(Select(s, p), q) == Select(s, both)
  {
    if s != [] {
      var n := |s| - 1;
      var pre := s[..n];
      assert forall k :: 0 <= k < n ==> pre[k] == s[k];
      SelectFusion(pre, p, q, both);
      if p(s[n]) {
        assert Select(s, p) == Select(pre, p) + [s[n]];
        SelectSnoc(Select(pre, p), s[n], q);
      } else {
        assert Select(s, p) == Select(pre, p);
      }
      assert Select(s, both) == Select(pre, both) + (if both(s[n]) then [s[n]] else []);
    }
  }

  /** The order of two passes does not matter. */
  lemma SelectCommutes<T>(s: seq<T>, p: T -> bool, q: T -> bool)
    ensures Select(Select(s, p), q) == Select(Select(s, q), p)
  {
    var both := x => p(x) && q(x);
    SelectFusion(s, p, q, both);
    SelectFusion(s, q, p, both);
  }

  /** A predicate and its negation split the input: together the two selections hold
      every element exactly as often as the input does. */
  lemma {:induction false} SelectPartition<T>(s: seq<T>, p: T -> bool, q: T -> bool)
    requires forall k :: 0 <= k < |s| ==> q(s[k]) == !p(s[k])
    ensures multiset(Select(s, p)) + multiset(Select(s, q)) == multiset(s)
    ensures |Select(s, p)| + |Select(s, q)| == |s|
  {
    if s != [] {
      var n := |s| - 1;
      var pre := s[..n];
      assert forall k :: 0 <= k < n ==> pre[k] == s[k];
      SelectPartition(pre, p, q);
      var a, b := Select(pre, p), Select(pre, q);
      assert s == pre + [s[n]];
      assert multiset(s) == multiset(pre) + multiset{s[n]};
      if p(s[n]) {
        assert Select(s, p) == a + [s[n]];
        assert multiset(a + [s[n]]) == multiset(a) + multiset{s[n]};
        assert Select(s, q) == b;
      } else {
        assert Select(s, p) == a;
        assert Select(s, q) == b + [s[n]];
        assert multiset(b + [s[n]]) == multiset(b) + multiset{s[n]};
      }
    }
  }
}
