/**
  Small facts about sequences, stated once for any element type. Proofs
  about strings call these instead of asserting the sequence identities
  in place, so that the solver meets them without the string functions
  around.
 */
module Seqs {

  /** `ys` is `f` applied to each of `xs`, in order. */
  predicate Mapped<A, B(==)>(ys: seq<B>, xs: seq<A>, f: A -> B) {
    |ys| == |xs| && forall k :: 0 <= k < |xs| ==> ys[k] == f(xs[k])
  }

  lemma MappedSnoc<A, B>(ys: seq<B>, xs: seq<A>, f: A -> B, x: A)
    requires Mapped(ys, xs, f)
    ensures Mapped(ys + [f(x)], xs + [x], f)
  {
    var ys', xs' := ys + [f(x)], xs + [x];
    forall k | 0 <= k < |xs'| ensures ys'[k] == f(xs'[k]) {
      if k < |xs| {
        assert ys'[k] == ys[k] && xs'[k] == xs[k];
      }
    }
  }

  lemma HeadTail<T>(s: seq<T>)
    requires |s| >= 1
    ensures [s[0]] + s[1..] == s
  {
  }

  lemma SplitAt<T>(l: seq<T>, n: nat)
    requires n <= |l|
    ensures l == l[0..n] + l[n..|l|]
  {
  }

  /** The first `n - 1` elements of the first `n`. */
  lemma PrefixOfPrefix<T>(s: seq<T>, n: nat)
    requires 0 < n <= |s|
    ensures s[..n][..n - 1] == s[..n - 1]
  {
  }

  lemma PrefixSnoc<T>(a: seq<T>, b: seq<T>, s: seq<T>, n: nat)
    requires 0 < n <= |s|
    requires a == s[..n - 1] && b == [s[n - 1]]
    ensures a + b == s[..n]
  {
  }

  /** Dropping the last element of `a + b` drops the last of `b`. */
  lemma ConcatInit<T>(a: seq<T>, b: seq<T>)
    requires |b| > 0
    ensures (a + b)[..|a + b| - 1] == a + b[..|b| - 1]
    ensures (a + b)[|a + b| - 1] == b[|b| - 1]
  {
  }

  lemma ThreeParts<T>(a: seq<T>, b: seq<T>, c: seq<T>, x: T, rest: seq<T>)
    requires a == [x] && b == [] && c == rest
    ensures a + (b + c) == [x] + rest
  {
  }

  lemma PairThenRest<T>(x: T, y: T, rest: seq<T>)
    ensures [x, y] + rest == [x] + ([y] + rest)
  {
  }

  /** The first `q` elements are the first `p`, element `p`, and the ones
      strictly between `p` and `q`. */
  lemma SliceAround<T>(s: seq<T>, p: nat, q: nat)
    requires p < q <= |s|
    ensures s[..q] == (s[..p] + [s[p]]) + s[p + 1..q]
  {
  }

  lemma TakeDrop<T>(s: seq<T>, n: nat)
    requires n <= |s|
    ensures s == s[..n] + s[n..]
  {
  }

  lemma Snoc<T>(a: seq<T>, x: T)
    ensures (a + [x])[..|a|] == a && (a + [x])[|a|] == x
  {
  }

  /** An element of a prefix is that element of the whole. */
  lemma PrefixIndex<T>(s: seq<T>, t: seq<T>, k: nat)
    requires |t| <= |s| && s[..|t|] == t && k < |t|
    ensures s[k] == t[k]
  {
    assert s[..|t|][k] == s[k];
  }

  lemma MultisetHeadTail<T>(s: seq<T>)
    requires |s| >= 1
    ensures multiset(s) == multiset{s[0]} + multiset(s[1..])
  {
    assert s == [s[0]] + s[1..];
  }

  /** A prefix `r` of a suffix `t` of `s` is the slice of `s` at `t`'s
      start: element `k` of `r` is element `|s| - |t| + k` of `s`. */
  lemma PrefixOfSuffix<T>(s: seq<T>, t: seq<T>, r: seq<T>)
    requires |t| <= |s| && t == s[|s| - |t|..]
    requires |r| <= |t| && r == t[..|r|]
    ensures |s| - |t| + |r| <= |s|
    ensures forall k :: 0 <= k < |r| ==> r[k] == s[|s| - |t| + k]
  {
    forall k | 0 <= k < |r| ensures r[k] == s[|s| - |t| + k] {
      assert r[k] == t[k];
    }
  }
}
