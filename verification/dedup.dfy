/**
  pandas `drop_duplicates(subset=[key])` with its default `keep='first'`:
  of the rows sharing a key, only the first survives, and the survivors keep
  their order. Both IKSI queries sort newest first, so this keeps the newest
  inspection per key.
 */
module Dedup {

  /** The keys that occur in `rs`. */
  function KeySet<T(==), K>(rs: seq<T>, key: T -> K): set<K> {
    set x | x in rs :: key(x)
  }

  /** Row `i` is the first row with its key. */
  predicate IsFirst<T, K(==)>(rs: seq<T>, key: T -> K, i: int)
    requires 0 <= i < |rs|
  {
    forall j :: 0 <= j < i ==> key(rs[j]) != key(rs[i])
  }

  function DropDuplicates<T(==), K(==)>(rs: seq<T>, key: T -> K): (r: seq<T>)
    ensures |r| <= |rs|
    decreases |rs|
  {
    if |rs| == 0 then []
    else
      var rest := DropDuplicates(rs[..|rs| - 1], key);
      if key(rs[|rs| - 1]) in KeySet(rest, key) then rest else rest + [rs[|rs| - 1]]
  }

  /** Some first occurrence in `rs` equals `x`. */
  ghost predicate FirstOccurrence<T, K>(rs: seq<T>, key: T -> K, x: T) {
    exists i :: 0 <= i < |rs| && IsFirst(rs, key, i) && rs[i] == x
  }

  /** The survivors have pairwise distinct keys, every key of the input
      survives, and the survivors are exactly the first occurrences. */
  lemma DropDuplicatesSpec<T, K>(rs: seq<T>, key: T -> K)
    ensures var r := DropDuplicates(rs, key);
      && (forall i, j :: 0 <= i < j < |r| ==> key(r[i]) != key(r[j]))
      && KeySet(r, key) == KeySet(rs, key)
      && (forall x :: x in r <==> FirstOccurrence(rs, key, x))
  {
    DropDistinct(rs, key);
    DropKeySet(rs, key);
    DropFirstOccurrences(rs, key);
  }

  /** No two rows share a key. */
  predicate KeysDistinct<T, K(==)>(rs: seq<T>, key: T -> K) {
    forall i, j :: 0 <= i < j < |rs| ==> key(rs[i]) != key(rs[j])
  }

  /** No two survivors share a key. */
  lemma {:induction false} DropDistinct<T, K>(rs: seq<T>, key: T -> K)
    ensures KeysDistinct(DropDuplicates(rs, key), key)
    decreases |rs|
  {
    if |rs| > 0 {
      var last := rs[|rs| - 1];
      var rest := DropDuplicates(rs[..|rs| - 1], key);
      DropDistinct(rs[..|rs| - 1], key);
      if key(last) !in KeySet(rest, key) {
        var r := rest + [last];
        forall i, j | 0 <= i < j < |r| ensures key(r[i]) != key(r[j]) {
          if j == |rest| {
            assert r[i] in rest;
            assert key(r[i]) in KeySet(rest, key);
          } else {
            assert r[i] == rest[i] && r[j] == rest[j];
          }
        }
      }
    }
  }

  /** Every key of the input survives, and no other. */
  lemma {:induction false} DropKeySet<T, K>(rs: seq<T>, key: T -> K)
    ensures KeySet(DropDuplicates(rs, key), key) == KeySet(rs, key)
    decreases |rs|
  {
    if |rs| > 0 {
      var init, last := rs[..|rs| - 1], rs[|rs| - 1];
      DropKeySet(init, key);
      KeySetSnoc(init, last, key);
      var rest := DropDuplicates(init, key);
      if key(last) !in KeySet(rest, key) {
        KeySetSnoc(rest, last, key);
      }
    }
  }

  lemma KeySetSnoc<T, K>(rs: seq<T>, x: T, key: T -> K)
    ensures KeySet(rs + [x], key) == KeySet(rs, key) + {key(x)}
  {
    assert forall y :: y in rs + [x] <==> y in rs || y == x;
  }

  /** A row before the last is first in `rs` exactly when it is first in
      `rs` without its last row. */
  lemma IsFirstInit<T, K>(rs: seq<T>, key: T -> K, i: nat)
    requires i < |rs| - 1
    ensures IsFirst(rs, key, i) <==> IsFirst(rs[..|rs| - 1], key, i)
  {
    var init := rs[..|rs| - 1];
    assert forall j :: 0 <= j <= i ==> rs[j] == init[j];
  }

  /** The last row is first exactly when no earlier row has its key. */
  lemma IsFirstLast<T, K>(rs: seq<T>, key: T -> K)
    requires |rs| > 0
    ensures IsFirst(rs, key, |rs| - 1) <==> key(rs[|rs| - 1]) !in KeySet(rs[..|rs| - 1], key)
  {
    var init, last := rs[..|rs| - 1], rs[|rs| - 1];
    if key(last) in KeySet(init, key) {
      var y :| y in init && key(y) == key(last);
      var j :| 0 <= j < |init| && init[j] == y;
      assert key(rs[j]) == key(rs[|init|]);
    }
  }

  /** The survivors are exactly the first occurrences. */
  lemma {:induction false} DropFirstOccurrences<T, K>(rs: seq<T>, key: T -> K)
    ensures forall x :: x in DropDuplicates(rs, key) <==> FirstOccurrence(rs, key, x)
    decreases |rs|
  {
    if |rs| > 0 {
      var init, last := rs[..|rs| - 1], rs[|rs| - 1];
      DropFirstOccurrences(init, key);
      DropKeySet(init, key);
      IsFirstLast(rs, key);
      forall x ensures FirstOccurrence(rs, key, x) <==> FirstOccurrence(init, key, x) || (x == last && IsFirst(rs, key, |init|)) {
        if FirstOccurrence(rs, key, x) {
          var i :| 0 <= i < |rs| && IsFirst(rs, key, i) && rs[i] == x;
          if i < |init| {
            IsFirstInit(rs, key, i);
            assert init[i] == x;
          }
        }
        if FirstOccurrence(init, key, x) {
          var i :| 0 <= i < |init| && IsFirst(init, key, i) && init[i] == x;
          IsFirstInit(rs, key, i);
          assert rs[i] == x;
        }
      }
    }
  }

  /** Every survivor is a row of the input. */
  lemma DropDuplicatesSubset<T, K>(rs: seq<T>, key: T -> K)
    ensures forall x :: x in DropDuplicates(rs, key) ==> x in rs
  {
    DropDuplicatesSpec(rs, key);
  }

  /** A non-empty input keeps at least one row. */
  lemma DropDuplicatesNonEmpty<T, K>(rs: seq<T>, key: T -> K)
    requires |rs| > 0
    ensures |DropDuplicates(rs, key)| > 0
  {
    DropDuplicatesSpec(rs, key);
    assert key(rs[0]) in KeySet(rs, key);
  }

  /** The positions among the first `n` rows that hold the first row of
      their key, in increasing order. */
  function FirstPositions<T, K(==)>(rs: seq<T>, key: T -> K, n: nat): (ps: seq<nat>)
    requires n <= |rs|
    ensures forall k :: 0 <= k < |ps| ==> ps[k] < n
    decreases n
  {
    if n == 0 then []
    else FirstPositions(rs, key, n - 1) + (if IsFirst(rs, key, n - 1) then [n - 1] else [])
  }

  /** The positions increase, and a position is listed exactly when it holds
      a first occurrence. */
  lemma {:induction false} FirstPositionsSpec<T, K>(rs: seq<T>, key: T -> K, n: nat)
    requires n <= |rs|
    ensures var ps := FirstPositions(rs, key, n);
      && (forall i, j :: 0 <= i < j < |ps| ==> ps[i] < ps[j])
      && (forall i :: 0 <= i < n ==> (i in ps <==> IsFirst(rs, key, i)))
    decreases n
  {
    if n > 0 {
      FirstPositionsSpec(rs, key, n - 1);
    }
  }

  /** Dropping the last row changes no position before it. */
  lemma {:induction false} FirstPositionsInit<T, K>(rs: seq<T>, key: T -> K, n: nat)
    requires n < |rs|
    ensures FirstPositions(rs, key, n) == FirstPositions(rs[..|rs| - 1], key, n)
    decreases n
  {
    if n > 0 {
      FirstPositionsInit(rs, key, n - 1);
      var init := rs[..|rs| - 1];
      assert forall j :: 0 <= j <= n - 1 ==> rs[j] == init[j];
      assert IsFirst(rs, key, n - 1) <==> IsFirst(init, key, n - 1);
    }
  }

  /** The survivors are the rows at the first-occurrence positions, in input
      order: `keep='first'` returns a subsequence of its input. */
  lemma {:induction false} DropDuplicatesOrder<T, K>(rs: seq<T>, key: T -> K)
    ensures var r := DropDuplicates(rs, key); var ps := FirstPositions(rs, key, |rs|);
      && |r| == |ps|
      && forall k :: 0 <= k < |r| ==> r[k] == rs[ps[k]]
    decreases |rs|
  {
    if |rs| > 0 {
      var init := rs[..|rs| - 1];
      var last := rs[|rs| - 1];
      var n := |init|;
      DropDuplicatesOrder(init, key);
      DropDuplicatesSpec(init, key);
      FirstPositionsInit(rs, key, n);
      var ps := FirstPositions(rs, key, n);
      FirstPositionsSpec(init, key, n);
      forall k | 0 <= k < |ps| ensures rs[ps[k]] == init[ps[k]] {
      }
      assert IsFirst(rs, key, n) <==> key(last) !in KeySet(init, key) by {
        if key(last) in KeySet(init, key) {
          var y :| y in init && key(y) == key(last);
          var j :| 0 <= j < n && init[j] == y;
          assert key(rs[j]) == key(rs[n]);
        }
      }
    }
  }
}
