/**
 * Generic facts about finite sequences that the portfolio page relies on:
 * order-preserving filtering (Array.prototype.filter) and keeping the first
 * occurrence of each element (what an insertion-ordered JavaScript Set built
 * by repeated `add` holds).
 */
module Seqs {

  /** No element occurs twice. */
  ghost predicate NoDuplicates<T>(s: seq<T>)
  {
    forall i, j :: 0 <= i < j < |s| ==> s[i] != s[j]
  }

  /** The elements of `s` for which `keep` holds, in their original order. */
  function Filter<T>(s: seq<T>, keep: T -> bool): (r: seq<T>)
    ensures |r| <= |s|
  {
    if s == [] then []
    else Filter(s[..|s| - 1], keep) + (if keep(s[|s| - 1]) then [s[|s| - 1]] else [])
  }

  /** The positions of `s` at which `keep` holds, in increasing order. */
  function KeptIndices<T>(s: seq<T>, keep: T -> bool): (idx: seq<nat>)
  {
    if s == [] then []
    else KeptIndices(s[..|s| - 1], keep) + (if keep(s[|s| - 1]) then [|s| - 1] else [])
  }

  /**
   * `r` is the subsequence of `s` taken at the strictly increasing positions
   * `idx`, and those positions are exactly the ones where `keep` holds.
   */
  ghost predicate IsSelection<T>(r: seq<T>, s: seq<T>, idx: seq<nat>, keep: T -> bool)
  {
    && |idx| == |r|
    && (forall i :: 0 <= i < |idx| ==> idx[i] < |s| && r[i] == s[idx[i]])
    && (forall i, j :: 0 <= i < j < |idx| ==> idx[i] < idx[j])
    && (forall k :: 0 <= k < |s| ==> (keep(s[k]) <==> k in idx))
  }

  /** Filtering keeps exactly the elements satisfying `keep`, in source order. */
  lemma {:induction false} FilterIsSelection<T>(s: seq<T>, keep: T -> bool)
    ensures IsSelection(Filter(s, keep), s, KeptIndices(s, keep), keep)
  {
    if s != [] {
      var init, x := s[..|s| - 1], s[|s| - 1];
      FilterIsSelection(init, keep);
      var r', idx' := Filter(init, keep), KeptIndices(init, keep);
      var r, idx := Filter(s, keep), KeptIndices(s, keep);
      assert r == r' + (if keep(x) then [x] else []);
      assert idx == idx' + (if keep(x) then [|init|] else []);
      forall i | 0 <= i < |idx|
        ensures idx[i] < |s| && r[i] == s[idx[i]]
      {
        if i < |idx'| {
          assert idx[i] == idx'[i] && r[i] == r'[i] && s[idx'[i]] == init[idx'[i]];
        }
      }
      forall i, j | 0 <= i < j < |idx|
        ensures idx[i] < idx[j]
      {
        assert idx[i] == idx'[i];
        if j < |idx'| {
          assert idx[j] == idx'[j];
        }
      }
      forall k | 0 <= k < |s|
        ensures keep(s[k]) <==> k in idx
      {
        if k < |init| {
          assert s[k] == init[k];
          assert k in idx <==> k in idx';
        } else {
          assert k !in idx';
        }
      }
    }
  }

  /** An element is kept exactly when it occurs in the source and satisfies `keep`. */
  lemma {:induction false} FilterMembership<T>(s: seq<T>, keep: T -> bool, x: T)
    ensures x in Filter(s, keep) <==> x in s && keep(x)
  {
    if x in s && keep(x) {
      var k :| 0 <= k < |s| && s[k] == x;
      FilterIsSelection(s, keep);
      var idx := KeptIndices(s, keep);
      var i :| 0 <= i < |idx| && idx[i] == k;
      assert Filter(s, keep)[i] == x;
    }
    if x in Filter(s, keep) {
      FilterIsSelection(s, keep);
      var idx := KeptIndices(s, keep);
      var i :| 0 <= i < |Filter(s, keep)| && Filter(s, keep)[i] == x;
      assert s[idx[i]] == x && idx[i] in idx;
    }
  }

  /** Filtering a sequence extended by one element filters the old part and then decides the new one. */
  lemma FilterSnoc<T>(init: seq<T>, y: T, keep: T -> bool)
    ensures Filter(init + [y], keep) == Filter(init, keep) + (if keep(y) then [y] else [])
  {
  }

  /** Two sequences whose last elements are both kept and filter alike end in the same element. */
  lemma FilterSnocLast<T>(a: seq<T>, y: T, b: seq<T>, z: T, keep: T -> bool)
    requires keep(y) && keep(z)
    requires Filter(a + [y], keep) == Filter(b + [z], keep)
    ensures y == z
  {
    FilterSnoc(a, y, keep);
    FilterSnoc(b, z, keep);
    var f := Filter(a + [y], keep);
    assert f[|f| - 1] == y;
  }

  /** Extending two sequences by the same element keeps them filtering alike only if they did. */
  lemma FilterSnocCancel<T>(a: seq<T>, b: seq<T>, y: T, keep: T -> bool)
    requires Filter(a + [y], keep) == Filter(b + [y], keep)
    ensures Filter(a, keep) == Filter(b, keep)
  {
    FilterSnoc(a, y, keep);
    FilterSnoc(b, y, keep);
    var f, fa, fb := Filter(a + [y], keep), Filter(a, keep), Filter(b, keep);
    assert |fa| == |fb|;
    assert f[..|fa|] == fa;
    assert f[..|fb|] == fb;
  }

  /** A one-element sequence keeps its element exactly when `keep` holds of it. */
  lemma FilterSingleton<T>(x: T, keep: T -> bool)
    ensures Filter([x], keep) == if keep(x) then [x] else []
  {
  }

  /** Filtering a concatenation filters each part. */
  lemma {:induction false} FilterConcat<T>(a: seq<T>, b: seq<T>, keep: T -> bool)
    ensures Filter(a + b, keep) == Filter(a, keep) + Filter(b, keep)
  {
    if b == [] {
      assert a + b == a;
    } else {
      var b' := b[..|b| - 1];
      assert (a + b)[..|a + b| - 1] == a + b';
      FilterConcat(a, b', keep);
    }
  }

  /** A non-empty sequence holds its prefix and its last element. */
  lemma MultisetOfSnoc<T>(s: seq<T>)
    requires s != []
    ensures multiset(s) == multiset(s[..|s| - 1]) + multiset{s[|s| - 1]}
  {
    assert s == s[..|s| - 1] + [s[|s| - 1]];
  }

  /** When no element satisfies `keep`, nothing is kept. */
  lemma {:induction false} FilterKeepsNone<T>(s: seq<T>, keep: T -> bool)
    requires forall i :: 0 <= i < |s| ==> !keep(s[i])
    ensures Filter(s, keep) == []
  {
    if s != [] {
      var init := s[..|s| - 1];
      assert forall i :: 0 <= i < |init| ==> init[i] == s[i];
      FilterKeepsNone(init, keep);
    }
  }

  /**
   * Moving `x` to the end of a filtered sequence changes nothing when no
   * element after `x` is kept together with it.
   */
  lemma FilterMoveToEnd<T>(front: seq<T>, x: T, back: seq<T>, keep: T -> bool)
    requires keep(x) ==> forall i :: 0 <= i < |back| ==> !keep(back[i])
    ensures Filter(front + [x] + back, keep) == Filter(front + back, keep) + Filter([x], keep)
  {
    var kept, moved, rest := Filter(front, keep), Filter([x], keep), Filter(back, keep);
    FilterConcat(front + [x], back, keep);
    FilterConcat(front, [x], keep);
    FilterConcat(front, back, keep);
    assert Filter(front + [x] + back, keep) == kept + moved + rest;
    assert Filter(front + back, keep) == kept + rest;
    if keep(x) {
      FilterKeepsNone(back, keep);
      assert rest == [];
      assert kept + moved + rest == kept + moved;
      assert kept + rest == kept;
    } else {
      FilterSingleton(x, keep);
      assert moved == [];
      assert kept + moved == kept;
      assert kept + rest + moved == kept + rest;
    }
  }

  /**
   * Two filters that decide every element oppositely split the source: their
   * results together hold each element exactly as often as the source does.
   */
  lemma {:induction false} FilterPartition<T>(s: seq<T>, keep1: T -> bool, keep2: T -> bool)
    requires forall x :: x in s ==> keep1(x) != keep2(x)
    ensures multiset(Filter(s, keep1)) + multiset(Filter(s, keep2)) == multiset(s)
    ensures |Filter(s, keep1)| + |Filter(s, keep2)| == |s|
  {
    if s != [] {
      var init, y := s[..|s| - 1], s[|s| - 1];
      assert s == init + [y];
      assert forall x :: x in init ==> x in s;
      FilterPartition(init, keep1, keep2);
      var a, b := Filter(init, keep1), Filter(init, keep2);
      if keep1(y) {
        assert Filter(s, keep1) == a + [y] && Filter(s, keep2) == b;
      } else {
        assert Filter(s, keep1) == a && Filter(s, keep2) == b + [y];
      }
    }
  }

  /**
   * Two filters that never both keep an element show each element of the
   * source at most as often, taken together, as the source holds it.
   */
  lemma {:induction false} FilterDisjoint<T>(s: seq<T>, keep1: T -> bool, keep2: T -> bool)
    requires forall x :: x in s ==> !(keep1(x) && keep2(x))
    ensures multiset(Filter(s, keep1)) + multiset(Filter(s, keep2)) <= multiset(s)
    ensures |Filter(s, keep1)| + |Filter(s, keep2)| <= |s|
  {
    if s != [] {
      var init, y := s[..|s| - 1], s[|s| - 1];
      assert s == init + [y];
      assert forall x :: x in init ==> x in s;
      FilterDisjoint(init, keep1, keep2);
      var a, b := Filter(init, keep1), Filter(init, keep2);
      if keep1(y) {
        assert Filter(s, keep1) == a + [y] && Filter(s, keep2) == b;
      } else if keep2(y) {
        assert Filter(s, keep1) == a && Filter(s, keep2) == b + [y];
      } else {
        assert Filter(s, keep1) == a && Filter(s, keep2) == b;
      }
    }
  }

  /** The position of the first occurrence of `x` in `s`. */
  function FirstIndex<T(==)>(s: seq<T>, x: T): (k: nat)
    requires x in s
    ensures k < |s| && s[k] == x && x !in s[..k]
  {
    if s[0] == x then 0 else 1 + FirstIndex(s[1..], x)
  }

  /** Appending an element does not move the first occurrence of one already present. */
  lemma FirstIndexAppend<T>(init: seq<T>, y: T, x: T)
    requires x in init
    ensures FirstIndex(init + [y], x) == FirstIndex(init, x)
  {
    var k := FirstIndex(init, x);
    assert (init + [y])[..k] == init[..k];
    var f := FirstIndex(init + [y], x);
    assert f >= k;
    assert (init + [y])[..f] == init[..f] || f == |init|;
  }

  /** An element new to `init` first occurs at the appended position. */
  lemma FirstIndexNew<T>(init: seq<T>, y: T)
    requires y !in init
    ensures FirstIndex(init + [y], y) == |init|
  {
  }

  /** Each distinct element of `s` once, at its first occurrence, in order. */
  function Dedup<T(==)>(s: seq<T>): (r: seq<T>)
    ensures |r| <= |s|
  {
    if s == [] then []
    else
      var init := s[..|s| - 1];
      Dedup(init) + (if s[|s| - 1] in init then [] else [s[|s| - 1]])
  }

  /** Deduplication keeps every element and adds none. */
  lemma {:induction false} DedupMembership<T>(s: seq<T>, x: T)
    ensures x in Dedup(s) <==> x in s
  {
    if s != [] {
      var init := s[..|s| - 1];
      DedupMembership(init, x);
      assert s == init + [s[|s| - 1]];
    }
  }

  /** No element survives deduplication twice. */
  lemma {:induction false} DedupNoDuplicates<T>(s: seq<T>)
    ensures NoDuplicates(Dedup(s))
  {
    if s != [] {
      var init, y := s[..|s| - 1], s[|s| - 1];
      DedupNoDuplicates(init);
      DedupMembership(init, y);
    }
  }

  /** A non-empty sequence keeps its first element first. */
  lemma {:induction false} DedupHead<T>(s: seq<T>)
    requires |s| > 0
    ensures |Dedup(s)| > 0 && Dedup(s)[0] == s[0]
  {
    if |s| > 1 {
      var init := s[..|s| - 1];
      DedupHead(init);
      assert Dedup(s)[0] == Dedup(init)[0];
    }
  }

  /** The result lists the distinct elements in order of their first occurrence in `s`. */
  lemma {:induction false} DedupFirstSeenOrder<T>(s: seq<T>)
    ensures forall i :: 0 <= i < |Dedup(s)| ==> Dedup(s)[i] in s
    ensures forall i, j :: 0 <= i < j < |Dedup(s)| ==>
      FirstIndex(s, Dedup(s)[i]) < FirstIndex(s, Dedup(s)[j])
  {
    var r := Dedup(s);
    forall i | 0 <= i < |r|
      ensures r[i] in s
    {
      DedupMembership(s, r[i]);
    }
    if s != [] {
      var init, y := s[..|s| - 1], s[|s| - 1];
      assert s == init + [y];
      DedupFirstSeenOrder(init);
      var r' := Dedup(init);
      forall i, j | 0 <= i < j < |r|
        ensures FirstIndex(s, r[i]) < FirstIndex(s, r[j])
      {
        assert r[i] == r'[i] && r[i] in init;
        FirstIndexAppend(init, y, r[i]);
        if j < |r'| {
          assert r[j] == r'[j] && r[j] in init;
          FirstIndexAppend(init, y, r[j]);
        } else {
          assert r[j] == y && y !in init;
          FirstIndexNew(init, y);
        }
      }
    }
  }
}
