/**
 * Sequences used as the insertion order of a dictionary: distinct keys,
 * and the order that remains when some keys are deleted.
 */
module SeqUtil {
  /** No key occurs twice. */
  predicate Distinct<T(==)>(s: seq<T>) {
    forall i, j :: 0 <= i < j < |s| ==> s[i] != s[j]
  }

  /** The elements of `s` that are in `keep`, in their original order. */
  function Select<T(==,!new)>(s: seq<T>, keep: set<T>): (r: seq<T>)
    ensures |r| <= |s|
    ensures forall x :: x in r <==> x in s && x in keep
  {
    if s == [] then []
    else Select(s[..|s| - 1], keep) + (if s[|s| - 1] in keep then [s[|s| - 1]] else [])
  }

  /** Selecting keeps the keys distinct. */
  lemma {:induction false} SelectDistinct<T(!new)>(s: seq<T>, keep: set<T>)
    requires Distinct(s)
    ensures Distinct(Select(s, keep))
  {
    if s != [] {
      var init := s[..|s| - 1];
      assert Distinct(init) by {
        forall i, j | 0 <= i < j < |init| ensures init[i] != init[j] {
          assert init[i] == s[i] && init[j] == s[j];
        }
      }
      SelectDistinct(init, keep);
      var last := s[|s| - 1];
      assert last !in init by {
        forall k | 0 <= k < |init| ensures init[k] != last {
          assert init[k] == s[k];
        }
      }
      assert last !in Select(init, keep);
    }
  }

  /** Selecting twice is selecting once, by the intersection. */
  lemma {:induction false} SelectSelect<T(!new)>(s: seq<T>, a: set<T>, b: set<T>)
    ensures Select(Select(s, a), b) == Select(s, a * b)
  {
    if s != [] {
      var init := s[..|s| - 1];
      var last := s[|s| - 1];
      SelectSelect(init, a, b);
      var inner := Select(s, a);
      if last in a {
        assert inner == Select(init, a) + [last];
        assert inner[..|inner| - 1] == Select(init, a);
      } else {
        assert inner == Select(init, a);
      }
    }
  }

  /** Selecting by a smaller set after a larger one is selecting by the smaller one. */
  lemma SelectShrink<T(!new)>(s: seq<T>, a: set<T>, b: set<T>)
    requires b <= a
    ensures Select(Select(s, a), b) == Select(s, b)
  {
    SelectSelect(s, a, b);
    assert a * b == b;
  }

  /** In a distinct sequence, an element does not occur before its own position. */
  lemma DistinctNotInPrefix<T>(s: seq<T>, j: int)
    requires Distinct(s) && 0 <= j < |s|
    ensures s[j] !in s[..j]
  {
    forall k | 0 <= k < j ensures s[..j][k] != s[j] {
      assert s[..j][k] == s[k];
    }
  }

  /** Selecting every element changes nothing. */
  lemma {:induction false} SelectAll<T(!new)>(s: seq<T>, keep: set<T>)
    requires forall x :: x in s ==> x in keep
    ensures Select(s, keep) == s
  {
    if s != [] {
      SelectAll(s[..|s| - 1], keep);
      assert s[..|s| - 1] + [s[|s| - 1]] == s;
    }
  }

  /** A distinct sequence has as many elements as the set of its elements. */
  lemma {:induction false} DistinctCardinality<T>(s: seq<T>)
    requires Distinct(s)
    ensures |set x | x in s| == |s|
  {
    if s != [] {
      var init := s[..|s| - 1];
      var last := s[|s| - 1];
      assert Distinct(init) by {
        forall i, j | 0 <= i < j < |init| ensures init[i] != init[j] {
          assert init[i] == s[i] && init[j] == s[j];
        }
      }
      DistinctCardinality(init);
      assert last !in init by {
        forall k | 0 <= k < |init| ensures init[k] != last {
          assert init[k] == s[k];
        }
      }
      assert (set x | x in s) == (set x | x in init) + {last};
    }
  }

  /** `[f(x) for x in s]`. */
  function MapSeq<A, B>(f: A -> B, s: seq<A>): (r: seq<B>)
    ensures |r| == |s|
  {
    if s == [] then [] else MapSeq(f, s[..|s| - 1]) + [f(s[|s| - 1])]
  }

  lemma MapSeqSnoc<A, B>(f: A -> B, s: seq<A>, x: A)
    ensures MapSeq(f, s + [x]) == MapSeq(f, s) + [f(x)]
  {
    assert (s + [x])[..|s|] == s;
  }

  lemma {:induction false} MapSeqPointwise<A, B>(f: A -> B, s: seq<A>)
    ensures forall k :: 0 <= k < |s| ==> MapSeq(f, s)[k] == f(s[k])
  {
    if s != [] {
      var init := s[..|s| - 1];
      MapSeqPointwise(f, init);
      forall k | 0 <= k < |s| ensures MapSeq(f, s)[k] == f(s[k]) {
        if k < |init| {
          assert s[k] == init[k];
        }
      }
    }
  }

  lemma {:induction false} MapSeqConcat<A, B>(f: A -> B, a: seq<A>, b: seq<A>)
    ensures MapSeq(f, a + b) == MapSeq(f, a) + MapSeq(f, b)
  {
    if b == [] {
      assert a + b == a;
    } else {
      var init := b[..|b| - 1];
      var last := b[|b| - 1];
      MapSeqConcat(f, a, init);
      assert a + b == (a + init) + [last];
      MapSeqSnoc(f, a + init, last);
      assert init + [last] == b;
      MapSeqSnoc(f, init, last);
      assert MapSeq(f, a + b) == (MapSeq(f, a) + MapSeq(f, init)) + [f(last)];
    }
  }
}
