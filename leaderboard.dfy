/**
 * Leaderboard rows and their order. The leaderboard is sorted by the key
 * (-score, -percentage) with the list sort of the host language, which is
 * stable: rows with equal score and percentage keep the order in which
 * the sessions were created.
 *
 * The sort is specified by `RankSort`, an insertion sort, and by three
 * properties that together determine a stable sort's result uniquely:
 * the result is ranked, it is a permutation of the input, and within each
 * tier of equal keys the input order is kept.
 */
module Leaderboard {
  /** One leaderboard row. */
  datatype Entry = Entry(sessionId: string, topic: string, score: int, percentage: real, questionsAnswered: int)

  /** `x` sorts strictly before `y`: a higher score, or the same score and a higher percentage. */
  predicate Outranks(x: Entry, y: Entry) {
    x.score > y.score || (x.score == y.score && x.percentage > y.percentage)
  }

  /** No entry outranks an entry placed before it. */
  predicate Ranked(s: seq<Entry>) {
    forall i, j :: 0 <= i < j < |s| ==> !Outranks(s[j], s[i])
  }

  /** The entries whose key is (score, percentage), in order. */
  function Tier(s: seq<Entry>, score: int, percentage: real): seq<Entry> {
    if s == [] then []
    else
      (if s[0].score == score && s[0].percentage == percentage then [s[0]] else [])
      + Tier(s[1..], score, percentage)
  }

  /** Insert `x` after every entry it does not outrank. */
  function InsertRanked(t: seq<Entry>, x: Entry): (r: seq<Entry>)
    ensures |r| == |t| + 1
  {
    if t == [] then [x]
    else if Outranks(x, t[0]) then [x] + t
    else [t[0]] + InsertRanked(t[1..], x)
  }

  /** The stable sort by (-score, -percentage). */
  function RankSort(s: seq<Entry>): (r: seq<Entry>)
    ensures |r| == |s|
  {
    if s == [] then []
    else InsertRanked(RankSort(s[..|s| - 1]), s[|s| - 1])
  }

  // ---------------------------------------------------------------------
  // Properties of the order

  /** Outranking is a strict order that is total up to equal keys. */
  lemma OutranksOrder(x: Entry, y: Entry, z: Entry)
    ensures !Outranks(x, x)
    ensures Outranks(x, y) ==> !Outranks(y, x)
    ensures Outranks(x, y) && Outranks(y, z) ==> Outranks(x, z)
    ensures !Outranks(x, y) && !Outranks(y, x) <==> x.score == y.score && x.percentage == y.percentage
  {
  }

  // ---------------------------------------------------------------------
  // Insertion

  lemma {:induction false} InsertRankedMultiset(t: seq<Entry>, x: Entry)
    ensures multiset(InsertRanked(t, x)) == multiset(t) + multiset{x}
  {
    if t != [] && !Outranks(x, t[0]) {
      InsertRankedMultiset(t[1..], x);
      assert t == [t[0]] + t[1..];
    }
  }

  lemma {:induction false} InsertRankedMembers(t: seq<Entry>, x: Entry)
    ensures forall e :: e in InsertRanked(t, x) <==> e in t || e == x
  {
    InsertRankedMultiset(t, x);
    forall e ensures e in InsertRanked(t, x) <==> e in t || e == x {
      assert e in InsertRanked(t, x) <==> e in multiset(InsertRanked(t, x));
      assert e in t <==> e in multiset(t);
    }
  }

  lemma {:induction false} InsertRankedRanked(t: seq<Entry>, x: Entry)
    requires Ranked(t)
    ensures Ranked(InsertRanked(t, x))
  {
    if t != [] {
      if Outranks(x, t[0]) {
        var r := [x] + t;
        forall i, j | 0 <= i < j < |r| ensures !Outranks(r[j], r[i]) {
          if i == 0 {
            assert r[j] == t[j - 1];
            assert !Outranks(t[j - 1], t[0]) || j - 1 == 0;
          } else {
            assert r[i] == t[i - 1] && r[j] == t[j - 1];
          }
        }
      } else {
        var rest := t[1..];
        assert Ranked(rest) by {
          forall i, j | 0 <= i < j < |rest| ensures !Outranks(rest[j], rest[i]) {
            assert rest[i] == t[i + 1] && rest[j] == t[j + 1];
          }
        }
        InsertRankedRanked(rest, x);
        InsertRankedMembers(rest, x);
        var r := [t[0]] + InsertRanked(rest, x);
        forall i, j | 0 <= i < j < |r| ensures !Outranks(r[j], r[i]) {
          if i == 0 {
            var e := r[j];
            assert e in InsertRanked(rest, x);
            if e != x {
              var k :| 0 <= k < |rest| && rest[k] == e;
              assert t[k + 1] == e;
            }
          } else {
            assert r[i] == InsertRanked(rest, x)[i - 1] && r[j] == InsertRanked(rest, x)[j - 1];
          }
        }
      }
    }
  }

  /** A tier none of whose key occurs is empty. */
  lemma {:induction false} TierEmpty(s: seq<Entry>, score: int, percentage: real)
    requires forall k :: 0 <= k < |s| ==> s[k].score != score || s[k].percentage != percentage
    ensures Tier(s, score, percentage) == []
  {
    if s != [] {
      var rest := s[1..];
      forall k | 0 <= k < |rest| ensures rest[k].score != score || rest[k].percentage != percentage {
        assert rest[k] == s[k + 1];
      }
      TierEmpty(rest, score, percentage);
    }
  }

  /** In a ranked list, no entry shares the key of an entry that outranks its head. */
  lemma TierBelowHead(t: seq<Entry>, x: Entry)
    requires Ranked(t) && t != [] && Outranks(x, t[0])
    ensures Tier(t, x.score, x.percentage) == []
  {
    forall k | 0 <= k < |t| ensures t[k].score != x.score || t[k].percentage != x.percentage {
      if k > 0 {
        assert !Outranks(t[k], t[0]);
      }
    }
    TierEmpty(t, x.score, x.percentage);
  }

  /** Putting `x` in front of a ranked list it outranks appends it to its own tier. */
  lemma InsertFrontTier(t: seq<Entry>, x: Entry, score: int, percentage: real)
    requires Ranked(t) && t != [] && Outranks(x, t[0])
    ensures Tier([x] + t, score, percentage) == Tier(t, score, percentage) + Tier([x], score, percentage)
  {
    if x.score == score && x.percentage == percentage {
      TierBelowHead(t, x);
    }
    assert ([x] + t)[1..] == t;
    assert Tier([x], score, percentage) == (if x.score == score && x.percentage == percentage then [x] else []) by {
      assert [x][1..] == [];
    }
  }

  /** Inserting `x` appends it to its own tier and leaves every other tier as it was. */
  lemma {:induction false} InsertRankedTier(t: seq<Entry>, x: Entry, score: int, percentage: real)
    requires Ranked(t)
    ensures Tier(InsertRanked(t, x), score, percentage)
         == Tier(t, score, percentage) + Tier([x], score, percentage)
  {
    if t == [] {
    } else if Outranks(x, t[0]) {
      InsertFrontTier(t, x, score, percentage);
    } else {
      var rest := t[1..];
      assert Ranked(rest) by {
        forall i, j | 0 <= i < j < |rest| ensures !Outranks(rest[j], rest[i]) {
          assert rest[i] == t[i + 1] && rest[j] == t[j + 1];
        }
      }
      InsertRankedTier(rest, x, score, percentage);
      var inserted := InsertRanked(rest, x);
      var head := if t[0].score == score && t[0].percentage == percentage then [t[0]] else [];
      assert InsertRanked(t, x) == [t[0]] + inserted;
      assert ([t[0]] + inserted)[1..] == inserted;
      assert Tier([t[0]] + inserted, score, percentage) == head + Tier(inserted, score, percentage);
      assert Tier(t, score, percentage) == head + Tier(rest, score, percentage);
    }
  }

  // ---------------------------------------------------------------------
  // The sort

  /** The sorted list is ranked. */
  lemma {:induction false} RankSortRanked(s: seq<Entry>)
    ensures Ranked(RankSort(s))
  {
    if s != [] {
      RankSortRanked(s[..|s| - 1]);
      InsertRankedRanked(RankSort(s[..|s| - 1]), s[|s| - 1]);
    }
  }

  /** The sorted list holds exactly the input entries, with their multiplicities. */
  lemma {:induction false} RankSortPermutation(s: seq<Entry>)
    ensures multiset(RankSort(s)) == multiset(s)
  {
    if s != [] {
      var init := s[..|s| - 1];
      var last := s[|s| - 1];
      RankSortPermutation(init);
      InsertRankedMultiset(RankSort(init), last);
      assert RankSort(s) == InsertRanked(RankSort(init), last);
      assert s == init + [last];
      assert multiset(s) == multiset(init) + multiset{last};
    }
  }

  /** The tier of a sequence extended at the back. */
  lemma {:induction false} TierConcat(a: seq<Entry>, b: seq<Entry>, score: int, percentage: real)
    ensures Tier(a + b, score, percentage) == Tier(a, score, percentage) + Tier(b, score, percentage)
  {
    if a == [] {
      assert a + b == b;
    } else {
      var ab := a + b;
      assert ab[0] == a[0] && ab[1..] == a[1..] + b;
      TierConcat(a[1..], b, score, percentage);
      var head := if a[0].score == score && a[0].percentage == percentage then [a[0]] else [];
      assert Tier(ab, score, percentage) == head + Tier(ab[1..], score, percentage);
      assert Tier(a, score, percentage) == head + Tier(a[1..], score, percentage);
    }
  }

  /** Stability: within every tier of equal keys, the sorted list keeps the input order. */
  lemma {:induction false} RankSortStable(s: seq<Entry>, score: int, percentage: real)
    ensures Tier(RankSort(s), score, percentage) == Tier(s, score, percentage)
  {
    if s != [] {
      var init := s[..|s| - 1];
      var last := s[|s| - 1];
      RankSortStable(init, score, percentage);
      RankSortRanked(init);
      InsertRankedTier(RankSort(init), last, score, percentage);
      TierConcat(init, [last], score, percentage);
      assert init + [last] == s;
    }
  }

  /** An already ranked list is left as it is. */
  lemma {:induction false} RankSortKeepsRanked(s: seq<Entry>)
    requires Ranked(s)
    ensures RankSort(s) == s
  {
    if s != [] {
      var init := s[..|s| - 1];
      var last := s[|s| - 1];
      assert Ranked(init) by {
        forall i, j | 0 <= i < j < |init| ensures !Outranks(init[j], init[i]) {
          assert init[i] == s[i] && init[j] == s[j];
        }
      }
      RankSortKeepsRanked(init);
      forall k | 0 <= k < |init| ensures !Outranks(last, init[k]) {
        assert init[k] == s[k];
      }
      InsertAtEnd(init, last);
      assert init + [last] == s;
    }
  }

  /** An entry outranking none of `t` goes to the end. */
  lemma {:induction false} InsertAtEnd(t: seq<Entry>, x: Entry)
    requires forall k :: 0 <= k < |t| ==> !Outranks(x, t[k])
    ensures InsertRanked(t, x) == t + [x]
  {
    if t != [] {
      assert !Outranks(x, t[0]);
      var rest := t[1..];
      forall k | 0 <= k < |rest| ensures !Outranks(x, rest[k]) {
        assert rest[k] == t[k + 1];
      }
      InsertAtEnd(rest, x);
      assert [t[0]] + (rest + [x]) == t + [x];
    }
  }
}
