/**
 * The ordering the server applies to both format lists: `Array.prototype.sort`
 * (stable) with the comparator `(a, b) => (parseInt(b.sub_label) || 0) -
 * (parseInt(a.sub_label) || 0)`, i.e. non-increasing by the leading integer of
 * `sub_label`, ties in insertion order.
 */
module Ranking {
  import opened Common
  import opened Text
  import opened Catalog

  /** `parseInt(q.sub_label) || 0`. */
  function Rank(q: VideoQuality): nat {
    match q.subLabel
    case Some(s) => LeadingInt(s)
    case None => 0
  }

  predicate SortedByRank(s: seq<VideoQuality>) {
    forall i, j :: 0 <= i < j < |s| ==> Rank(s[i]) >= Rank(s[j])
  }

  /** Index of the first element of `t` whose rank is not above that of `x`. */
  function InsertPoint(x: VideoQuality, t: seq<VideoQuality>): (p: nat)
    ensures p <= |t|
    decreases |t|
  {
    if t == [] || Rank(t[0]) <= Rank(x) then 0 else 1 + InsertPoint(x, t[1..])
  }

  /** Everything before the insertion point outranks `x`; the element at it does not. */
  lemma {:induction false} InsertPointSplits(x: VideoQuality, t: seq<VideoQuality>)
    ensures forall i :: 0 <= i < InsertPoint(x, t) ==> Rank(t[i]) > Rank(x)
    ensures InsertPoint(x, t) < |t| ==> Rank(t[InsertPoint(x, t)]) <= Rank(x)
    decreases |t|
  {
    if t != [] && Rank(t[0]) > Rank(x) {
      InsertPointSplits(x, t[1..]);
      forall i | 1 <= i < InsertPoint(x, t) ensures Rank(t[i]) > Rank(x) {
        assert t[i] == t[1..][i - 1];
      }
    }
  }

  /** Places `x` before the first element whose rank is not above its own. */
  function InsertByRank(x: VideoQuality, t: seq<VideoQuality>): seq<VideoQuality> {
    var p := InsertPoint(x, t);
    t[..p] + [x] + t[p..]
  }

  lemma InsertByRankPermutes(x: VideoQuality, t: seq<VideoQuality>)
    ensures multiset(InsertByRank(x, t)) == multiset(t) + multiset{x}
  {
    var p := InsertPoint(x, t);
    assert t == t[..p] + t[p..];
  }

  lemma InsertByRankSorted(x: VideoQuality, t: seq<VideoQuality>)
    requires SortedByRank(t)
    ensures SortedByRank(InsertByRank(x, t))
  {
    var p := InsertPoint(x, t);
    var r := InsertByRank(x, t);
    InsertPointSplits(x, t);
    forall i, j | 0 <= i < j < |r| ensures Rank(r[i]) >= Rank(r[j]) {
      if j == p {
        assert r[i] == t[i] && r[j] == x;
      } else if i == p {
        assert r[i] == x && r[j] == t[j - 1];
        assert p <= j - 1 < |t|;
        if j - 1 > p {
          assert Rank(t[p]) >= Rank(t[j - 1]);
        }
      } else if i < p {
        assert r[i] == t[i] && r[j] == t[if j < p then j else j - 1];
      } else {
        assert r[i] == t[i - 1] && r[j] == t[j - 1];
      }
    }
  }

  /** The stable sort by non-increasing rank. */
  function SortByRank(s: seq<VideoQuality>): (r: seq<VideoQuality>)
    ensures SortedByRank(r)
    ensures multiset(r) == multiset(s)
    decreases |s|
  {
    if s == [] then []
    else
      assert s == [s[0]] + s[1..];
      var rest := SortByRank(s[1..]);
      InsertByRankSorted(s[0], rest);
      InsertByRankPermutes(s[0], rest);
      InsertByRank(s[0], rest)
  }

  /** The entries of rank `k`, in their order in `s`. */
  function WithRank(s: seq<VideoQuality>, k: nat): seq<VideoQuality>
    decreases |s|
  {
    if s == [] then []
    else if Rank(s[0]) == k then [s[0]] + WithRank(s[1..], k)
    else WithRank(s[1..], k)
  }

  /** The entries of positive rank, in their order in `s`. */
  function RankedAboveZero(s: seq<VideoQuality>): seq<VideoQuality>
    decreases |s|
  {
    if s == [] then []
    else if Rank(s[0]) > 0 then [s[0]] + RankedAboveZero(s[1..])
    else RankedAboveZero(s[1..])
  }

  lemma {:induction false} WithRankConcat(a: seq<VideoQuality>, b: seq<VideoQuality>, k: nat)
    ensures WithRank(a + b, k) == WithRank(a, k) + WithRank(b, k)
    decreases |a|
  {
    if a != [] {
      assert (a + b)[0] == a[0] && (a + b)[1..] == a[1..] + b;
      WithRankConcat(a[1..], b, k);
    } else {
      assert a + b == b;
    }
  }

  lemma {:induction false} WithRankOfOthers(a: seq<VideoQuality>, k: nat)
    requires forall i :: 0 <= i < |a| ==> Rank(a[i]) != k
    ensures WithRank(a, k) == []
    decreases |a|
  {
    if a != [] {
      WithRankOfOthers(a[1..], k);
    }
  }

  lemma WithRankInsert(x: VideoQuality, t: seq<VideoQuality>, k: nat)
    ensures WithRank(InsertByRank(x, t), k) == (if Rank(x) == k then [x] else []) + WithRank(t, k)
  {
    var p := InsertPoint(x, t);
    var a, b := t[..p], t[p..];
    assert WithRank(InsertByRank(x, t), k) == WithRank(a, k) + WithRank([x], k) + WithRank(b, k) by {
      WithRankConcat(a + [x], b, k);
      WithRankConcat(a, [x], k);
    }
    assert WithRank(t, k) == WithRank(a, k) + WithRank(b, k) by {
      WithRankConcat(a, b, k);
      assert a + b == t;
    }
    assert WithRank([x], k) == (if Rank(x) == k then [x] else []) by {
      assert [x][1..] == [];
    }
    if Rank(x) == k {
      InsertPointSplits(x, t);
      WithRankOfOthers(a, k);
    }
  }

  /** Stability: sorting keeps, for every rank, the order of the entries of that rank. */
  lemma {:induction false} SortByRankStable(s: seq<VideoQuality>, k: nat)
    ensures WithRank(SortByRank(s), k) == WithRank(s, k)
    decreases |s|
  {
    if s != [] {
      SortByRankStable(s[1..], k);
      WithRankInsert(s[0], SortByRank(s[1..]), k);
    }
  }

  lemma {:induction false} AllRankZero(s: seq<VideoQuality>)
    requires forall i :: 0 <= i < |s| ==> Rank(s[i]) == 0
    ensures RankedAboveZero(s) == [] && WithRank(s, 0) == s
    decreases |s|
  {
    if s != [] {
      AllRankZero(s[1..]);
    }
  }

  /** A sorted list is its positive-rank entries followed by its rank-0 entries. */
  lemma {:induction false} SortedSplitsAtZero(s: seq<VideoQuality>)
    requires SortedByRank(s)
    ensures s == RankedAboveZero(s) + WithRank(s, 0)
    decreases |s|
  {
    if s != [] {
      if Rank(s[0]) == 0 {
        AllRankZero(s);
      } else {
        SortedSplitsAtZero(s[1..]);
        assert s == [s[0]] + s[1..];
      }
    }
  }

  lemma {:induction false} RankedAboveZeroIsPositive(s: seq<VideoQuality>)
    ensures forall i :: 0 <= i < |RankedAboveZero(s)| ==> Rank(RankedAboveZero(s)[i]) > 0
    decreases |s|
  {
    if s != [] {
      RankedAboveZeroIsPositive(s[1..]);
    }
  }

  lemma {:induction false} WithRankMembers(s: seq<VideoQuality>, k: nat)
    ensures forall i :: 0 <= i < |WithRank(s, k)| ==> WithRank(s, k)[i] in s && Rank(WithRank(s, k)[i]) == k
    decreases |s|
  {
    if s != [] {
      WithRankMembers(s[1..], k);
    }
  }

  /** No two entries share a `sub_label`. */
  predicate DistinctLabels(s: seq<VideoQuality>) {
    forall i, j :: 0 <= i < j < |s| ==> s[i].subLabel != s[j].subLabel
  }

  lemma InsertByRankDistinct(x: VideoQuality, t: seq<VideoQuality>)
    requires DistinctLabels(t)
    requires forall i :: 0 <= i < |t| ==> t[i].subLabel != x.subLabel
    ensures DistinctLabels(InsertByRank(x, t))
  {
    var p := InsertPoint(x, t);
    var r := InsertByRank(x, t);
    forall i, j | 0 <= i < j < |r| ensures r[i].subLabel != r[j].subLabel {
      if j == p {
        assert r[i] == t[i] && r[j] == x;
      } else if i == p {
        assert r[i] == x && r[j] == t[j - 1];
      } else if i < p {
        assert r[i] == t[i] && r[j] == t[if j < p then j else j - 1];
      } else {
        assert r[i] == t[i - 1] && r[j] == t[j - 1];
      }
    }
  }

  lemma ConsDistinct(x: VideoQuality, t: seq<VideoQuality>)
    requires DistinctLabels(t)
    requires forall i :: 0 <= i < |t| ==> t[i].subLabel != x.subLabel
    ensures DistinctLabels([x] + t)
  {
    var s := [x] + t;
    forall i, j | 0 <= i < j < |s| ensures s[i].subLabel != s[j].subLabel {
      assert s[j] == t[j - 1];
      if i > 0 {
        assert s[i] == t[i - 1];
      }
    }
  }

  /** Sorting neither adds nor loses entries. */
  lemma SortByRankMembers(s: seq<VideoQuality>)
    ensures forall q :: q in SortByRank(s) <==> q in s
  {
    var r := SortByRank(s);
    forall q ensures q in r <==> q in s {
      assert q in r <==> q in multiset(r);
      assert q in s <==> q in multiset(s);
    }
  }

  /**
   * In a sorted list where, above `floor`, the label is a function of the
   * rank, distinct labels make the ranks above `floor` strictly decrease.
   */
  lemma StrictWhenRankDeterminesLabel(s: seq<VideoQuality>, floor: int)
    requires SortedByRank(s) && DistinctLabels(s)
    requires forall i, j :: 0 <= i < j < |s| && Rank(s[j]) > floor && Rank(s[i]) == Rank(s[j]) ==> s[i].subLabel == s[j].subLabel
    ensures forall i, j :: 0 <= i < j < |s| && Rank(s[j]) > floor ==> Rank(s[i]) > Rank(s[j])
  {
  }

  /** Sorting keeps the `sub_label`s pairwise distinct. */
  lemma {:induction false} SortByRankDistinct(s: seq<VideoQuality>)
    requires DistinctLabels(s)
    ensures DistinctLabels(SortByRank(s))
    decreases |s|
  {
    if s != [] {
      var rest := SortByRank(s[1..]);
      SortByRankDistinct(s[1..]);
      forall i | 0 <= i < |rest| ensures rest[i].subLabel != s[0].subLabel {
        assert rest[i] in multiset(s[1..]);
        var j :| 0 <= j < |s[1..]| && s[1..][j] == rest[i];
        assert s[j + 1] == rest[i];
      }
      InsertByRankDistinct(s[0], rest);
    }
  }
}
