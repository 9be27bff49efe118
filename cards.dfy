/**
 * The card ranking of the Revised Simos procedure: an ordered list of subsets of
 * criterion labels, from least to most important, where a subset whose first label
 * is "w" is a white (blank) card standing for one extra gap between its neighbours.
 * All sequence functions here are defined from the back, the order in which a
 * left-to-right scan discovers them.
 */
module Cards {
  import opened Sums

  type Label = string
  type Subset = seq<Label>

  /** The label that marks a white card. */
  const WhiteCard: Label := "w"

  /** A subset is a white card when its first label is the white-card label. */
  predicate IsWhite(s: Subset)
  {
    |s| > 0 && s[0] == WhiteCard
  }

  /** Every subset has a first label to inspect. */
  predicate WellFormed(ranking: seq<Subset>)
  {
    forall i :: 0 <= i < |ranking| ==> |ranking[i]| > 0
  }

  /** The ranking holds at least one subset of criteria, so there is at least one position. */
  predicate HasPositions(ranking: seq<Subset>)
  {
    |NonWhite(ranking)| >= 1
  }

  /** The ranking opens with a subset of criteria, not with a white card. */
  predicate StartsNonWhite(ranking: seq<Subset>)
  {
    |ranking| > 0 && !IsWhite(ranking[0])
  }

  /** The non-white subsets of the ranking, in ranking order. */
  function NonWhite(ranking: seq<Subset>): seq<Subset>
  {
    if |ranking| == 0 then []
    else if IsWhite(ranking[|ranking| - 1]) then NonWhite(ranking[..|ranking| - 1])
    else NonWhite(ranking[..|ranking| - 1]) + [ranking[|ranking| - 1]]
  }

  /** The number of white cards in the ranking. */
  function WhiteCount(ranking: seq<Subset>): nat
  {
    if |ranking| == 0 then 0
    else WhiteCount(ranking[..|ranking| - 1]) + (if IsWhite(ranking[|ranking| - 1]) then 1 else 0)
  }

  /** The size of each subset, in order. */
  function Sizes(ss: seq<Subset>): seq<nat>
  {
    seq(|ss|, r requires 0 <= r < |ss| => |ss[r]|)
  }

  /** All labels of the subsets, concatenated in order. */
  function Flatten(ss: seq<Subset>): seq<Label>
  {
    if |ss| == 0 then [] else Flatten(ss[..|ss| - 1]) + ss[|ss| - 1]
  }

  /** The positions in the ranking of its non-white subsets, in increasing order. */
  function NonWhiteIndices(ranking: seq<Subset>): (idx: seq<nat>)
    ensures |idx| == |NonWhite(ranking)|
  {
    if |ranking| == 0 then []
    else if IsWhite(ranking[|ranking| - 1]) then NonWhiteIndices(ranking[..|ranking| - 1])
    else NonWhiteIndices(ranking[..|ranking| - 1]) + [|ranking| - 1]
  }

  /** Where the next non-white subset after the r-th one sits, or the end of the ranking. */
  function NextNonWhite(ranking: seq<Subset>, r: nat): (next: nat)
    requires r < |NonWhite(ranking)|
    ensures NonWhiteIndices(ranking)[r] < next <= |ranking|
  {
    IndicesPointAtNonWhite(ranking);
    IndicesIncreasing(ranking);
    var idx := NonWhiteIndices(ranking);
    if r + 1 < |idx| then idx[r + 1] else |ranking|
  }

  /**
   * The gap vector: one entry per non-white subset, starting at 1 and raised by one
   * for every white card met before the next non-white subset.
   */
  function Gaps(ranking: seq<Subset>): (e: seq<nat>)
    ensures |e| == |NonWhite(ranking)|
    decreases |ranking|
  {
    if |ranking| == 0 then []
    else
      var front := ranking[..|ranking| - 1];
      var g := Gaps(front);
      if !IsWhite(ranking[|ranking| - 1]) then g + [1]
      else if |g| == 0 then g
      else g[..|g| - 1] + [g[|g| - 1] + 1]
  }

  /** The number of white cards placed before the first non-white subset. */
  function LeadingWhites(ranking: seq<Subset>): nat
  {
    if |ranking| == 0 then 0
    else
      var front := ranking[..|ranking| - 1];
      LeadingWhites(front) +
        (if |NonWhite(front)| == 0 && IsWhite(ranking[|ranking| - 1]) then 1 else 0)
  }

  /**
   * An array of n entries holding the gaps g found so far, ones after them, and
   * lead extra units on the last entry.
   */
  function Row(g: seq<nat>, lead: nat, n: nat): (e: seq<nat>)
    requires |g| <= n && n >= 1
    ensures |e| == n
  {
    seq(n, j requires 0 <= j < n =>
      if j == n - 1 then (if j < |g| then g[j] else 1) + lead
      else if j < |g| then g[j] else 1)
  }

  /**
   * The gap vector as the procedure builds it: while no non-white subset has been met
   * its counter is -1, and a white card then raises the entry at index -1, which
   * is the last one.
   */
  function GapVector(ranking: seq<Subset>): (e: seq<nat>)
    ensures |e| == |NonWhite(ranking)|
  {
    if |NonWhite(ranking)| == 0 then []
    else Row(Gaps(ranking), LeadingWhites(ranking), |NonWhite(ranking)|)
  }

  /** A ranking that opens with a non-white subset has at least one, and it is the first. */
  lemma {:induction false} NonWhiteStart(ranking: seq<Subset>)
    requires StartsNonWhite(ranking)
    ensures |NonWhite(ranking)| >= 1
    ensures NonWhiteIndices(ranking)[0] == 0
    decreases |ranking|
  {
    if |ranking| > 1 {
      var front := ranking[..|ranking| - 1];
      assert front[0] == ranking[0];
      NonWhiteStart(front);
    }
  }

  /** Every subset is either white or non-white. */
  lemma {:induction false} CountsPartition(ranking: seq<Subset>)
    ensures |NonWhite(ranking)| + WhiteCount(ranking) == |ranking|
    decreases |ranking|
  {
    if |ranking| > 0 {
      CountsPartition(ranking[..|ranking| - 1]);
    }
  }

  /** A prefix of a ranking has no more non-white subsets than the ranking. */
  lemma {:induction false} NonWhitePrefix(ranking: seq<Subset>, i: nat)
    requires i <= |ranking|
    ensures |NonWhite(ranking[..i])| <= |NonWhite(ranking)|
    decreases |ranking|
  {
    if i < |ranking| {
      var front := ranking[..|ranking| - 1];
      assert front[..i] == ranking[..i];
      NonWhitePrefix(front, i);
    } else {
      assert ranking[..i] == ranking;
    }
  }

  /** Each listed index points at the matching non-white subset of the ranking. */
  lemma {:induction false} IndicesPointAtNonWhite(ranking: seq<Subset>)
    ensures forall r :: 0 <= r < |NonWhiteIndices(ranking)| ==>
      NonWhiteIndices(ranking)[r] < |ranking| &&
      ranking[NonWhiteIndices(ranking)[r]] == NonWhite(ranking)[r] &&
      !IsWhite(ranking[NonWhiteIndices(ranking)[r]])
    decreases |ranking|
  {
    if |ranking| > 0 {
      var n := |ranking| - 1;
      var front := ranking[..n];
      IndicesPointAtNonWhite(front);
      var idx, idx' := NonWhiteIndices(ranking), NonWhiteIndices(front);
      forall r | 0 <= r < |idx|
        ensures idx[r] < |ranking| && ranking[idx[r]] == NonWhite(ranking)[r] && !IsWhite(ranking[idx[r]])
      {
        if r < |idx'| {
          assert idx[r] == idx'[r] && NonWhite(ranking)[r] == NonWhite(front)[r];
          assert front[idx'[r]] == ranking[idx'[r]];
        }
      }
    }
  }

  /** The listed indices increase strictly. */
  lemma {:induction false} IndicesIncreasing(ranking: seq<Subset>)
    ensures forall r1, r2 :: 0 <= r1 < r2 < |NonWhiteIndices(ranking)| ==>
      NonWhiteIndices(ranking)[r1] < NonWhiteIndices(ranking)[r2]
    decreases |ranking|
  {
    if |ranking| > 0 {
      var front := ranking[..|ranking| - 1];
      IndicesIncreasing(front);
      IndicesPointAtNonWhite(front);
    }
  }

  /** Every non-white subset of the ranking has its index listed. */
  lemma {:induction false} IndicesCover(ranking: seq<Subset>)
    ensures forall j :: 0 <= j < |ranking| && !IsWhite(ranking[j]) ==>
      j in NonWhiteIndices(ranking)
    decreases |ranking|
  {
    if |ranking| > 0 {
      var n := |ranking| - 1;
      var front := ranking[..n];
      IndicesCover(front);
      forall j | 0 <= j < |ranking| && !IsWhite(ranking[j])
        ensures j in NonWhiteIndices(ranking)
      {
        if j < n {
          assert front[j] == ranking[j];
        }
      }
    }
  }

  /** The non-white subsets, as listed, are those of the ranking taken in their original order. */
  lemma NonWhiteInOrder(ranking: seq<Subset>, r: nat)
    requires r < |NonWhite(ranking)|
    ensures NonWhiteIndices(ranking)[r] < |ranking|
    ensures NonWhite(ranking)[r] == ranking[NonWhiteIndices(ranking)[r]]
    ensures Sizes(NonWhite(ranking))[r] == |ranking[NonWhiteIndices(ranking)[r]]|
  {
    IndicesPointAtNonWhite(ranking);
  }

  /** The number of labels in a list of subsets is the sum of their sizes. */
  lemma {:induction false} FlattenLength(ss: seq<Subset>)
    ensures |Flatten(ss)| == Sum(Sizes(ss))
    decreases |ss|
  {
    if |ss| > 0 {
      var n := |ss| - 1;
      FlattenLength(ss[..n]);
      assert Sizes(ss)[..n] == Sizes(ss[..n]);
    }
  }

  /** Every entry of the gap vector is at least 1. */
  lemma {:induction false} GapsPositive(ranking: seq<Subset>)
    ensures forall r :: 0 <= r < |Gaps(ranking)| ==> Gaps(ranking)[r] >= 1
    decreases |ranking|
  {
    if |ranking| > 0 {
      var front := ranking[..|ranking| - 1];
      GapsPositive(front);
    }
  }

  /**
   * Every entry of the gap vector as the procedure builds it is at least 1, leading
   * white cards included.
   */
  lemma GapVectorPositive(ranking: seq<Subset>)
    ensures forall r :: 0 <= r < |GapVector(ranking)| ==> GapVector(ranking)[r] >= 1
  {
    GapsPositive(ranking);
  }

  /**
   * The r-th gap is the distance from the r-th non-white subset to the next one
   * (or to the end of the ranking).
   */
  lemma {:induction false} GapsAt(ranking: seq<Subset>, r: nat)
    requires |ranking| == 0 || !IsWhite(ranking[0])
    requires r < |NonWhite(ranking)|
    ensures Gaps(ranking)[r] == NextNonWhite(ranking, r) - NonWhiteIndices(ranking)[r]
    decreases |ranking|
  {
    var n := |ranking| - 1;
    var front := ranking[..n];
    IndicesPointAtNonWhite(front);
    if IsWhite(ranking[n]) {
      NonWhiteStart(front);
      GapsAt(front, r);
    } else if r < |NonWhite(front)| {
      GapsAt(front, r);
    }
  }

  /** The subsets strictly between the r-th non-white subset and the next one are all white. */
  lemma WhitesBetween(ranking: seq<Subset>, r: nat, j: nat)
    requires r < |NonWhite(ranking)|
    requires NonWhiteIndices(ranking)[r] < j < NextNonWhite(ranking, r)
    ensures j < |ranking| && IsWhite(ranking[j])
  {
    var idx := NonWhiteIndices(ranking);
    IndicesPointAtNonWhite(ranking);
    IndicesIncreasing(ranking);
    IndicesCover(ranking);
    forall s | 0 <= s < |idx| ensures idx[s] != j {
      if r < s {
        assert idx[r + 1] <= idx[s];
      }
    }
  }

  /** A stretch of the ranking made only of white cards counts all of them. */
  lemma {:induction false} WhiteCountRange(ranking: seq<Subset>, lo: nat, hi: nat)
    requires lo <= hi <= |ranking|
    requires forall p :: lo <= p < hi ==> IsWhite(ranking[p])
    ensures WhiteCount(ranking[lo..hi]) == hi - lo
    decreases hi - lo
  {
    if lo < hi {
      var run := ranking[lo..hi];
      assert run[..|run| - 1] == ranking[lo..hi - 1];
      assert run[|run| - 1] == ranking[hi - 1];
      WhiteCountRange(ranking, lo, hi - 1);
    }
  }

  /** The subsets strictly between the r-th non-white subset and the next one (or the end of the ranking). */
  function After(ranking: seq<Subset>, r: nat): seq<Subset>
    requires r < |NonWhite(ranking)|
  {
    var next := NextNonWhite(ranking, r);
    ranking[NonWhiteIndices(ranking)[r] + 1 .. next]
  }

  /**
   * e[r] - 1 is the number of white cards between the r-th non-white subset and the
   * next non-white subset (or the end of the ranking).
   */
  lemma GapCountsWhites(ranking: seq<Subset>, r: nat)
    requires StartsNonWhite(ranking)
    requires r < |NonWhite(ranking)|
    ensures Gaps(ranking)[r] == 1 + WhiteCount(After(ranking, r))
  {
    var idx := NonWhiteIndices(ranking);
    var next := NextNonWhite(ranking, r);
    GapsAt(ranking, r);
    forall p | idx[r] + 1 <= p < next ensures IsWhite(ranking[p]) {
      WhitesBetween(ranking, r, p);
    }
    WhiteCountRange(ranking, idx[r] + 1, next);
  }

  /** The gaps add up to the number of subsets: one per non-white subset plus one per white card. */
  lemma {:induction false} GapsSum(ranking: seq<Subset>)
    requires |ranking| == 0 || !IsWhite(ranking[0])
    ensures Sum(Gaps(ranking)) == |ranking| == |NonWhite(ranking)| + WhiteCount(ranking)
    decreases |ranking|
  {
    CountsPartition(ranking);
    if |ranking| > 0 {
      var front := ranking[..|ranking| - 1];
      GapsSum(front);
      var g := Gaps(front);
      if IsWhite(ranking[|ranking| - 1]) {
        NonWhiteStart(front);
        var m := |g| - 1;
        assert g == g[..m] + [g[m]];
        assert Sum(g) == Sum(g[..m]) + g[m];
        assert (g[..m] + [g[m] + 1])[..m] == g[..m];
      } else {
        assert (g + [1])[..|g|] == g;
      }
    }
  }

  /**
   * The gaps before the r-th non-white subset add up to its position in the ranking,
   * white cards included.
   */
  lemma {:induction false} GapsPrefixSum(ranking: seq<Subset>, r: nat)
    requires StartsNonWhite(ranking)
    requires r < |NonWhite(ranking)|
    ensures Sum(Gaps(ranking)[..r]) == NonWhiteIndices(ranking)[r]
    decreases r
  {
    var e := Gaps(ranking);
    if r == 0 {
      NonWhiteStart(ranking);
      assert e[..0] == [];
    } else {
      GapsPrefixSum(ranking, r - 1);
      GapsAt(ranking, r - 1);
      assert e[..r][..r - 1] == e[..r - 1];
    }
  }

  /** A white card at the head of the ranking changes neither the non-white subsets nor their gaps. */
  lemma {:induction false} DropWhiteHead(ranking: seq<Subset>)
    requires |ranking| > 0 && IsWhite(ranking[0])
    ensures NonWhite(ranking) == NonWhite(ranking[1..])
    ensures Gaps(ranking) == Gaps(ranking[1..])
    decreases |ranking|
  {
    var n := |ranking| - 1;
    if n == 0 {
      assert ranking[..n] == [];
    } else {
      var front := ranking[..n];
      assert front[0] == ranking[0];
      DropWhiteHead(front);
      assert ranking[1..][..n - 1] == front[1..];
      assert ranking[1..][n - 1] == ranking[n];
    }
  }

  /** A white card at the head of the ranking moves every non-white subset one place up. */
  lemma {:induction false} DropWhiteHeadIndices(ranking: seq<Subset>)
    requires |ranking| > 0 && IsWhite(ranking[0])
    ensures |NonWhiteIndices(ranking)| == |NonWhiteIndices(ranking[1..])|
    ensures forall r :: 0 <= r < |NonWhiteIndices(ranking)| ==>
      NonWhiteIndices(ranking)[r] == NonWhiteIndices(ranking[1..])[r] + 1
    decreases |ranking|
  {
    DropWhiteHead(ranking);
    var n := |ranking| - 1;
    if n == 0 {
      assert ranking[..n] == [];
    } else {
      var front := ranking[..n];
      assert front[0] == ranking[0];
      DropWhiteHeadIndices(front);
      assert ranking[1..][..n - 1] == front[1..];
      assert ranking[1..][n - 1] == ranking[n];
    }
  }

  /** A white card at the head of the ranking is one more leading white card. */
  lemma {:induction false} DropWhiteHeadLeading(ranking: seq<Subset>)
    requires |ranking| > 0 && IsWhite(ranking[0])
    ensures LeadingWhites(ranking) == LeadingWhites(ranking[1..]) + 1
    decreases |ranking|
  {
    var n := |ranking| - 1;
    if n == 0 {
      assert ranking[..n] == [];
    } else {
      var front := ranking[..n];
      assert front[0] == ranking[0];
      DropWhiteHead(front);
      DropWhiteHeadLeading(front);
      assert ranking[1..][..n - 1] == front[1..];
      assert ranking[1..][n - 1] == ranking[n];
    }
  }

  /** A ranking that opens with a non-white subset has no leading white cards, so its gap vector is the plain one. */
  lemma StartsNonWhiteGapVector(ranking: seq<Subset>)
    requires StartsNonWhite(ranking)
    ensures GapVector(ranking) == Gaps(ranking)
  {
    LeadingNone(ranking);
    assert forall j :: 0 <= j < |Gaps(ranking)| ==> GapVector(ranking)[j] == Gaps(ranking)[j];
  }

  lemma {:induction false} LeadingNone(ranking: seq<Subset>)
    requires StartsNonWhite(ranking)
    ensures LeadingWhites(ranking) == 0
    decreases |ranking|
  {
    if |ranking| > 1 {
      var front := ranking[..|ranking| - 1];
      assert front[0] == ranking[0];
      LeadingNone(front);
      NonWhiteStart(front);
    }
  }

  /** A new gap of 1 fills the entry that already held 1. */
  lemma RowAppendOne(g: seq<nat>, lead: nat, n: nat)
    requires |g| < n
    ensures Row(g + [1], lead, n) == Row(g, lead, n)
  {
    assert forall j :: 0 <= j < n ==> Row(g + [1], lead, n)[j] == Row(g, lead, n)[j];
  }

  /** One more extra unit raises the last entry. */
  lemma RowRaiseLead(g: seq<nat>, lead: nat, n: nat)
    requires |g| <= n && n >= 1
    ensures Row(g, lead + 1, n) == Row(g, lead, n)[n - 1 := Row(g, lead, n)[n - 1] + 1]
  {
  }

  /** Raising the latest gap raises its entry. */
  lemma RowRaiseLast(g: seq<nat>, lead: nat, n: nat)
    requires 0 < |g| <= n
    ensures Row(g[..|g| - 1] + [g[|g| - 1] + 1], lead, n) ==
      Row(g, lead, n)[|g| - 1 := Row(g, lead, n)[|g| - 1] + 1]
  {
    var g' := g[..|g| - 1] + [g[|g| - 1] + 1];
    assert forall j :: 0 <= j < |g| - 1 ==> g'[j] == g[j];
  }

  /**
   * The gap vector, in an array of n entries, once the first |prefix| subsets have been
   * read: the gaps found so far, ones after them, and the leading white cards on the
   * last entry.
   */
  function GapVectorSoFar(prefix: seq<Subset>, n: nat): (e: seq<nat>)
    requires |NonWhite(prefix)| <= n && n >= 1
    ensures |e| == n
  {
    Row(Gaps(prefix), LeadingWhites(prefix), n)
  }

  /** Before any subset is read, every entry is 1. */
  lemma GapVectorSoFarStart(n: nat)
    requires n >= 1
    ensures GapVectorSoFar([], n) == seq(n, j => 1)
  {
    assert forall j :: 0 <= j < n ==> GapVectorSoFar([], n)[j] == 1;
  }

  /** What reading one more subset x does to the non-white subsets, the gaps and the leading white cards. */
  lemma ReadOne(prefix: seq<Subset>, x: Subset)
    ensures NonWhite(prefix + [x]) ==
      if IsWhite(x) then NonWhite(prefix) else NonWhite(prefix) + [x]
    ensures Gaps(prefix + [x]) ==
      if !IsWhite(x) then Gaps(prefix) + [1]
      else if |Gaps(prefix)| == 0 then Gaps(prefix)
      else Gaps(prefix)[..|Gaps(prefix)| - 1] + [Gaps(prefix)[|Gaps(prefix)| - 1] + 1]
    ensures LeadingWhites(prefix + [x]) ==
      LeadingWhites(prefix) + (if |NonWhite(prefix)| == 0 && IsWhite(x) then 1 else 0)
  {
    assert (prefix + [x])[..|prefix|] == prefix;
  }

  /** Reading a non-white subset leaves the entries as they are; only the counter moves. */
  lemma GapVectorSoFarNonWhite(prefix: seq<Subset>, x: Subset, n: nat)
    requires !IsWhite(x)
    requires |NonWhite(prefix + [x])| <= n && n >= 1
    ensures |NonWhite(prefix + [x])| == |NonWhite(prefix)| + 1
    ensures GapVectorSoFar(prefix + [x], n) == GapVectorSoFar(prefix, n)
  {
    ReadOne(prefix, x);
    RowAppendOne(Gaps(prefix), LeadingWhites(prefix), n);
  }

  /** A white card read before any non-white subset raises the last entry. */
  lemma GapVectorSoFarLeadingWhite(prefix: seq<Subset>, x: Subset, n: nat)
    requires IsWhite(x) && |NonWhite(prefix)| == 0 && n >= 1
    ensures |NonWhite(prefix + [x])| == 0
    ensures GapVectorSoFar(prefix + [x], n) ==
      GapVectorSoFar(prefix, n)[n - 1 := GapVectorSoFar(prefix, n)[n - 1] + 1]
  {
    ReadOne(prefix, x);
    RowRaiseLead(Gaps(prefix), LeadingWhites(prefix), n);
  }

  /** A white card read after the c-th non-white subset raises entry c - 1. */
  lemma GapVectorSoFarWhite(prefix: seq<Subset>, x: Subset, n: nat)
    requires IsWhite(x) && 0 < |NonWhite(prefix)| <= n
    ensures |NonWhite(prefix + [x])| == |NonWhite(prefix)|
    ensures GapVectorSoFar(prefix + [x], n) ==
      GapVectorSoFar(prefix, n)[|NonWhite(prefix)| - 1 :=
        GapVectorSoFar(prefix, n)[|NonWhite(prefix)| - 1] + 1]
  {
    ReadOne(prefix, x);
    RowRaiseLast(Gaps(prefix), LeadingWhites(prefix), n);
  }

  /**
   * Reading subset i: a non-white subset moves the counter on and changes no entry;
   * a white card raises the entry of the latest non-white subset, or the last entry
   * when none has been read yet.
   */
  lemma GapVectorSoFarStep(ranking: seq<Subset>, i: nat, n: nat)
    requires i < |ranking| && n >= 1
    requires |NonWhite(ranking[..i + 1])| <= n
    ensures |NonWhite(ranking[..i])| <= n
    ensures |NonWhite(ranking[..i + 1])| ==
      |NonWhite(ranking[..i])| + (if IsWhite(ranking[i]) then 0 else 1)
    ensures !IsWhite(ranking[i]) ==>
      GapVectorSoFar(ranking[..i + 1], n) == GapVectorSoFar(ranking[..i], n)
    ensures IsWhite(ranking[i]) ==>
      var at := if |NonWhite(ranking[..i])| == 0 then n - 1 else |NonWhite(ranking[..i])| - 1;
      GapVectorSoFar(ranking[..i + 1], n) ==
        GapVectorSoFar(ranking[..i], n)[at := GapVectorSoFar(ranking[..i], n)[at] + 1]
  {
    var prefix := ranking[..i];
    assert ranking[..i + 1] == prefix + [ranking[i]];
    if !IsWhite(ranking[i]) {
      GapVectorSoFarNonWhite(prefix, ranking[i], n);
    } else if |NonWhite(prefix)| == 0 {
      GapVectorSoFarLeadingWhite(prefix, ranking[i], n);
    } else {
      GapVectorSoFarWhite(prefix, ranking[i], n);
    }
  }
}
