/**
 * Weights of the Revised Simos procedure, as functions of the card ranking: the step
 * u, the non-normalised weights k, their normalisation to 100 and the weight that
 * each criterion label receives.
 */
module Weights {
  import opened Sums
  import opened Cards

  /** Decimal places kept when u is rounded. */
  const Million: real := 1000000.0

  /** Rounding to the nearest integer, halves going to the even neighbour. */
  function RoundHalfEven(y: real): (n: int)
    ensures -0.5 <= (n as real) - y <= 0.5
    ensures ((n as real) - y == 0.5 || (n as real) - y == -0.5) ==> n % 2 == 0
  {
    var f := y.Floor;
    var d := y - f as real;
    if d < 0.5 then f
    else if d > 0.5 then f + 1
    else if f % 2 == 0 then f
    else f + 1
  }

  /** Rounding to six decimal places, halves going to the even neighbour. */
  function Round6(x: real): (r: real)
    ensures (r * Million).Floor as real == r * Million
    ensures -0.5 / Million <= r - x <= 0.5 / Million
    ensures (r - x == 0.5 / Million || r - x == -0.5 / Million) ==> (r * Million).Floor % 2 == 0
    ensures x >= 0.0 ==> r >= 0.0
    ensures r > 0.0 <==> x > 0.5 / Million
  {
    var n := RoundHalfEven(x * Million);
    assert n >= 1 <==> x * Million > 0.5;
    assert (n as real) / Million * Million == n as real;
    (n as real) / Million
  }

  /** The non-normalised weight of a card standing p gap units above the first one. */
  function Level(u: real, p: nat): real
  {
    1.0 + u * (p as real)
  }

  /** Moving q gap units up adds u * q. */
  lemma LevelDiff(u: real, p: nat, q: nat)
    ensures Level(u, p + q) - Level(u, p) == u * (q as real)
  {
    assert ((p + q) as real) == (p as real) + (q as real);
  }

  /**
   * The non-normalised weights: the i-th is the level reached after the sum of the
   * gaps before it, so the first is 1.
   */
  function KWeights(e: seq<nat>, u: real): (k: seq<real>)
    ensures |k| == |e|
  {
    seq(|e|, i requires 0 <= i < |e| => Level(u, Sum(e[..i])))
  }

  /** The first weight is 1 and each further weight adds u times the preceding gap. */
  lemma KWeightsStep(e: seq<nat>, u: real)
    ensures |e| > 0 ==> KWeights(e, u)[0] == 1.0
    ensures forall i :: 0 <= i < |e| - 1 ==>
      KWeights(e, u)[i + 1] == KWeights(e, u)[i] + u * (e[i] as real)
  {
    assert e[..0] == [];
    forall i | 0 <= i < |e| - 1
      ensures KWeights(e, u)[i + 1] == KWeights(e, u)[i] + u * (e[i] as real)
    {
      assert e[..i + 1][..i] == e[..i];
      LevelDiff(u, Sum(e[..i]), e[i]);
    }
  }

  /** The last gap never enters k: gap vectors that differ only there give the same weights. */
  lemma LastGapIgnored(e: seq<nat>, e': seq<nat>, u: real)
    requires |e'| == |e|
    requires forall i :: 0 <= i < |e| - 1 ==> e'[i] == e[i]
    ensures KWeights(e', u) == KWeights(e, u)
  {
    forall i | 0 <= i < |e| ensures KWeights(e', u)[i] == KWeights(e, u)[i] {
      assert e'[..i] == e[..i];
    }
  }

  /** The difference of two weights is u times the gaps between them. */
  lemma KWeightsDiff(e: seq<nat>, u: real, i: nat, j: nat)
    requires i < j < |e|
    ensures KWeights(e, u)[j] - KWeights(e, u)[i] == u * (Sum(e[i..j]) as real)
  {
    assert e[..j] == e[..i] + e[i..j];
    SumAppend(e[..i], e[i..j]);
    LevelDiff(u, Sum(e[..i]), Sum(e[i..j]));
  }

  /**
   * With every gap at least 1, a non-negative u gives weights of at least 1 that never
   * decrease, and a positive u gives strictly increasing weights.
   */
  lemma KWeightsOrder(e: seq<nat>, u: real)
    requires forall i :: 0 <= i < |e| ==> e[i] >= 1
    ensures u >= 0.0 ==> NonDecreasing(KWeights(e, u))
    ensures u >= 0.0 ==> forall i :: 0 <= i < |e| ==> KWeights(e, u)[i] >= 1.0
    ensures u > 0.0 ==> StrictlyIncreasing(KWeights(e, u))
  {
    var k := KWeights(e, u);
    forall i | 0 <= i < |e| && u >= 0.0 ensures k[i] >= 1.0 {
      LevelAtLeastOne(u, Sum(e[..i]));
    }
    forall i, j | 0 <= i < j < |e|
      ensures u >= 0.0 ==> k[i] <= k[j]
      ensures u > 0.0 ==> k[i] < k[j]
    {
      KWeightsDiff(e, u, i, j);
      SumAtLeastLength(e[i..j]);
      ProductSign(u, Sum(e[i..j]));
    }
  }

  /** A non-negative step never takes a level below 1. */
  lemma LevelAtLeastOne(u: real, p: nat)
    requires u >= 0.0
    ensures Level(u, p) >= 1.0
  {
    assert u * (p as real) >= 0.0;
  }

  /** The increase u * q has the sign of u once q is at least 1. */
  lemma ProductSign(u: real, q: nat)
    requires q >= 1
    ensures u >= 0.0 ==> u * (q as real) >= 0.0
    ensures u > 0.0 ==> u * (q as real) > 0.0
  {
  }

  /** Over a ranking, the r-th weight is the level of that subset's position in the ranking. */
  lemma KWeightsAtPosition(ranking: seq<Subset>, u: real, r: nat)
    requires StartsNonWhite(ranking)
    requires r < |NonWhite(ranking)|
    ensures KWeights(Gaps(ranking), u)[r] == Level(u, NonWhiteIndices(ranking)[r])
  {
    GapsPrefixSum(ranking, r);
  }

  /** The part of 100 that a non-normalised weight x earns when the weights total totalk. */
  function Share(totalk: real, x: real): real
    requires totalk != 0.0
  {
    100.0 / totalk * x
  }

  /** The weights scaled so that 100 is shared out according to k, given the total totalk. */
  function Normalised(k: seq<real>, totalk: real): seq<real>
    requires totalk != 0.0
  {
    seq(|k|, i requires 0 <= i < |k| => Share(totalk, k[i]))
  }

  /** When totalk is the weighted total of k, the normalised weights have weighted total 100. */
  lemma NormalisedTotal(k: seq<real>, c: seq<nat>, totalk: real)
    requires |k| == |c|
    requires totalk == Dot(k, c) && totalk != 0.0
    ensures Dot(Normalised(k, totalk), c) == 100.0
  {
    assert forall i :: 0 <= i < |k| ==> Normalised(k, totalk)[i] == Scale(100.0 / totalk, k)[i];
    assert Normalised(k, totalk) == Scale(100.0 / totalk, k);
    DotScale(100.0 / totalk, k, c);
    assert 100.0 / totalk * totalk == 100.0;
  }

  /** A positive total keeps the order of the weights. */
  lemma NormalisedOrder(k: seq<real>, totalk: real)
    requires totalk > 0.0
    ensures NonDecreasing(k) ==> NonDecreasing(Normalised(k, totalk))
    ensures StrictlyIncreasing(k) ==> StrictlyIncreasing(Normalised(k, totalk))
  {
    var w := Normalised(k, totalk);
    forall i, j | 0 <= i < j < |k|
      ensures k[i] <= k[j] ==> w[i] <= w[j]
      ensures k[i] < k[j] ==> w[i] < w[j]
    {
      ShareMonotone(totalk, k[i], k[j]);
    }
  }

  /** With a positive total, a larger non-normalised weight earns a larger share. */
  lemma ShareMonotone(totalk: real, x: real, y: real)
    requires totalk > 0.0
    ensures x <= y ==> Share(totalk, x) <= Share(totalk, y)
    ensures x < y ==> Share(totalk, x) < Share(totalk, y)
  {
    var a := 100.0 / totalk;
    assert a > 0.0;
    assert Share(totalk, y) - Share(totalk, x) == a * (y - x);
  }

  /** One criterion label together with the weight it receives. */
  datatype Assignment = Assignment(criterion: Label, weight: real)

  /** Every label of a subset paired with the same weight. */
  function Tag(labels: Subset, x: real): seq<Assignment>
  {
    seq(|labels|, j requires 0 <= j < |labels| => Assignment(labels[j], x))
  }

  /** Every label of the r-th subset paired with the r-th weight, subsets in order. */
  function Assign(ss: seq<Subset>, w: seq<real>): seq<Assignment>
    requires |w| == |ss|
  {
    if |ss| == 0 then []
    else Assign(ss[..|ss| - 1], w[..|w| - 1]) + Tag(ss[|ss| - 1], w[|w| - 1])
  }

  function Labels(a: seq<Assignment>): seq<Label>
  {
    seq(|a|, i requires 0 <= i < |a| => a[i].criterion)
  }

  /** The sum of all weights handed out. */
  function TotalWeight(a: seq<Assignment>): real
  {
    if |a| == 0 then 0.0 else TotalWeight(a[..|a| - 1]) + a[|a| - 1].weight
  }

  /** Where the labels of the r-th subset start once all subsets are laid end to end. */
  function Offset(ss: seq<Subset>, r: nat): nat
    requires r <= |ss|
  {
    Sum(Sizes(ss[..r]))
  }

  /** One assignment per label. */
  lemma {:induction false} AssignLength(ss: seq<Subset>, w: seq<real>)
    requires |w| == |ss|
    ensures |Assign(ss, w)| == Sum(Sizes(ss))
    decreases |ss|
  {
    if |ss| > 0 {
      var n := |ss| - 1;
      AssignLength(ss[..n], w[..n]);
      assert Sizes(ss)[..n] == Sizes(ss[..n]);
    }
  }

  /** The j-th label of the r-th subset is handed out with the r-th weight, at offset plus j. */
  lemma {:induction false} AssignAt(ss: seq<Subset>, w: seq<real>, r: nat, j: nat)
    requires |w| == |ss|
    requires r < |ss| && j < |ss[r]|
    ensures Offset(ss, r) + j < |Assign(ss, w)|
    ensures Assign(ss, w)[Offset(ss, r) + j] == Assignment(ss[r][j], w[r])
    decreases |ss|
  {
    var n := |ss| - 1;
    var front, w' := ss[..n], w[..n];
    AssignLength(front, w');
    AssignLength(ss, w);
    if r < n {
      AssignAt(front, w', r, j);
      assert front[..r] == ss[..r];
    } else {
      assert ss[..r] == front;
    }
  }

  /** The labels handed out are exactly those of the subsets, in order. */
  lemma {:induction false} AssignLabels(ss: seq<Subset>, w: seq<real>)
    requires |w| == |ss|
    ensures Labels(Assign(ss, w)) == Flatten(ss)
    decreases |ss|
  {
    if |ss| > 0 {
      var n := |ss| - 1;
      var a, t := Assign(ss[..n], w[..n]), Tag(ss[n], w[n]);
      AssignLabels(ss[..n], w[..n]);
      assert Labels(a + t) == Labels(a) + Labels(t);
      assert Labels(t) == ss[n];
    }
  }

  lemma {:induction false} TotalWeightAppend(a: seq<Assignment>, b: seq<Assignment>)
    ensures TotalWeight(a + b) == TotalWeight(a) + TotalWeight(b)
    decreases |b|
  {
    if |b| == 0 {
      assert a + b == a;
    } else {
      assert (a + b)[..|a + b| - 1] == a + b[..|b| - 1];
      TotalWeightAppend(a, b[..|b| - 1]);
    }
  }

  lemma {:induction false} TotalWeightTag(labels: Subset, x: real)
    ensures TotalWeight(Tag(labels, x)) == Term(x, |labels|)
    decreases |labels|
  {
    if |labels| > 0 {
      var n := |labels| - 1;
      assert Tag(labels, x)[..n] == Tag(labels[..n], x);
      TotalWeightTag(labels[..n], x);
      TermSucc(x, n);
    }
  }

  /** The weights handed out add up to the size-weighted total of the subset weights. */
  lemma {:induction false} AssignTotal(ss: seq<Subset>, w: seq<real>)
    requires |w| == |ss|
    ensures TotalWeight(Assign(ss, w)) == Dot(w, Sizes(ss))
    decreases |ss|
  {
    if |ss| == 0 {
      assert Assign(ss, w) == [] && |Sizes(ss)| == 0;
    } else {
      TotalWeightTag(ss[|ss| - 1], w[|w| - 1]);
      AssignTotal(ss[..|ss| - 1], w[..|w| - 1]);
      AssignTotalStep(ss, w);
    }
  }

  /** The inductive step of AssignTotal. */
  lemma AssignTotalStep(ss: seq<Subset>, w: seq<real>)
    requires |w| == |ss| > 0
    requires TotalWeight(Assign(ss[..|ss| - 1], w[..|w| - 1])) ==
      Dot(w[..|w| - 1], Sizes(ss[..|ss| - 1]))
    requires TotalWeight(Tag(ss[|ss| - 1], w[|w| - 1])) == Term(w[|w| - 1], |ss[|ss| - 1]|)
    ensures TotalWeight(Assign(ss, w)) == Dot(w, Sizes(ss))
  {
    AssignLastTotal(ss, w);
    SizesDotLast(ss, w);
  }

  /** The weights handed out for all subsets are those for all but the last, plus the last's. */
  lemma AssignLastTotal(ss: seq<Subset>, w: seq<real>)
    requires |w| == |ss| > 0
    ensures TotalWeight(Assign(ss, w)) ==
      TotalWeight(Assign(ss[..|ss| - 1], w[..|w| - 1])) + TotalWeight(Tag(ss[|ss| - 1], w[|w| - 1]))
  {
    var n := |ss| - 1;
    var a, t := Assign(ss[..n], w[..n]), Tag(ss[n], w[n]);
    assert Assign(ss, w) == a + t;
    TotalWeightAppend(a, t);
  }

  /** Peeling off the last subset of a size-weighted total. */
  lemma SizesDotLast(ss: seq<Subset>, w: seq<real>)
    requires |w| == |ss| > 0
    ensures Dot(w, Sizes(ss)) ==
      Dot(w[..|w| - 1], Sizes(ss[..|ss| - 1])) + Term(w[|w| - 1], |ss[|ss| - 1]|)
  {
    var n := |ss| - 1;
    var c := Sizes(ss);
    assert c[..n] == Sizes(ss[..n]);
    DotLast(w, c);
  }

  /** Handing out normalised weights gives the j-th label of the r-th subset the share of k[r]. */
  lemma AssignNormalisedAt(ss: seq<Subset>, k: seq<real>, totalk: real, r: nat, j: nat)
    requires |k| == |ss| && totalk != 0.0
    requires r < |ss| && j < |ss[r]|
    ensures Offset(ss, r) + j < |Assign(ss, Normalised(k, totalk))|
    ensures Assign(ss, Normalised(k, totalk))[Offset(ss, r) + j] ==
      Assignment(ss[r][j], Share(totalk, k[r]))
  {
    AssignAt(ss, Normalised(k, totalk), r, j);
  }

  /** With weights that never decrease, no label receives more than the last weight. */
  lemma {:induction false} AssignBelowLast(ss: seq<Subset>, w: seq<real>)
    requires |w| == |ss| > 0
    requires NonDecreasing(w)
    ensures forall p :: 0 <= p < |Assign(ss, w)| ==> Assign(ss, w)[p].weight <= w[|w| - 1]
    decreases |ss|
  {
    var n := |ss| - 1;
    if n > 0 {
      AssignBelowLast(ss[..n], w[..n]);
      assert w[n - 1] <= w[n];
    }
  }

  /** With subset weights that never decrease, the weights handed out never decrease. */
  lemma {:induction false} AssignOrdered(ss: seq<Subset>, w: seq<real>)
    requires |w| == |ss|
    requires NonDecreasing(w)
    ensures forall p, q :: 0 <= p < q < |Assign(ss, w)| ==>
      Assign(ss, w)[p].weight <= Assign(ss, w)[q].weight
    decreases |ss|
  {
    if |ss| > 0 {
      var n := |ss| - 1;
      var a := Assign(ss[..n], w[..n]);
      AssignOrdered(ss[..n], w[..n]);
      if n > 0 {
        AssignBelowLast(ss[..n], w[..n]);
        assert forall p :: 0 <= p < |a| ==> a[p].weight <= w[n] by {
          assert w[n - 1] <= w[n];
        }
      }
    }
  }

  /** The outcome of the whole procedure. */
  datatype SimosResult =
    | Weights(assignment: seq<Assignment>)
    /** The non-normalised weights sum to zero, so they cannot be normalised. */
    | ZeroTotalK

  /** The step u between consecutive positions: (z - 1) over the number of non-white subsets, rounded. */
  function U(ranking: seq<Subset>, z: real): (u: real)
    requires HasPositions(ranking)
    ensures (u * Million).Floor as real == u * Million
    ensures -0.5 / Million <= u - (z - 1.0) / (|NonWhite(ranking)| as real) <= 0.5 / Million
  {
    Round6((z - 1.0) / (|NonWhite(ranking)| as real))
  }

  /** The non-normalised weight of each non-white subset. */
  function K(ranking: seq<Subset>, z: real): seq<real>
    requires HasPositions(ranking)
  {
    KWeights(GapVector(ranking), U(ranking, z))
  }

  /** The size-weighted total of the non-normalised weights. */
  function TotalK(ranking: seq<Subset>, z: real): real
    requires HasPositions(ranking)
  {
    Dot(K(ranking, z), Sizes(NonWhite(ranking)))
  }

  /** The whole procedure: each label of each non-white subset with its normalised weight. */
  function Weighting(ranking: seq<Subset>, z: real): (res: SimosResult)
    requires HasPositions(ranking)
    ensures res == ZeroTotalK <==> TotalK(ranking, z) == 0.0
    ensures res.Weights? ==> |res.assignment| == |Flatten(NonWhite(ranking))|
  {
    var totalk := TotalK(ranking, z);
    if totalk == 0.0 then ZeroTotalK
    else
      var w := Normalised(K(ranking, z), totalk);
      FlattenLength(NonWhite(ranking));
      AssignLength(NonWhite(ranking), w);
      Weights(Assign(NonWhite(ranking), w))
  }

  /** The white cards credited to the last gap never reach the weights. */
  lemma KUsesGaps(ranking: seq<Subset>, z: real)
    requires HasPositions(ranking)
    ensures K(ranking, z) == KWeights(Gaps(ranking), U(ranking, z))
  {
    LastGapIgnored(Gaps(ranking), GapVector(ranking), U(ranking, z));
  }

  /** A white card placed before every subset of criteria has no effect on the outcome. */
  lemma WhiteHeadIgnored(ranking: seq<Subset>, z: real)
    requires HasPositions(ranking) && IsWhite(ranking[0])
    ensures HasPositions(ranking[1..])
    ensures WellFormed(ranking) ==> WellFormed(ranking[1..])
    ensures NonWhite(ranking) == NonWhite(ranking[1..])
    ensures U(ranking, z) == U(ranking[1..], z)
    ensures K(ranking, z) == K(ranking[1..], z)
    ensures TotalK(ranking, z) == TotalK(ranking[1..], z)
    ensures Weighting(ranking, z) == Weighting(ranking[1..], z)
  {
    DropWhiteHead(ranking);
    KUsesGaps(ranking, z);
    KUsesGaps(ranking[1..], z);
    assert forall i :: 0 <= i < |ranking| - 1 ==> ranking[1..][i] == ranking[i + 1];
  }

  /** Every non-white subset of a well-formed ranking has at least one label. */
  lemma SizesPositive(ranking: seq<Subset>)
    requires WellFormed(ranking)
    ensures forall r :: 0 <= r < |NonWhite(ranking)| ==> Sizes(NonWhite(ranking))[r] >= 1
  {
    IndicesPointAtNonWhite(ranking);
  }

  /** A ratio z of at least 1 gives a non-negative step. */
  lemma UNonNegative(ranking: seq<Subset>, z: real)
    requires HasPositions(ranking)
    requires z >= 1.0
    ensures U(ranking, z) >= 0.0
  {
    var p := |NonWhite(ranking)| as real;
    var x := (z - 1.0) / p;
    assert x * p == z - 1.0;
    assert x >= 0.0;
  }

  /** A non-negative step gives non-normalised weights of at least 1 that never decrease. */
  lemma KOrdered(ranking: seq<Subset>, z: real)
    requires HasPositions(ranking)
    requires U(ranking, z) >= 0.0
    ensures NonDecreasing(K(ranking, z))
    ensures forall i :: 0 <= i < |K(ranking, z)| ==> K(ranking, z)[i] >= 1.0
    ensures U(ranking, z) > 0.0 ==> StrictlyIncreasing(K(ranking, z))
  {
    KUsesGaps(ranking, z);
    GapsPositive(ranking);
    KWeightsOrder(Gaps(ranking), U(ranking, z));
  }

  /** A non-negative step gives a total of non-normalised weights at least the number of labels. */
  lemma TotalKPositive(ranking: seq<Subset>, z: real)
    requires WellFormed(ranking) && HasPositions(ranking)
    requires U(ranking, z) >= 0.0
    ensures TotalK(ranking, z) >= |Flatten(NonWhite(ranking))| as real >= 1.0
  {
    var c := Sizes(NonWhite(ranking));
    KOrdered(ranking, z);
    DotAtLeastSum(K(ranking, z), c);
    SizesPositive(ranking);
    SumAtLeastLength(c);
    FlattenLength(NonWhite(ranking));
  }

  /** The step is positive exactly when (z - 1) over the number of non-white subsets exceeds half a millionth. */
  lemma UPositive(ranking: seq<Subset>, z: real)
    requires HasPositions(ranking)
    ensures U(ranking, z) > 0.0 <==>
      (z - 1.0) / (|NonWhite(ranking)| as real) > 0.5 / Million
  {
  }

  /** Whenever the procedure yields weights, they add up to exactly 100. */
  lemma WeightingSumsTo100(ranking: seq<Subset>, z: real)
    requires HasPositions(ranking)
    requires Weighting(ranking, z).Weights?
    ensures TotalWeight(Weighting(ranking, z).assignment) == 100.0
  {
    var totalk := TotalK(ranking, z);
    var w := Normalised(K(ranking, z), totalk);
    AssignTotal(NonWhite(ranking), w);
    NormalisedTotal(K(ranking, z), Sizes(NonWhite(ranking)), totalk);
  }

  /** The criteria weighted are exactly the labels of the non-white subsets, in ranking order. */
  lemma WeightingLabels(ranking: seq<Subset>, z: real)
    requires HasPositions(ranking)
    requires Weighting(ranking, z).Weights?
    ensures Labels(Weighting(ranking, z).assignment) == Flatten(NonWhite(ranking))
  {
    AssignLabels(NonWhite(ranking), Normalised(K(ranking, z), TotalK(ranking, z)));
  }

  /**
   * The j-th label of the r-th non-white subset receives 100 * (1 + u * p) / totalk,
   * where p is how far the subset stands above the first non-white subset, white
   * cards included.
   */
  lemma WeightingClosedForm(ranking: seq<Subset>, z: real, r: nat, j: nat)
    requires HasPositions(ranking)
    requires Weighting(ranking, z).Weights?
    requires r < |NonWhite(ranking)| && j < |NonWhite(ranking)[r]|
    ensures NonWhiteIndices(ranking)[r] >= LeadingWhites(ranking)
    ensures Offset(NonWhite(ranking), r) + j < |Weighting(ranking, z).assignment|
    ensures Weighting(ranking, z).assignment[Offset(NonWhite(ranking), r) + j] ==
      Assignment(NonWhite(ranking)[r][j],
        Share(TotalK(ranking, z),
          Level(U(ranking, z), NonWhiteIndices(ranking)[r] - LeadingWhites(ranking))))
  {
    WeightingAt(ranking, z, r, j);
    KAtPosition(ranking, z, r);
  }

  /** The j-th label of the r-th non-white subset receives the r-th normalised weight. */
  lemma WeightingAt(ranking: seq<Subset>, z: real, r: nat, j: nat)
    requires HasPositions(ranking)
    requires Weighting(ranking, z).Weights?
    requires r < |NonWhite(ranking)| && j < |NonWhite(ranking)[r]|
    ensures Offset(NonWhite(ranking), r) + j < |Weighting(ranking, z).assignment|
    ensures Weighting(ranking, z).assignment[Offset(NonWhite(ranking), r) + j] ==
      Assignment(NonWhite(ranking)[r][j], Share(TotalK(ranking, z), K(ranking, z)[r]))
  {
    AssignNormalisedAt(NonWhite(ranking), K(ranking, z), TotalK(ranking, z), r, j);
  }

  /**
   * The r-th non-white subset's non-normalised weight is the level of its position
   * counted from the first non-white subset.
   */
  lemma {:induction false} KAtPosition(ranking: seq<Subset>, z: real, r: nat)
    requires HasPositions(ranking)
    requires r < |NonWhite(ranking)|
    ensures NonWhiteIndices(ranking)[r] >= LeadingWhites(ranking)
    ensures K(ranking, z)[r] ==
      Level(U(ranking, z), NonWhiteIndices(ranking)[r] - LeadingWhites(ranking))
    decreases |ranking|
  {
    if IsWhite(ranking[0]) {
      WhiteHeadIgnored(ranking, z);
      DropWhiteHeadIndices(ranking);
      DropWhiteHeadLeading(ranking);
      KAtPosition(ranking[1..], z, r);
    } else {
      LeadingNone(ranking);
      KUsesGaps(ranking, z);
      KWeightsAtPosition(ranking, U(ranking, z), r);
    }
  }

  /**
   * With a non-negative step (z of at least 1 suffices) the procedure always yields
   * weights, and a label placed later in the ranking never receives a smaller weight
   * than one placed earlier.
   */
  lemma WeightingOrdered(ranking: seq<Subset>, z: real)
    requires WellFormed(ranking) && HasPositions(ranking)
    requires U(ranking, z) >= 0.0
    ensures Weighting(ranking, z).Weights?
    ensures forall p, q :: 0 <= p < q < |Weighting(ranking, z).assignment| ==>
      Weighting(ranking, z).assignment[p].weight <= Weighting(ranking, z).assignment[q].weight
  {
    TotalKPositive(ranking, z);
    KOrdered(ranking, z);
    NormalisedOrder(K(ranking, z), TotalK(ranking, z));
    AssignOrdered(NonWhite(ranking), Normalised(K(ranking, z), TotalK(ranking, z)));
  }

  /** With a positive step, every label of a later non-white subset outweighs every label of an earlier one. */
  lemma WeightingStrict(ranking: seq<Subset>, z: real, r1: nat, j1: nat, r2: nat, j2: nat)
    requires WellFormed(ranking) && HasPositions(ranking)
    requires U(ranking, z) > 0.0
    requires r1 < r2 < |NonWhite(ranking)|
    requires j1 < |NonWhite(ranking)[r1]| && j2 < |NonWhite(ranking)[r2]|
    ensures Weighting(ranking, z).Weights?
    ensures Offset(NonWhite(ranking), r1) + j1 < Offset(NonWhite(ranking), r2) + j2 <
      |Weighting(ranking, z).assignment|
    ensures Weighting(ranking, z).assignment[Offset(NonWhite(ranking), r1) + j1].weight <
      Weighting(ranking, z).assignment[Offset(NonWhite(ranking), r2) + j2].weight
  {
    TotalKPositive(ranking, z);
    KOrdered(ranking, z);
    WeightingAt(ranking, z, r1, j1);
    WeightingAt(ranking, z, r2, j2);
    OffsetBefore(NonWhite(ranking), r1, j1, r2);
    ShareMonotone(TotalK(ranking, z), K(ranking, z)[r1], K(ranking, z)[r2]);
  }

  /** A label of an earlier subset is placed before every label of a later subset. */
  lemma OffsetBefore(ss: seq<Subset>, r1: nat, j1: nat, r2: nat)
    requires r1 < r2 <= |ss|
    requires j1 < |ss[r1]|
    ensures Offset(ss, r1) + j1 < Offset(ss, r2)
  {
    assert ss[..r2] == ss[..r1 + 1] + ss[r1 + 1..r2];
    assert ss[..r1 + 1] == ss[..r1] + [ss[r1]];
    assert Sizes(ss[..r1 + 1]) == Sizes(ss[..r1]) + [|ss[r1]|];
    assert Sizes(ss[..r2]) == Sizes(ss[..r1 + 1]) + Sizes(ss[r1 + 1..r2]);
    SumAppend(Sizes(ss[..r1 + 1]), Sizes(ss[r1 + 1..r2]));
  }
}
