/**
 * The Revised Simos procedure as the script runs it: one loop per stage over the
 * card ranking, with arrays for the vectors e, k and the normalised weights. Each
 * method is proved against the functions of Cards and Weights.
 */
module RevisedSimos {
  import opened Sums
  import opened Cards
  import opened Weights

  /**
   * Counts the criterion cards, the positions (non-white subsets) and the size of
   * each non-white subset, skipping white cards.
   */
  method CountCards(subsets: seq<Subset>) returns (noOfCards: nat, positions: nat, c: seq<nat>)
    requires WellFormed(subsets)
    ensures c == Sizes(NonWhite(subsets))
    ensures positions == |NonWhite(subsets)|
    ensures noOfCards == Sum(c) == |Flatten(NonWhite(subsets))|
  {
    noOfCards, positions, c := 0, 0, [];
    for i := 0 to |subsets|
      invariant c == Sizes(NonWhite(subsets[..i]))
      invariant positions == |c|
      invariant noOfCards == Sum(c)
    {
      assert subsets[..i + 1][..i] == subsets[..i];
      if !IsWhite(subsets[i]) {
        noOfCards := noOfCards + |subsets[i]|;
        positions := positions + 1;
        assert (c + [|subsets[i]|])[..|c|] == c;
        c := c + [|subsets[i]|];
      }
    }
    assert subsets[..|subsets|] == subsets;
    FlattenLength(NonWhite(subsets));
  }

  /**
   * Builds the gap vector e: every entry starts at 1, and each white card raises
   * the entry of the latest non-white subset. Before the first non-white subset the
   * counter is -1, which indexes the last entry.
   */
  method BuildGapVector(subsets: seq<Subset>, positions: nat) returns (e: array<nat>)
    requires WellFormed(subsets)
    requires positions == |NonWhite(subsets)| >= 1
    ensures e.Length == positions
    ensures e[..] == GapVector(subsets)
  {
    e := new nat[positions](_ => 1);
    GapVectorSoFarStart(positions);
    var counter: int := -1;
    for i := 0 to |subsets|
      invariant counter + 1 == |NonWhite(subsets[..i])| <= positions
      invariant e[..] == GapVectorSoFar(subsets[..i], positions)
    {
      NonWhitePrefix(subsets, i + 1);
      GapVectorSoFarStep(subsets, i, positions);
      if !IsWhite(subsets[i]) {
        counter := counter + 1;
      } else {
        var at := if counter == -1 then positions - 1 else counter;
        e[at] := e[at] + 1;
      }
    }
    assert subsets[..|subsets|] == subsets;
  }

  /**
   * The non-normalised weights: k[0] is 1, k[i] is the level 1 + u times the sum of
   * the gaps before i, and totalk accumulates k[i] * c[i].
   */
  method NonNormalisedWeights(e: array<nat>, c: seq<nat>, u: real) returns (k: array<real>, totalk: real)
    requires e.Length == |c| >= 1
    ensures k.Length == e.Length
    ensures k[..] == KWeights(e[..], u)
    ensures totalk == Dot(k[..], c)
  {
    k := new real[e.Length](_ => 1.0);
    assert e[..0] == [];
    DotPrefixStep(k[..], c, 0);
    totalk := Term(k[0], c[0]);
    for i := 1 to e.Length
      invariant forall j :: 0 <= j < i ==> k[j] == Level(u, Sum(e[..j]))
      invariant totalk == Dot(k[..][..i], c[..i])
    {
      k[i] := Level(u, Sum(e[..i]));
      DotPrefixStep(k[..], c, i);
      totalk := totalk + Term(k[i], c[i]);
    }
    assert k[..] == k[..][..e.Length] && c == c[..e.Length];
    assert forall j :: 0 <= j < e.Length ==> e[..j] == e[..][..j];
  }

  /** Scales the weights so that 100 is shared out in proportion to k. */
  method Normalise(k: array<real>, totalk: real) returns (w: array<real>)
    requires totalk != 0.0
    ensures w.Length == k.Length
    ensures w[..] == Normalised(k[..], totalk)
  {
    w := new real[k.Length](_ => 0.0);
    for i := 0 to k.Length
      invariant forall j :: 0 <= j < i ==> w[j] == Share(totalk, k[j])
    {
      w[i] := (100.0 / totalk) * k[i];
    }
  }

  /**
   * Walks the ranking again and, for each label of each non-white subset, records
   * the label with the normalised weight of its subset; white cards are skipped.
   */
  method AssignWeights(subsets: seq<Subset>, w: array<real>) returns (out: seq<Assignment>)
    requires WellFormed(subsets)
    requires w.Length == |NonWhite(subsets)|
    ensures out == Assign(NonWhite(subsets), w[..])
  {
    out := [];
    var counter: int := -1;
    for i := 0 to |subsets|
      invariant counter + 1 == |NonWhite(subsets[..i])| <= w.Length
      invariant out == Assign(NonWhite(subsets[..i]), w[..counter + 1])
    {
      assert subsets[..i + 1][..i] == subsets[..i];
      NonWhitePrefix(subsets, i + 1);
      if !IsWhite(subsets[i]) {
        counter := counter + 1;
      } else {
        continue;
      }
      var labels := subsets[i];
      ghost var before := out;
      for j := 0 to |labels|
        invariant out == before + Tag(labels[..j], w[counter])
      {
        assert Tag(labels[..j + 1], w[counter]) == Tag(labels[..j], w[counter]) + [Assignment(labels[j], w[counter])];
        out := out + [Assignment(labels[j], w[counter])];
      }
      assert labels[..|labels|] == labels;
      assert w[..counter + 1][..counter] == w[..counter];
    }
    assert subsets[..|subsets|] == subsets;
    assert w[..counter + 1] == w[..];
  }

  /**
   * The whole procedure on a ranking of subsets and the ratio z between the most and
   * the least important criterion.
   */
  method Run(subsets: seq<Subset>, z: real) returns (res: SimosResult)
    requires WellFormed(subsets)
    requires HasPositions(subsets)
    ensures res == Weighting(subsets, z)
  {
    var noOfCards, positions, c := CountCards(subsets);
    var u := Round6((z - 1.0) / (positions as real));
    var e := BuildGapVector(subsets, positions);
    var k, totalk := NonNormalisedWeights(e, c, u);
    if totalk == 0.0 {
      return ZeroTotalK;
    }
    var w := Normalise(k, totalk);
    var out := AssignWeights(subsets, w);
    res := Weights(out);
  }
}
