# Revised Simos card procedure

This project models the Revised Simos procedure for deriving criterion weights in
multi-criteria decision analysis. A decision maker ranks the criteria with cards:

- the ranking is a list of subsets of criterion labels, from least to most important;
- criteria in the same subset are equally important;
- a white (blank) card is a subset whose first label is `"w"`, and it stands for one extra unit of distance between its neighbours;
- a ratio `z` says how many times more important the top criterion is than the bottom one.

The script works in five stages. The model has one loop-based method per loop of the script (`CountCards`, `BuildGapVector`, `NonNormalisedWeights`, `Normalise`, `AssignWeights`), and a `Run` method that computes `u` and chains them:

1. It counts the cards, the positions (non-white subsets) and the size `c[r]` of each position.
2. It takes the step `u`: `(z - 1) / positions` rounded to six decimals.
3. It builds the gap vector `e`. Every entry starts at 1, and each white card raises the entry of the latest non-white subset.
4. It computes the non-normalised weights: `k[i] = 1 + u * (e[0] + ... + e[i-1])`, and `totalk = sum of k[i] * c[i]`.
5. It rescales each `k[i]` by `100 / totalk`. Every label of the r-th non-white subset receives the r-th of these weights.

Each method is proved against pure functions (`Cards.GapVector`, `Weights.KWeights`,
`Weights.Normalised`, `Weights.Assign`, `Weights.Weighting`), and lemmas state what the script
promises about those functions.

The modules are:

- `Sums`: sums and weighted totals.
- `Cards`: the ranking, white cards and gaps.
- `Weights`: the step, the weights, normalisation and assignment.
- `RevisedSimos`: the methods that follow the script's loops.

Two things follow the code rather than the textbook:

- The step divides by the number of positions (`codes/Appendix/RevisedSimos.py:25`), not by the total number of gap units. So the top weight is not in general `z` times the bottom one, and nothing here claims it is.
- The code handles a ranking that opens with white cards (explained next), so the model covers that case rather than excluding it.

**White cards that open the ranking.** While no non-white subset has been read, the
counter is -1, and index -1 refers to the last entry of `e`. `Cards.GapVector` models
this literally: the leading white cards are added to the last entry. That entry never
enters `k` (`Weights.LastGapIgnored`), so those cards have no effect on the weights
(`Weights.WhiteHeadIgnored`).

**Weights sum to 100.** The weights handed out add up to exactly 100
(`Weights.WeightingSumsTo100`), not to 1. This is the procedure's own scale.

## Model

| member | source | states |
|---|---|---|
| RevisedSimos.CountCards | codes/Appendix/RevisedSimos.py:15-22 | positions is the number of subsets whose first label is not "w"; c lists exactly those subsets' sizes in ranking order; noOfcards is the sum of c and the number of labels in non-white subsets |
| Cards.NonWhiteInOrder | codes/Appendix/RevisedSimos.py:18-22 | the r-th entry of c is the size of the r-th non-white subset, which is the subset at the r-th listed index of the ranking, so c keeps the ranking's order |
| Weights.RoundHalfEven | codes/Appendix/RevisedSimos.py:25 | the result is within one half of its argument, and an exact half goes to the even neighbour |
| Weights.Round6 | codes/Appendix/RevisedSimos.py:25 | the result has at most six decimals (a whole number of millionths) and is at most half a millionth from its argument; at an exact half it is the even number of millionths; it keeps non-negative values non-negative and is positive exactly when its argument exceeds half a millionth |
| Weights.U | codes/Appendix/RevisedSimos.py:25 | the step u is a whole number of millionths within half a millionth of (z - 1) / positions |
| Weights.UNonNegative | codes/Appendix/RevisedSimos.py:25 | a ratio z of at least 1 gives a step u of at least 0 |
| Weights.UPositive | codes/Appendix/RevisedSimos.py:25 | u is positive exactly when (z - 1) / positions exceeds half a millionth |
| RevisedSimos.BuildGapVector | codes/Appendix/RevisedSimos.py:28-34 | the array built has one entry per position and equals the gap vector of the ranking, the leading white cards counted on the last entry as index -1 does |
| Cards.GapVectorSoFarStep | codes/Appendix/RevisedSimos.py:30-34 | reading a non-white subset moves the counter on and changes no entry; a white card raises the entry of the latest non-white subset, or the last entry while the counter is -1 |
| Cards.StartsNonWhiteGapVector | codes/Appendix/RevisedSimos.py:28-34 | when the ranking opens with a non-white subset, the gap vector is the plain one with no wrap-around |
| Cards.GapsPositive | codes/Appendix/RevisedSimos.py:28-34 | for a ranking opening with a non-white subset, where e is the plain gap vector, every entry of e is at least 1 |
| Cards.GapVectorPositive | codes/Appendix/RevisedSimos.py:28-34 | for any ranking, leading white cards included, every entry of the e built at lines 28-34 is at least 1 |
| Cards.GapsAt | codes/Appendix/RevisedSimos.py:28-34 | for a ranking opening with a non-white subset, e[r] is the distance in the ranking from the r-th non-white subset to the next one, or to the end |
| Cards.GapCountsWhites | codes/Appendix/RevisedSimos.py:28-34 | for a ranking opening with a non-white subset, e[r] - 1 is the number of white cards between the r-th non-white subset and the next one, or the end |
| Cards.GapsSum | codes/Appendix/RevisedSimos.py:28-34 | for a ranking opening with a non-white subset, the entries of e add up to positions plus the number of white cards, which is the length of the ranking |
| Cards.GapsPrefixSum | codes/Appendix/RevisedSimos.py:28-34 | for a ranking opening with a non-white subset, the gaps before the r-th non-white subset add up to its index in the ranking |
| RevisedSimos.NonNormalisedWeights | codes/Appendix/RevisedSimos.py:37-41 | k[0] is 1, k[i] is 1 + u times the sum of e[0..i), and totalk is the sum of k[i] * c[i] |
| Weights.KWeightsStep | codes/Appendix/RevisedSimos.py:37-40 | the first weight is 1 and each later weight adds u times the preceding gap |
| Weights.LastGapIgnored | codes/Appendix/RevisedSimos.py:39-40 | gap vectors that differ only in their last entry give the same weights, so trailing white cards never affect k |
| Weights.KUsesGaps | codes/Appendix/RevisedSimos.py:28-40 | the weights computed from the gap vector, wrap-around included, are those of the plain gaps |
| Weights.KWeightsDiff | codes/Appendix/RevisedSimos.py:40 | k[j] - k[i] is u times the sum of the gaps from i up to j |
| Weights.KWeightsOrder | codes/Appendix/RevisedSimos.py:40 | with gaps of at least 1, u >= 0 gives weights of at least 1 that never decrease, and u > 0 gives strictly increasing weights |
| Weights.KWeightsAtPosition | codes/Appendix/RevisedSimos.py:37-40 | for a ranking that opens with a non-white subset, k[r] is 1 + u times the index of the r-th non-white subset in the ranking |
| Weights.KOrdered | codes/Appendix/RevisedSimos.py:25-40 | for a ranking with u >= 0, k never decreases and is at least 1; for u > 0 it is strictly increasing |
| Weights.KAtPosition | codes/Appendix/RevisedSimos.py:28-40 | for any ranking, k[r] is 1 + u times the distance in the ranking from the first non-white subset to the r-th one |
| Weights.TotalKPositive | codes/Appendix/RevisedSimos.py:38-41 | with u >= 0, totalk is at least the number of criteria and so at least 1 |
| RevisedSimos.Normalise | codes/Appendix/RevisedSimos.py:44-46 | normalizedWeights has one entry per position, the i-th being 100 / totalk times k[i] |
| Weights.NormalisedTotal | codes/Appendix/RevisedSimos.py:44-46 | when totalk is the sum of k[i] * c[i], the sum of normalizedWeights[i] * c[i] is exactly 100 |
| Weights.NormalisedOrder | codes/Appendix/RevisedSimos.py:44-46 | a positive totalk keeps the weights non-decreasing, or strictly increasing, after normalisation |
| Weights.ShareMonotone | codes/Appendix/RevisedSimos.py:46 | with a positive totalk, a larger k[i] earns a larger normalised weight |
| RevisedSimos.AssignWeights | codes/Appendix/RevisedSimos.py:49-57 | the label and weight pairs reported are, in order, each label of the r-th non-white subset with normalizedWeights[r]; white cards are skipped |
| Weights.AssignLength | codes/Appendix/RevisedSimos.py:49-57 | one pair is reported per label of a non-white subset |
| Weights.AssignAt | codes/Appendix/RevisedSimos.py:49-57 | the j-th label of the r-th subset is reported, with the r-th weight, at the subset's offset plus j |
| Weights.AssignLabels | codes/Appendix/RevisedSimos.py:49-57 | the labels reported are exactly the labels of the subsets, in order |
| Weights.AssignTotal | codes/Appendix/RevisedSimos.py:49-57 | the weights reported add up to the size-weighted total of the subset weights |
| Weights.AssignOrdered | codes/Appendix/RevisedSimos.py:49-57 | non-decreasing subset weights give reported weights that never decrease |
| Weights.OffsetBefore | codes/Appendix/RevisedSimos.py:49-57 | every label of an earlier subset is reported before every label of a later one |
| Weights.WeightingAt | codes/Appendix/RevisedSimos.py:44-57 | all labels of the r-th non-white subset receive the same weight, 100 / totalk times k[r] |
| Weights.WeightingLabels | codes/Appendix/RevisedSimos.py:49-57 | the criteria weighted are exactly the labels of the non-white subsets in ranking order, so white cards receive no weight |
| Weights.WeightingSumsTo100 | codes/Appendix/RevisedSimos.py:44-57 | whenever weights are produced, the per-criterion weights sum to exactly 100 |
| Weights.WeightingOrdered | codes/Appendix/RevisedSimos.py:37-57 | with u >= 0 weights are always produced, and a label reported later never receives a smaller weight than one reported earlier |
| Weights.WeightingStrict | codes/Appendix/RevisedSimos.py:37-57 | with u > 0, every label of a later non-white subset receives strictly more than every label of an earlier one |
| Weights.WeightingClosedForm | codes/Appendix/RevisedSimos.py:25-57 | the j-th label of the r-th non-white subset receives 100 / totalk times (1 + u times its distance from the first non-white subset, white cards included) |
| Weights.WhiteHeadIgnored | codes/Appendix/RevisedSimos.py:25-57 | dropping a white card that comes before every non-white subset changes neither u, nor k, nor totalk, nor the weights reported |
| Weights.Weighting | codes/Appendix/RevisedSimos.py:15-57 | the procedure reports no weights exactly when totalk is 0, and otherwise reports one weight per label of the non-white subsets |
| RevisedSimos.Run | codes/Appendix/RevisedSimos.py:15-57 | the whole script on a well-formed ranking with at least one position returns exactly the weighting that the functions define |

## Left out

- Printing (lines 56-57) is replaced by a returned sequence of label and weight pairs, in print order.
- The numpy object array of subsets (lines 8-9) becomes a sequence of sequences of strings, and `ones`/`zeros` become array initialisers. The example ranking and `z = 6.5` are inputs rather than constants.
- Floating point is replaced by exact reals. `round(x, 6)` is modelled as exact round-half-to-even at six decimals. Python rounds the binary double, so results can differ at an exact decimal half.
- The entries of `e` are naturals here; numpy keeps them as floats with the same integer values.
- An empty subset makes the script fail when it reads the subset's first label. The methods therefore require a well-formed ranking (`Cards.WellFormed`).
- A ranking with no non-white subset makes the script divide by zero at line 25. `Run`, `Weights.U` and the functions built on it therefore require at least one position (`Cards.HasPositions`).
- When totalk is 0 (possible only with a negative step), numpy would produce infinities or NaN. The model reports `ZeroTotalK`, and `RevisedSimos.Normalise` requires a non-zero totalk.
- `noOfcards` is computed and checked, but the script never uses it afterwards.
- The other decision-analysis scripts of the repository (TOPSIS, VIKOR, PROMETHEE, AHP and the linear-programming examples) are not part of this model.
