# Multiple sequence alignment by memoized dynamic programming

This project models the `mdp` package of a multiple sequence alignment engine and proves properties of the model in Dafny. The package takes k nucleotide strings and returns the optimal sum-of-pairs score of aligning them.

The engine works over a k-dimensional lattice of prefix lengths. A coordinate `(i1, …, ik)` stands for the first `i1` bases of sequence 1, the first `i2` of sequence 2, and so on. The optimum at a coordinate is computed by trying every *column mask*. A mask is a non-zero 0/1 vector: bit i set means sequence i puts its base at position c[i] (1-based) in the last column, and a clear bit means it puts a gap there. Each mask's candidate is the optimum at the coordinate minus the mask, plus the mask's column score. The column score is the sum of the pair scores over every pair of entries in the column: match 6, mismatch -4, a base against a gap -3, and two gaps 0. These are the source's constants, doubled so that all arithmetic stays on integers. Results are memoized in a score grid, alongside a grid of "already computed" flags.

The modules follow the five parts of the source file:

- `Bases` (bases.dfy): the `Base` enumeration and the conversion of characters and strings to bases.
- `Masks` (masks.dfy): the source's recursive construction of the mask list. It is proved equal to an independent specification, `ColumnMasks(k)`: all 2^k - 1 non-zero k-bit vectors in descending binary order.
- `Scoring` (scoring.dfy): the pair score and the row-by-row column score. A closed form in the counts of each base gives permutation invariance.
- `Lattice` (lattice.dfy): coordinates, the grid shape, stepping back by a mask, and the termination measure.
- `Recurrence` (recurrence.dfy): `Optimal`, the pure recursive specification of the score.
- `Solver` (solver.dfy): the alignment context as a class. It holds two fields:
  - `table`, the score grid, as a map that reads 0 where it was never written;
  - `cached`, the computed-flag grid, as a map that reads false where it was never written.

  The memoized `OptimalScore` method is proved to return `Optimal` and to keep every cached cell equal to it.
- `Scenarios` (scenarios.dfy): worked scores for small inputs of two and three sequences, derived from the recurrence.

Two behaviours of the code are modelled as written:

- **Clamp at zero.** The running best is the named result `best`, which starts at its zero value (mdp.go:94) and only ever grows through `max` (mdp.go:125). So no score is negative, although a single column can score below zero. `Scenarios.ClampedAtZero` exhibits this.
- **Base case.** The base case returns 0 as soon as any one index reaches 0. The remaining bases of the other sequences are never charged gaps. `Scenarios.BaseCaseShortCircuit` exhibits this.

## Model

| member | source | states |
|---|---|---|
| Bases.ConvertBase | msa/mdp/mdp.go:266-279 | 'A', 'C', 'G' and 'T' map to their base; every other character maps to the gap; a base's letter maps back to that base |
| Bases.ConvertSequence | msa/mdp/mdp.go:258-264 | builds a sequence with one base per character, in order, each converted by `ConvertBase` |
| Masks.ColumnMasksCharacterized | msa/mdp/mdp.go:51-65 | every mask has length k, takes values 0/1 and has at least one 1; mask j has binary value 2^k - 1 - j, so the list is strictly descending with no repeats; every non-zero k-bit vector occurs in it |
| Masks.ColumnMaskAt | msa/mdp/mdp.go:51-65 | mask j has length k, is a genuine mask and has binary value 2^k - 1 - j |
| Masks.MaskIsListed | msa/mdp/mdp.go:51-65 | every 0/1 vector of length k with some 1 occurs among the masks |
| Masks.ColumnMasksEnds | msa/mdp/mdp.go:55-62 | for k >= 1 the first mask is all ones and the last is 0…01; for k = 1 the list is exactly [[1]] |
| Masks.Expand | msa/mdp/mdp.go:243-248 | the list doubles: two vectors out for every vector in |
| Masks.ExpandAt | msa/mdp/mdp.go:243-248 | vector j of the result is vector j / 2 of the input extended by x when j is even and by x - 1 when j is odd |
| Masks.SubsetHelper | msa/mdp/mdp.go:238-250 | the construction for prefix i yields 2^(i+1) vectors |
| Masks.SubsetHelperLengths | msa/mdp/mdp.go:238-250 | every vector of the construction for prefix i has length i + 1 |
| Masks.SubsetHelperEntries | msa/mdp/mdp.go:238-250 | entry t of every constructed vector is idxs[t] or idxs[t] - 1 |
| Masks.SubsetHelperOfOnes | msa/mdp/mdp.go:238-250 | over a vector of ones, vector j of the construction is the (i+1)-bit binary number 2^(i+1) - 1 - j |
| Masks.DecrementedIndices | msa/mdp/mdp.go:206-211 | the result has the same length as the input, with each entry lowered by one |
| Masks.ArraysMatch | msa/mdp/mdp.go:228-236 | the agreement count equals the length of s1 exactly when s1 equals the prefix of s2 of the same length |
| Masks.Keep | msa/mdp/mdp.go:218-226 | no more vectors are kept than the input has |
| Masks.KeepMembers | msa/mdp/mdp.go:218-226 | a vector is kept exactly when it occurs in the input and does not match the given vector |
| Masks.PurgeAllGapCase | msa/mdp/mdp.go:218-226 | keeps, in their order, exactly the subsets that do not match idxs lowered by one |
| Masks.OnesPurged | msa/mdp/mdp.go:63-64 | purging the all-zero vector from the construction over ones leaves exactly the column masks |
| Masks.FindSubsets | msa/mdp/mdp.go:213-216 | returns the construction without its vectors matching idxs - 1; over ones this is exactly `ColumnMasks` |
| Masks.GenerateSubsetMasks | msa/mdp/mdp.go:66-72 | the masks for k sequences are exactly `ColumnMasks(k)` |
| Scoring.PairScore | msa/mdp/mdp.go:145-157 | two gaps score 0, one gap scores Gap, two distinct bases score Mismatch, two equal bases score Match |
| Scoring.PairScoreSymmetric | msa/mdp/mdp.go:145-157 | the pair score does not depend on the order of its arguments |
| Scoring.RowSum | msa/mdp/mdp.go:137-139 | the inner loop sums the pair score of x against every entry of the rest of the column |
| Scoring.Score | msa/mdp/mdp.go:135-142 | for a non-empty column, the nested loops return the sum of PairScore(b[i], b[j]) over all i < j |
| Scoring.ColumnScoreClosed | msa/mdp/mdp.go:134-142 | the sum over all pairs equals a closed form in the number of each base and of gaps |
| Scoring.ColumnScorePermutation | msa/mdp/mdp.go:134-142 | reordering a column's entries does not change its score |
| Scoring.ColumnScoreNoPairs | msa/mdp/mdp.go:134-142 | a column with one entry, or with only gaps, scores 0 |
| Scoring.ColumnScoreUniform | msa/mdp/mdp.go:134-142 | n copies of one base score Match for each of the n(n-1)/2 pairs |
| Lattice.Sizes | msa/mdp/mdp.go:168-173 | one entry per sequence: its length plus one |
| Lattice.GridIsLattice | msa/mdp/mdp.go:45-46 | a coordinate lies in the grid of shape `sizes` exactly when it has one non-negative index per sequence, none past that sequence's length |
| Lattice.MaskedIdxs | msa/mdp/mdp.go:175-184 | ok is false exactly when some index minus its mask bit is negative. When ok holds, the result is the componentwise difference. Otherwise it is the prefix of differences before the first negative one. ok always holds for all-positive indices and a 0/1 mask |
| Lattice.WeightDrops | msa/mdp/mdp.go:107-116 | stepping back by a mask that fits strictly lowers the sum of the positive indices, so the recursion terminates |
| Recurrence.Max | msa/mdp/mdp.go:281-289 | the result is the larger of the two arguments and equals one of them |
| Recurrence.Optimal | msa/mdp/mdp.go:94-126 | the optimum is never negative, and is 0 when some index is 0 or below |
| Recurrence.BestOverNext | msa/mdp/mdp.go:107-126 | a fitting mask raises the running best to its candidate exactly when the candidate is larger |
| Recurrence.BestOverIsMax | msa/mdp/mdp.go:107-126 | the running best over the first n masks is at least every fitting candidate and, unless it is the initial 0, equals one of them |
| Recurrence.OptimalRecurrence | msa/mdp/mdp.go:94-126 | at an all-positive coordinate every mask fits; the optimum equals either 0 or some candidate, and is at least every candidate |
| Recurrence.OneSequenceScoresZero | msa/mdp/mdp.go:134-142 | with one sequence every column has a single entry, so the optimum is 0 everywhere |
| Solver.MultiDP.constructor | msa/mdp/mdp.go:42-49 | the new context holds the sequences, the grid shape from `sizes` and the column masks; both grids are empty and the context is valid |
| Solver.MultiDP.MaskedBases | msa/mdp/mdp.go:186-197 | entry i of the column is sequence i's base at 1-based position idxs[i] when mask[i] is 1, and the gap otherwise |
| Solver.MultiDP.MaxIndices | msa/mdp/mdp.go:199-204 | the terminal coordinate has one entry per sequence, equal to that sequence's length |
| Solver.MultiDP.OptimalScore | msa/mdp/mdp.go:94-132 | returns `Optimal` at idxs and keeps the grids valid. An all-positive coordinate is cached afterwards with its score; a base-case or already-cached call changes neither grid; no cached cell ever changes |
| Solver.MultiDP.TryMask | msa/mdp/mdp.go:107-126 | one pass of the mask loop advances the running best from the first j masks to the first j + 1, keeps the grids valid and never changes a cached cell |
| Solver.MultiDP.Store | msa/mdp/mdp.go:127-129 | writes the score and then the flag at idxs, changes nothing else, and keeps every cached cell equal to its optimum |
| Solver.MultiDP.Solve | msa/mdp/mdp.go:84-90 | returns the optimum at the terminal coordinate (the doubled score) |
| Solver.AlignmentScore | msa/mdp/mdp.go:74-90 | the doubled score of a list of strings is never negative |
| Solver.Solve | msa/mdp/mdp.go:74-82 | converts every string, builds a fresh context and returns the doubled optimal score of the strings |
| Scenarios.TwoMasks | msa/mdp/mdp.go:51-65 | for two sequences the masks are [1 1], [1 0], [0 1] |
| Scenarios.PairColumn | msa/mdp/mdp.go:135-142 | a two-entry column scores the pair score of its entries |
| Scenarios.TwoSequenceValue | msa/mdp/mdp.go:107-126 | for two sequences, the optimum is the best of 0, diagonal plus the pair of bases, and each neighbour plus a base against a gap |
| Scenarios.SelfMatch | msa/mdp/mdp.go:74-90 | "AC" against "AC" has doubled score 12 |
| Scenarios.MismatchPreferredOverGaps | msa/mdp/mdp.go:74-90 | "AG" against "AC" has doubled score 2: a match and a mismatch beat gaps |
| Scenarios.ClampedAtZero | msa/mdp/mdp.go:124-125 | "A" against "C" has score 0, though every alignment of them scores below zero |
| Scenarios.BaseCaseShortCircuit | msa/mdp/mdp.go:96-100 | "AA" against "A" has doubled score 6: the unaligned 'A' is never charged a gap |
| Scenarios.ThreeColumn | msa/mdp/mdp.go:135-142 | a three-entry column scores the sum of its three pair scores |
| Scenarios.OnlyAUpper | msa/mdp/mdp.go:94-126 | over three sequences of 'A's, the optimum at c is at most 3 * Match per base of the first sequence |
| Scenarios.OnlyADiagonal | msa/mdp/mdp.go:94-126 | over three sequences of 'A's, the optimum at (n, n, n) is at least 3 * Match * n, reached by the all-ones mask |
| Scenarios.ThreeIdentical | msa/mdp/mdp.go:74-90 | three copies of "AAA" have doubled score 54 (27.0): three columns of three matching pairs |
| Scenarios.SingleSequence | msa/mdp/mdp.go:74-90 | a single sequence has score 0 |
| Scenarios.EmptyInputScoresZero | msa/mdp/mdp.go:96-100 | if any input string is empty, the score is 0 |

## Left out

- The third-party n-dimensional array behind the two grids (mdp.go:6, 36-37, 45-46) is not part of this model. Each grid is a map from coordinates to values that reads as the array's zero value where nothing was written. The grid shape is kept, and every written key is proved to lie inside it.
- The computed flag is a `bool`. The source stores the integer 1 and tests for `== 1`.
- Solver.MultiDP.Solve: returns the doubled integer score. The source converts it to a float and halves it (mdp.go:89); floating point is not modelled.
- Solver.Solve: returns the doubled integer score, for the same reason.
- Input strings are sequences of characters. Go's iteration over runes, and the one-character string built from each rune, are not modelled.
- Recurrence.Max: a two-argument maximum. The source's variadic `max` starts from the minimum 64-bit integer; it is only ever called with two arguments.
- Integers are unbounded. The source's scores are machine `int`s, but they cannot grow near that width for inputs the grids can hold.
- Zero sequences are excluded: the constructor and `Solve` require at least one sequence. The behaviour of the foreign array for zero dimensions cannot be seen. The mask construction itself is modelled for k = 0.
- Scoring.Score: requires a non-empty column. The source slices `bases[:len(bases)-1]`, which fails on an empty column, and it is only ever called with k >= 1 entries.
- `NewSequence` and the `Sequence` wrapper struct are represented directly by `seq<Base>`; `cpy` is subsumed by value semantics.
- The commented-out debug printing (mdp.go:109, 130) is output only and has no behaviour to model.
- Properties beyond the source's promises are not proved. In particular: invariance of the score under reordering the input sequences, and monotonicity under extending a sequence.
