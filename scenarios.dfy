/** Worked scores for small inputs, derived from the recurrence.

    Each concrete input (a string list, a coordinate, a mask count) is a
    parameter pinned by a requires clause rather than a literal in the
    ensures: with literals the verifier unfolds the recursive definitions on
    them eagerly and the proofs grow far beyond their resource limit. */
module Scenarios {
  import opened Bases
  import opened Masks
  import opened Scoring
  import opened Lattice
  import opened Recurrence
  import opened Solver

  lemma TwoMasks(k: nat)
    requires k == 2
    ensures ColumnMasks(k) == [[1, 1], [1, 0], [0, 1]]
  {
    assert Pow2(2) == 4;
    assert Bits(3, 2) == Bits(1, 1) + [1] == [1, 1];
    assert Bits(2, 2) == Bits(1, 1) + [0] == [1, 0];
    assert Bits(1, 2) == Bits(0, 1) + [1] == [0, 1];
  }

  lemma PairColumn(a: Base, b: Base)
    ensures ColumnScore([a, b]) == PairScore(a, b)
  {
    var col := [a, b];
    assert col[1..] == [b];
    assert [b][1..] == [];
    assert ColumnScore([b]) == RowScore(b, []) + ColumnScore([]) == 0;
    assert [b][..0] == [];
    assert RowScore(a, [b]) == RowScore(a, []) + PairScore(a, b);
  }

  /** A candidate, given the predecessor and the column of its mask. */
  lemma CandidateOf(seqs: seq<Sequence>, ms: seq<seq<int>>, c: seq<int>, j: nat, p: seq<int>, col: seq<Base>)
    requires ValidMasks(ms, |seqs|) && Within(seqs, c) && AllPositive(c)
    requires j < |ms| && Fits(c, ms[j])
    requires p == Minus(c, ms[j]) && col == Column(seqs, c, ms[j])
    ensures Within(seqs, p)
    ensures Candidate(seqs, ms, c, j) == Optimal(seqs, ms, p) + ColumnScore(col)
  {
  }

  /** Mask [1 1]: both sequences give a base. */
  lemma BothCandidate(seqs: seq<Sequence>, ms: seq<seq<int>>, c: seq<int>, d: seq<int>)
    requires ms == ColumnMasks(|seqs|) && ValidMasks(ms, 2)
    requires |seqs| == 2 && Within(seqs, c) && AllPositive(c)
    requires d == [c[0] - 1, c[1] - 1]
    ensures |ms| == 3 && Fits(c, ms[0]) && Within(seqs, d)
    ensures Candidate(seqs, ms, c, 0) == Optimal(seqs, ms, d) + PairScore(seqs[0][c[0] - 1], seqs[1][c[1] - 1])
  {
    TwoMasks(|seqs|);
    var x, y := seqs[0][c[0] - 1], seqs[1][c[1] - 1];
    assert ms[0] == [1, 1];
    CandidateOf(seqs, ms, c, 0, d, [x, y]);
    PairColumn(x, y);
  }

  /** Mask [1 0]: the first sequence gives a base, the second a gap. */
  lemma FirstCandidate(seqs: seq<Sequence>, ms: seq<seq<int>>, c: seq<int>, u: seq<int>)
    requires ms == ColumnMasks(|seqs|) && ValidMasks(ms, 2)
    requires |seqs| == 2 && Within(seqs, c) && AllPositive(c)
    requires u == [c[0] - 1, c[1]]
    ensures Fits(c, ms[1]) && Within(seqs, u)
    ensures Candidate(seqs, ms, c, 1) == Optimal(seqs, ms, u) + PairScore(seqs[0][c[0] - 1], X)
  {
    TwoMasks(|seqs|);
    var x := seqs[0][c[0] - 1];
    assert ms[1] == [1, 0];
    CandidateOf(seqs, ms, c, 1, u, [x, X]);
    PairColumn(x, X);
  }

  /** Mask [0 1]: a gap from the first sequence, a base from the second. */
  lemma SecondCandidate(seqs: seq<Sequence>, ms: seq<seq<int>>, c: seq<int>, l: seq<int>)
    requires ms == ColumnMasks(|seqs|) && ValidMasks(ms, 2)
    requires |seqs| == 2 && Within(seqs, c) && AllPositive(c)
    requires l == [c[0], c[1] - 1]
    ensures Fits(c, ms[2]) && Within(seqs, l)
    ensures Candidate(seqs, ms, c, 2) == Optimal(seqs, ms, l) + PairScore(X, seqs[1][c[1] - 1])
  {
    TwoMasks(|seqs|);
    var y := seqs[1][c[1] - 1];
    assert ms[2] == [0, 1];
    CandidateOf(seqs, ms, c, 2, l, [X, y]);
    PairColumn(X, y);
  }

  /** The running best after mask [1 1], from the diagonal optimum diag at
      d = (c0 - 1, c1 - 1) and the score pd of the column of two bases. */
  lemma BestAfterBoth(seqs: seq<Sequence>, ms: seq<seq<int>>, c: seq<int>, d: seq<int>, diag: int, pd: int)
    requires ms == ColumnMasks(|seqs|) && ValidMasks(ms, 2)
    requires |seqs| == 2 && Within(seqs, c) && AllPositive(c)
    requires d == [c[0] - 1, c[1] - 1] && Within(seqs, d) && diag == Optimal(seqs, ms, d)
    requires pd == PairScore(seqs[0][c[0] - 1], seqs[1][c[1] - 1])
    ensures |ms| == 3
    ensures BestOver(seqs, ms, c, 1) == Max(0, diag + pd)
  {
    BothCandidate(seqs, ms, c, d);
    BestOverNext(seqs, ms, c, 0, 0, diag + pd);
  }

  /** The running best after mask [1 0], from the best b1 before it, the
      optimum up at u = (c0 - 1, c1) and the score pu of a base against a gap. */
  lemma BestAfterFirst(seqs: seq<Sequence>, ms: seq<seq<int>>, c: seq<int>, u: seq<int>, b1: int, up: int, pu: int)
    requires ms == ColumnMasks(|seqs|) && ValidMasks(ms, 2) && |ms| == 3
    requires |seqs| == 2 && Within(seqs, c) && AllPositive(c)
    requires u == [c[0] - 1, c[1]] && Within(seqs, u) && up == Optimal(seqs, ms, u)
    requires b1 == BestOver(seqs, ms, c, 1) && pu == PairScore(seqs[0][c[0] - 1], X)
    ensures BestOver(seqs, ms, c, 2) == Max(b1, up + pu)
  {
    FirstCandidate(seqs, ms, c, u);
    BestOverNext(seqs, ms, c, 1, b1, up + pu);
  }

  /** The running best after mask [0 1], from the best b2 before it, the
      optimum left at l = (c0, c1 - 1) and the score pl of a gap against a base. */
  lemma BestAfterSecond(seqs: seq<Sequence>, ms: seq<seq<int>>, c: seq<int>, l: seq<int>, b2: int, left: int, pl: int)
    requires ms == ColumnMasks(|seqs|) && ValidMasks(ms, 2) && |ms| == 3
    requires |seqs| == 2 && Within(seqs, c) && AllPositive(c)
    requires l == [c[0], c[1] - 1] && Within(seqs, l) && left == Optimal(seqs, ms, l)
    requires b2 == BestOver(seqs, ms, c, 2) && pl == PairScore(X, seqs[1][c[1] - 1])
    ensures BestOver(seqs, ms, c, 3) == Max(b2, left + pl)
  {
    SecondCandidate(seqs, ms, c, l);
    BestOverNext(seqs, ms, c, 2, b2, left + pl);
  }

  /** The two-sequence recurrence: the optimum at c is the best of 0, the
      diagonal predecessor plus the pair of bases, and each of the other two
      predecessors plus a base against a gap. */
  lemma TwoSequenceValue(seqs: seq<Sequence>, ms: seq<seq<int>>, c: seq<int>, d: seq<int>, u: seq<int>, l: seq<int>,
                         diag: int, up: int, left: int, pd: int, pu: int, pl: int)
    requires ms == ColumnMasks(|seqs|) && ValidMasks(ms, 2)
    requires |seqs| == 2 && Within(seqs, c) && AllPositive(c)
    requires d == [c[0] - 1, c[1] - 1] && u == [c[0] - 1, c[1]] && l == [c[0], c[1] - 1]
    requires diag == Optimal(seqs, ms, d) && up == Optimal(seqs, ms, u) && left == Optimal(seqs, ms, l)
    requires pd == PairScore(seqs[0][c[0] - 1], seqs[1][c[1] - 1])
    requires pu == PairScore(seqs[0][c[0] - 1], X) && pl == PairScore(X, seqs[1][c[1] - 1])
    ensures Optimal(seqs, ms, c) == Max(Max(Max(0, diag + pd), up + pu), left + pl)
  {
    BestAfterBoth(seqs, ms, c, d, diag, pd);
    var b1 := Max(0, diag + pd);
    BestAfterFirst(seqs, ms, c, u, b1, up, pu);
    var b2 := Max(b1, up + pu);
    BestAfterSecond(seqs, ms, c, l, b2, left, pl);
  }

  /** The bases of a string of length one or two. */
  lemma ShortBases(s: string)
    requires 1 <= |s| <= 2
    ensures |ToBases(s)| == |s| && ToBases(s)[0] == ConvertBase(s[0])
    ensures |s| == 2 ==> ToBases(s)[1] == ConvertBase(s[1])
  {
  }

  lemma PairOfSequences(strs: seq<string>)
    requires |strs| == 2
    ensures SequencesOf(strs) == [ToBases(strs[0]), ToBases(strs[1])]
  {
  }

  /** A coordinate with an index 0 is a base case. */
  lemma EdgeZero(seqs: seq<Sequence>, ms: seq<seq<int>>, c: seq<int>, i: nat)
    requires ValidMasks(ms, |seqs|) && Within(seqs, c)
    requires i < |c| && c[i] == 0
    ensures Optimal(seqs, ms, c) == 0
  {
  }

  /** "A" against "C", at the level of the grid. */
  lemma ClampedGrid(seqs: seq<Sequence>, ms: seq<seq<int>>, c: seq<int>)
    requires ms == ColumnMasks(|seqs|) && ValidMasks(ms, 2)
    requires |seqs| == 2 && |seqs[0]| == 1 && |seqs[1]| == 1 && seqs[0][0] == A && seqs[1][0] == C
    requires c == [1, 1]
    ensures Optimal(seqs, ms, c) == 0
  {
    var d, u, l := [c[0] - 1, c[1] - 1], [c[0] - 1, c[1]], [c[0], c[1] - 1];
    EdgeZero(seqs, ms, d, 0);
    EdgeZero(seqs, ms, u, 0);
    EdgeZero(seqs, ms, l, 1);
    TwoSequenceValue(seqs, ms, c, d, u, l, 0, 0, 0, Mismatch, Gap, Gap);
  }

  /** "A" against "C": every alignment scores below zero (a mismatch, -4, is
      the best), yet the running best starts at 0, so the result is 0. */
  lemma ClampedAtZero(strs: seq<string>)
    requires strs == ["A", "C"]
    ensures AlignmentScore(strs) == 0
  {
    PairOfSequences(strs);
    ShortBases(strs[0]);
    ShortBases(strs[1]);
    var seqs := SequencesOf(strs);
    ColumnMasksCharacterized(|strs|);
    ClampedGrid(seqs, ColumnMasks(|strs|), Lengths(seqs));
  }

  /** Both sequences start with 'A': the cell (1, 1) is one match. */
  lemma FirstCell(seqs: seq<Sequence>, ms: seq<seq<int>>, c: seq<int>)
    requires ms == ColumnMasks(|seqs|) && ValidMasks(ms, 2)
    requires |seqs| == 2 && |seqs[0]| >= 1 && |seqs[1]| >= 1 && seqs[0][0] == A && seqs[1][0] == A
    requires c == [1, 1]
    ensures Optimal(seqs, ms, c) == Match
  {
    var d, u, l := [c[0] - 1, c[1] - 1], [c[0] - 1, c[1]], [c[0], c[1] - 1];
    EdgeZero(seqs, ms, d, 0);
    EdgeZero(seqs, ms, u, 0);
    EdgeZero(seqs, ms, l, 1);
    TwoSequenceValue(seqs, ms, c, d, u, l, 0, 0, 0, Match, Gap, Gap);
  }

  /** "A" against "AC" (C not A), the cell (1, 2): the match, then a gap
      against C. */
  lemma SecondColumn(seqs: seq<Sequence>, ms: seq<seq<int>>, c: seq<int>)
    requires ms == ColumnMasks(|seqs|) && ValidMasks(ms, 2)
    requires |seqs| == 2 && |seqs[0]| >= 1 && |seqs[1]| >= 2
    requires seqs[0][0] == A && seqs[1][0] == A && seqs[1][1] != A && seqs[1][1] != X
    requires c == [1, 2]
    ensures Optimal(seqs, ms, c) == Match + Gap
  {
    var d, u, l := [c[0] - 1, c[1] - 1], [c[0] - 1, c[1]], [c[0], c[1] - 1];
    EdgeZero(seqs, ms, d, 0);
    EdgeZero(seqs, ms, u, 0);
    FirstCell(seqs, ms, l);
    TwoSequenceValue(seqs, ms, c, d, u, l, 0, 0, Match, Mismatch, Gap, Gap);
  }

  /** "AC" (C not A) against "A", the cell (2, 1): the mirror image. */
  lemma SecondRow(seqs: seq<Sequence>, ms: seq<seq<int>>, c: seq<int>)
    requires ms == ColumnMasks(|seqs|) && ValidMasks(ms, 2)
    requires |seqs| == 2 && |seqs[0]| >= 2 && |seqs[1]| >= 1
    requires seqs[0][0] == A && seqs[1][0] == A && seqs[0][1] != A && seqs[0][1] != X
    requires c == [2, 1]
    ensures Optimal(seqs, ms, c) == Match + Gap
  {
    var d, u, l := [c[0] - 1, c[1] - 1], [c[0] - 1, c[1]], [c[0], c[1] - 1];
    EdgeZero(seqs, ms, d, 1);
    FirstCell(seqs, ms, u);
    EdgeZero(seqs, ms, l, 1);
    TwoSequenceValue(seqs, ms, c, d, u, l, 0, Match, 0, Mismatch, Gap, Gap);
  }

  /** The cell (2, 2) of two sequences of length two whose first bases are
      both 'A' and whose second bases are not: the better of the match
      followed by the pair of second bases, and the two gap detours. */
  lemma LastCell(seqs: seq<Sequence>, ms: seq<seq<int>>, c: seq<int>)
    requires ms == ColumnMasks(|seqs|) && ValidMasks(ms, 2)
    requires |seqs| == 2 && |seqs[0]| == 2 && |seqs[1]| == 2
    requires seqs[0][0] == A && seqs[1][0] == A
    requires seqs[0][1] != A && seqs[0][1] != X && seqs[1][1] != A && seqs[1][1] != X
    requires c == [2, 2]
    ensures Optimal(seqs, ms, c) == Max(Match + PairScore(seqs[0][1], seqs[1][1]), Match + 2 * Gap)
  {
    var d, u, l := [c[0] - 1, c[1] - 1], [c[0] - 1, c[1]], [c[0], c[1] - 1];
    FirstCell(seqs, ms, d);
    SecondColumn(seqs, ms, u);
    SecondRow(seqs, ms, l);
    TwoSequenceValue(seqs, ms, c, d, u, l, Match, Match + Gap, Match + Gap,
                     PairScore(seqs[0][1], seqs[1][1]), Gap, Gap);
  }

  /** Aligning "AC" with itself: two matching columns, doubled score 12
      (reported as 6.0). */
  lemma SelfMatch(strs: seq<string>)
    requires strs == ["AC", "AC"]
    ensures AlignmentScore(strs) == 12
  {
    PairOfSequences(strs);
    ShortBases(strs[0]);
    ShortBases(strs[1]);
    var seqs := SequencesOf(strs);
    ColumnMasksCharacterized(|strs|);
    LastCell(seqs, ColumnMasks(|strs|), Lengths(seqs));
  }

  /** "AG" against "AC": a match and a mismatch beat opening gaps, doubled
      score 2 (reported as 1.0). */
  lemma MismatchPreferredOverGaps(strs: seq<string>)
    requires strs == ["AG", "AC"]
    ensures AlignmentScore(strs) == 2
  {
    PairOfSequences(strs);
    ShortBases(strs[0]);
    ShortBases(strs[1]);
    var seqs := SequencesOf(strs);
    ColumnMasksCharacterized(|strs|);
    LastCell(seqs, ColumnMasks(|strs|), Lengths(seqs));
  }

  /** "AA" against "A", the cell (2, 1). */
  lemma ShortCircuitGrid(seqs: seq<Sequence>, ms: seq<seq<int>>, c: seq<int>)
    requires ms == ColumnMasks(|seqs|) && ValidMasks(ms, 2)
    requires |seqs| == 2 && |seqs[0]| == 2 && |seqs[1]| == 1
    requires seqs[0][0] == A && seqs[0][1] == A && seqs[1][0] == A
    requires c == [2, 1]
    ensures Optimal(seqs, ms, c) == Match
  {
    var d, u, l := [c[0] - 1, c[1] - 1], [c[0] - 1, c[1]], [c[0], c[1] - 1];
    EdgeZero(seqs, ms, d, 1);
    FirstCell(seqs, ms, u);
    EdgeZero(seqs, ms, l, 1);
    TwoSequenceValue(seqs, ms, c, d, u, l, 0, Match, 0, Match, Gap, Gap);
  }

  /** "AA" against "A": the coordinate (1, 0) scores 0 at once, so the second
      'A' of the first sequence is never charged a gap and the result is a
      single match, 6 (a full global alignment would score 6 - 3 = 3). */
  lemma BaseCaseShortCircuit(strs: seq<string>)
    requires strs == ["AA", "A"]
    ensures AlignmentScore(strs) == 6
  {
    PairOfSequences(strs);
    ShortBases(strs[0]);
    ShortBases(strs[1]);
    var seqs := SequencesOf(strs);
    ColumnMasksCharacterized(|strs|);
    ShortCircuitGrid(seqs, ColumnMasks(|strs|), Lengths(seqs));
  }

  /** One sequence has no pairs: its score is 0 whatever it holds. */
  lemma SingleSequence(s: string)
    ensures AlignmentScore([s]) == 0
  {
    ColumnMasksCharacterized(1);
    OneSequenceScoresZero(SequencesOf([s]), ColumnMasks(1), Lengths(SequencesOf([s])));
  }

  /** As soon as one input is empty the score is 0. */
  lemma EmptyInputScoresZero(strs: seq<string>, i: nat)
    requires i < |strs| && strs[i] == ""
    ensures AlignmentScore(strs) == 0
  {
    var seqs := SequencesOf(strs);
    assert Lengths(seqs)[i] == 0;
  }

  // ----- Three sequences -----

  /** Every sequence consists of 'A's only. */
  predicate OnlyA(seqs: seq<Sequence>)
  {
    forall i, p :: 0 <= i < |seqs| && 0 <= p < |seqs[i]| ==> seqs[i][p] == A
  }

  /** A three-entry column scores its three pairs. */
  lemma ThreeColumn(b: seq<Base>)
    requires |b| == 3
    ensures ColumnScore(b) == PairScore(b[0], b[1]) + PairScore(b[0], b[2]) + PairScore(b[1], b[2])
  {
    var rest := b[1..];
    assert rest == [b[1], b[2]];
    PairColumn(b[1], b[2]);
    assert rest[..1] == [b[1]] && [b[1]][..0] == [];
    assert RowScore(b[0], rest) == RowScore(b[0], [b[1]]) + PairScore(b[0], b[2]);
  }

  /** Over sequences of 'A's, a column of three bases scores 3 * Match; a
      column with a gap scores at most 0 (two bases and a gap, Match + 2 * Gap,
      is exactly 0). */
  lemma OnlyAColumn(seqs: seq<Sequence>, c: seq<int>, m: seq<int>)
    requires |seqs| == 3 && OnlyA(seqs) && Within(seqs, c) && AllPositive(c)
    requires |m| == 3 && IsBinary(m)
    ensures ColumnScore(Column(seqs, c, m)) <= (if m[0] == 1 then 3 * Match else 0)
  {
    var col := Column(seqs, c, m);
    ThreeColumn(col);
    assert forall i :: 0 <= i < 3 ==> col[i] == if m[i] == 1 then A else X;
  }

  /** Over three sequences of 'A's, no coordinate scores more than 3 * Match
      per base of the first sequence: three bases per column is the best any
      column does, and the other columns score 0 or less. */
  lemma {:induction false} OnlyAUpper(seqs: seq<Sequence>, ms: seq<seq<int>>, c: seq<int>)
    requires |seqs| == 3 && OnlyA(seqs) && ms == ColumnMasks(|seqs|) && ValidMasks(ms, 3)
    requires Within(seqs, c) && forall i :: 0 <= i < 3 ==> c[i] >= 0
    ensures Optimal(seqs, ms, c) <= 3 * Match * c[0]
    decreases Weight(c)
  {
    if AllPositive(c) {
      OptimalRecurrence(seqs, ms, c);
      if Optimal(seqs, ms, c) != 0 {
        var j :| 0 <= j < |ms| && Optimal(seqs, ms, c) == Candidate(seqs, ms, c, j);
        var m := ms[j];
        var p := Minus(c, m);
        WeightDrops(c, m);
        CandidateOf(seqs, ms, c, j, p, Column(seqs, c, m));
        OnlyAUpper(seqs, ms, p);
        OnlyAColumn(seqs, c, m);
      }
    }
  }

  /** Along the diagonal (n, n, n) of three sequences of 'A's the all-ones
      mask alone reaches 3 * Match per step. */
  lemma {:induction false} OnlyADiagonal(seqs: seq<Sequence>, ms: seq<seq<int>>, c: seq<int>, n: nat)
    requires |seqs| == 3 && OnlyA(seqs) && ms == ColumnMasks(|seqs|) && ValidMasks(ms, 3)
    requires c == [n, n, n] && Within(seqs, c)
    ensures Optimal(seqs, ms, c) >= 3 * Match * n
    decreases n
  {
    if n > 0 {
      ColumnMasksEnds(|seqs|);
      var m := ms[0];
      assert m == [1, 1, 1];
      var p := [n - 1, n - 1, n - 1];
      assert Minus(c, m) == p;
      var col := Column(seqs, c, m);
      assert col == [A, A, A];
      ThreeColumn(col);
      OptimalRecurrence(seqs, ms, c);
      CandidateOf(seqs, ms, c, 0, p, col);
      OnlyADiagonal(seqs, ms, p, n - 1);
      assert Candidate(seqs, ms, c, 0) >= 3 * Match * (n - 1) + 3 * Match;
    }
  }

  lemma TripleOfSequences(strs: seq<string>)
    requires |strs| == 3
    ensures SequencesOf(strs) == [ToBases(strs[0]), ToBases(strs[1]), ToBases(strs[2])]
  {
  }

  /** Three copies of "AAA": three columns of three matching pairs each,
      doubled score 54 (reported as 27.0). */
  lemma ThreeIdentical(strs: seq<string>)
    requires strs == ["AAA", "AAA", "AAA"]
    ensures AlignmentScore(strs) == 54
  {
    TripleOfSequences(strs);
    var seqs := SequencesOf(strs);
    assert forall i :: 0 <= i < 3 ==> seqs[i] == ToBases("AAA");
    assert ToBases("AAA") == [A, A, A];
    var c := Lengths(seqs);
    assert c == [3, 3, 3];
    ColumnMasksCharacterized(|strs|);
    OnlyAUpper(seqs, ColumnMasks(|strs|), c);
    OnlyADiagonal(seqs, ColumnMasks(|strs|), c, 3);
  }
}
