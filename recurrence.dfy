/** The optimal sum-of-pairs score as a pure recursive function of the
    coordinate: the specification that the memoized solver is proved against. */
module Recurrence {
  import opened Bases
  import opened Masks
  import opened Scoring
  import opened Lattice

  /** The larger of two scores; on a tie the first is kept. */
  function Max(a: int, b: int): (r: int)
    ensures r >= a && r >= b
    ensures r == a || r == b
  {
    if b > a then b else a
  }

  /** The optimal score at coordinate c: 0 as soon as some index is 0 or
      below; otherwise the best of 0 and every candidate of a mask that fits. */
  function Optimal(seqs: seq<Sequence>, masks: seq<seq<int>>, c: seq<int>): (r: int)
    requires ValidMasks(masks, |seqs|) && Within(seqs, c)
    ensures r >= 0
    ensures !AllPositive(c) ==> r == 0
    decreases Weight(c), |masks| + 1
  {
    if !AllPositive(c) then 0 else BestOver(seqs, masks, c, |masks|)
  }

  /** The running best over the first n masks, starting from 0. */
  function BestOver(seqs: seq<Sequence>, masks: seq<seq<int>>, c: seq<int>, n: nat): (r: int)
    requires ValidMasks(masks, |seqs|) && Within(seqs, c) && AllPositive(c)
    requires n <= |masks|
    ensures r >= 0
    decreases Weight(c), n
  {
    if n == 0 then 0
    else
      var acc := BestOver(seqs, masks, c, n - 1);
      if Fits(c, masks[n - 1]) then Max(acc, Candidate(seqs, masks, c, n - 1)) else acc
  }

  /** The score of ending the alignment at c with the column of mask j:
      the optimum at the predecessor plus that column's sum-of-pairs score. */
  function Candidate(seqs: seq<Sequence>, masks: seq<seq<int>>, c: seq<int>, j: nat): int
    requires ValidMasks(masks, |seqs|) && Within(seqs, c) && AllPositive(c)
    requires j < |masks| && Fits(c, masks[j])
    decreases Weight(c), 0
  {
    WeightDrops(c, masks[j]);
    Optimal(seqs, masks, Minus(c, masks[j])) + ColumnScore(Column(seqs, c, masks[j]))
  }

  /** One pass of the source's loop over the masks: a fitting mask raises
      the running best acc to its candidate cand when that is larger. */
  lemma BestOverNext(seqs: seq<Sequence>, masks: seq<seq<int>>, c: seq<int>, n: nat, acc: int, cand: int)
    requires ValidMasks(masks, |seqs|) && Within(seqs, c) && AllPositive(c)
    requires n < |masks| && Fits(c, masks[n])
    requires acc == BestOver(seqs, masks, c, n) && cand == Candidate(seqs, masks, c, n)
    ensures BestOver(seqs, masks, c, n + 1) == Max(acc, cand)
  {
  }

  /** The running best is at least every candidate seen and, unless it is
      still the initial 0, equal to one of them. */
  lemma {:induction false} BestOverIsMax(seqs: seq<Sequence>, masks: seq<seq<int>>, c: seq<int>, n: nat)
    requires ValidMasks(masks, |seqs|) && Within(seqs, c) && AllPositive(c)
    requires n <= |masks|
    ensures forall j :: 0 <= j < n && Fits(c, masks[j]) ==> Candidate(seqs, masks, c, j) <= BestOver(seqs, masks, c, n)
    ensures BestOver(seqs, masks, c, n) == 0
         || exists j :: 0 <= j < n && Fits(c, masks[j]) && BestOver(seqs, masks, c, n) == Candidate(seqs, masks, c, j)
  {
    if n > 0 {
      BestOverIsMax(seqs, masks, c, n - 1);
    }
  }

  /** The recurrence: at a coordinate with every index positive every mask
      fits, and the optimum is the maximum of 0 and all the candidates. */
  lemma OptimalRecurrence(seqs: seq<Sequence>, masks: seq<seq<int>>, c: seq<int>)
    requires ValidMasks(masks, |seqs|) && Within(seqs, c) && AllPositive(c)
    ensures forall j :: 0 <= j < |masks| ==> Fits(c, masks[j])
    ensures forall j :: 0 <= j < |masks| ==> Candidate(seqs, masks, c, j) <= Optimal(seqs, masks, c)
    ensures Optimal(seqs, masks, c) == 0
         || exists j :: 0 <= j < |masks| && Optimal(seqs, masks, c) == Candidate(seqs, masks, c, j)
  {
    BestOverIsMax(seqs, masks, c, |masks|);
  }

  /** With a single sequence every column has one entry and scores 0, so
      the optimum is 0 everywhere. */
  lemma {:induction false} OneSequenceScoresZero(seqs: seq<Sequence>, masks: seq<seq<int>>, c: seq<int>)
    requires |seqs| == 1 && ValidMasks(masks, 1) && Within(seqs, c)
    ensures Optimal(seqs, masks, c) == 0
    decreases Weight(c), |masks| + 1
  {
    if AllPositive(c) {
      OneSequenceBestZero(seqs, masks, c, |masks|);
    }
  }

  lemma {:induction false} OneSequenceBestZero(seqs: seq<Sequence>, masks: seq<seq<int>>, c: seq<int>, n: nat)
    requires |seqs| == 1 && ValidMasks(masks, 1) && Within(seqs, c) && AllPositive(c)
    requires n <= |masks|
    ensures BestOver(seqs, masks, c, n) == 0
    decreases Weight(c), n
  {
    if n > 0 {
      OneSequenceBestZero(seqs, masks, c, n - 1);
      var m := masks[n - 1];
      if Fits(c, m) {
        WeightDrops(c, m);
        OneSequenceScoresZero(seqs, masks, Minus(c, m));
        ColumnScoreNoPairs(Column(seqs, c, m));
      }
    }
  }
}
