/** The memoized solver: an alignment context owning the sequences, the
    column masks and two grids over the lattice, a score table and a
    computed flag per coordinate. */
module Solver {
  import opened Bases
  import opened Masks
  import opened Scoring
  import opened Lattice
  import opened Recurrence

  class MultiDP {
    const seqs: seq<Sequence>
    /** The extent of both grids: dimension i has |seqs[i]| + 1 cells. */
    const shape: seq<int>
    const masks: seq<seq<int>>
    /** The score grid; a cell never written reads as 0. */
    var table: map<seq<int>, int>
    /** The computed-flag grid; a cell never written reads as false. */
    var cached: map<seq<int>, bool>

    function TableAt(c: seq<int>): int
      reads this
    {
      if c in table then table[c] else 0
    }

    predicate IsCached(c: seq<int>)
      reads this
    {
      c in cached && cached[c]
    }

    /** Both grids stay inside the shape, and every computed cell holds the
        optimal score of its coordinate. */
    ghost predicate Valid()
      reads this
    {
      && |seqs| >= 1
      && shape == Shape(seqs)
      && masks == ColumnMasks(|seqs|)
      && ValidMasks(masks, |seqs|)
      && (forall c :: c in table ==> InGrid(shape, c))
      && (forall c :: c in cached ==> InGrid(shape, c))
      && (forall c :: IsCached(c) ==> Within(seqs, c) && TableAt(c) == Optimal(seqs, masks, c))
    }

    constructor (s: seq<Sequence>)
      requires |s| >= 1
      ensures Valid()
      ensures seqs == s && table == map[] && cached == map[]
    {
      seqs := s;
      var sz := Sizes(s);
      shape := sz;
      var ms := GenerateSubsetMasks(|s|);
      masks := ms;
      table := map[];
      cached := map[];
      new;
      assert shape == Shape(s);
      ColumnMasksCharacterized(|s|);
    }

    /** The column at idxs under mask: sequence i gives its base at 1-based
        position idxs[i] when mask[i] is 1, and a gap otherwise. */
    method MaskedBases(idxs: seq<int>, mask: seq<int>) returns (bases: seq<Base>)
      requires |mask| >= |idxs| && |seqs| >= |idxs|
      requires forall i :: 0 <= i < |idxs| && mask[i] == 1 ==> 1 <= idxs[i] <= |seqs[i]|
      ensures |bases| == |idxs|
      ensures forall i :: 0 <= i < |idxs| ==> bases[i] == if mask[i] == 1 then seqs[i][idxs[i] - 1] else X
      ensures bases == Column(seqs, idxs, mask)
    {
      bases := [];
      var i := 0;
      while i < |idxs|
        invariant 0 <= i <= |idxs|
        invariant |bases| == i
        invariant forall j :: 0 <= j < i ==> bases[j] == if mask[j] == 1 then seqs[j][idxs[j] - 1] else X
      {
        var b;
        if mask[i] == 1 {
          b := seqs[i][idxs[i] - 1];
        } else {
          b := X;
        }
        bases := bases + [b];
        i := i + 1;
      }
    }

    /** The terminal coordinate: each sequence's length (its size minus one). */
    method MaxIndices() returns (indices: seq<int>)
      ensures |indices| == |seqs|
      ensures forall i :: 0 <= i < |seqs| ==> indices[i] == |seqs[i]|
      ensures indices == Lengths(seqs)
    {
      var sz := Sizes(seqs);
      indices := [];
      var i := 0;
      while i < |sz|
        invariant 0 <= i <= |sz|
        invariant |indices| == i
        invariant forall j :: 0 <= j < i ==> indices[j] == sz[j] - 1
      {
        indices := indices + [sz[i] - 1];
        i := i + 1;
      }
    }

    /** The memoized recurrence. Returns the optimal score at idxs; a
        coordinate with every index positive is computed at most once and is
        then cached; cached cells are never changed. */
    method OptimalScore(idxs: seq<int>) returns (best: int)
      requires Valid() && Within(seqs, idxs)
      modifies this
      ensures Valid()
      ensures best == Optimal(seqs, masks, idxs)
      ensures AllPositive(idxs) ==> IsCached(idxs) && TableAt(idxs) == best
      ensures !AllPositive(idxs) || old(IsCached(idxs)) ==> table == old(table) && cached == old(cached)
      ensures forall c :: old(IsCached(c)) ==> IsCached(c) && TableAt(c) == old(TableAt(c))
      decreases Weight(idxs), 1
    {
      // base case: some index has reached 0
      var i := 0;
      while i < |idxs|
        invariant 0 <= i <= |idxs|
        invariant forall j :: 0 <= j < i ==> idxs[j] > 0
      {
        if idxs[i] <= 0 {
          return 0;
        }
        i := i + 1;
      }
      if IsCached(idxs) {
        return TableAt(idxs);
      }
      best := 0;
      var j := 0;
      while j < |masks|
        invariant 0 <= j <= |masks|
        invariant Valid()
        invariant best == BestOver(seqs, masks, idxs, j)
        invariant forall c :: old(IsCached(c)) ==> IsCached(c) && TableAt(c) == old(TableAt(c))
      {
        best := TryMask(idxs, j, best);
        j := j + 1;
      }
      Store(idxs, best);
    }

    /** One pass of the loop over the masks: when mask j fits, the running
        best is raised to that mask's candidate if it is larger. */
    method TryMask(idxs: seq<int>, j: nat, best: int) returns (next: int)
      requires Valid() && Within(seqs, idxs) && AllPositive(idxs)
      requires j < |masks| && best == BestOver(seqs, masks, idxs, j)
      modifies this
      ensures Valid()
      ensures next == BestOver(seqs, masks, idxs, j + 1)
      ensures forall c :: old(IsCached(c)) ==> IsCached(c) && TableAt(c) == old(TableAt(c))
      decreases Weight(idxs), 0
    {
      next := best;
      var mask := masks[j];
      var mIdxs, ok := MaskedIdxs(idxs, mask);
      if ok {
        WeightDrops(idxs, mask);
        var optScore := OptimalScore(mIdxs);
        var bases := MaskedBases(idxs, mask);
        var score := Score(bases);
        next := Max(best, optScore + score);
      }
    }

    /** Saves a computed optimum and marks its coordinate as cached. */
    method Store(idxs: seq<int>, best: int)
      requires Valid() && Within(seqs, idxs) && AllPositive(idxs)
      requires best == Optimal(seqs, masks, idxs)
      modifies this
      ensures Valid()
      ensures table == old(table)[idxs := best] && cached == old(cached)[idxs := true]
      ensures forall c :: old(IsCached(c)) ==> IsCached(c) && TableAt(c) == old(TableAt(c))
    {
      table := table[idxs := best];
      cached := cached[idxs := true];
    }

    /** The doubled optimal score of aligning the whole of every sequence. */
    method Solve() returns (optScore: int)
      requires Valid()
      modifies this
      ensures Valid()
      ensures optScore == Optimal(seqs, masks, Lengths(seqs))
    {
      var idxs := MaxIndices();
      optScore := OptimalScore(idxs);
    }
  }

  /** The base sequences of the input strings. */
  function SequencesOf(strs: seq<string>): (r: seq<Sequence>)
    ensures |r| == |strs|
  {
    seq(|strs|, i requires 0 <= i < |strs| => ToBases(strs[i]))
  }

  /** The doubled optimal alignment score of the input strings: the optimum
      at the terminal coordinate, with the column masks for that many
      sequences. */
  function AlignmentScore(strs: seq<string>): (r: int)
    requires |strs| >= 1
    ensures r >= 0
  {
    var seqs := SequencesOf(strs);
    ColumnMasksCharacterized(|strs|);
    Optimal(seqs, ColumnMasks(|strs|), Lengths(seqs))
  }

  /** Converts every string, builds a fresh alignment context and solves it.
      The source reports half of this doubled integer as a float. */
  method Solve(seqStrings: seq<string>) returns (doubled: int)
    requires |seqStrings| >= 1
    ensures doubled == AlignmentScore(seqStrings)
  {
    var seqs: seq<Sequence> := [];
    var i := 0;
    while i < |seqStrings|
      invariant 0 <= i <= |seqStrings|
      invariant seqs == SequencesOf(seqStrings[..i])
    {
      var s := ConvertSequence(seqStrings[i]);
      assert s == ToBases(seqStrings[i]);
      seqs := seqs + [s];
      i := i + 1;
    }
    assert seqStrings[..i] == seqStrings;
    var mdp := new MultiDP(seqs);
    doubled := mdp.Solve();
  }
}
