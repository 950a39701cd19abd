/** The lattice of prefix-length coordinates: one index per sequence, from 0
    (nothing aligned yet) to the sequence's length (all of it aligned). */
module Lattice {
  import opened Bases
  import opened Masks

  /** c names a prefix of every sequence: one index each, none past the end. */
  predicate Within(seqs: seq<Sequence>, c: seq<int>)
  {
    |c| == |seqs| && forall i :: 0 <= i < |c| ==> c[i] <= |seqs[i]|
  }

  predicate AllPositive(c: seq<int>)
  {
    forall i :: 0 <= i < |c| ==> c[i] > 0
  }

  /** c addresses a cell of a dense grid whose dimension i has shape[i] cells. */
  predicate InGrid(shape: seq<int>, c: seq<int>)
  {
    |c| == |shape| && forall i :: 0 <= i < |c| ==> 0 <= c[i] < shape[i]
  }

  /** Every mask has one bit per sequence and at least one bit set. */
  predicate ValidMasks(masks: seq<seq<int>>, k: nat)
  {
    forall j :: 0 <= j < |masks| ==> |masks[j]| == k && IsMask(masks[j])
  }

  /** Subtracting the mask leaves no index negative. */
  predicate Fits(c: seq<int>, m: seq<int>)
    requires |m| >= |c|
  {
    forall i :: 0 <= i < |c| ==> c[i] - m[i] >= 0
  }

  /** The componentwise difference c - m, on c's positions. */
  function Minus(c: seq<int>, m: seq<int>): (r: seq<int>)
    requires |m| >= |c|
    ensures |r| == |c|
  {
    seq(|c|, i requires 0 <= i < |c| => c[i] - m[i])
  }

  /** The sum of the positive entries: the measure that every step of the
      recurrence lowers. */
  function Weight(c: seq<int>): nat
  {
    if c == [] then 0 else Weight(c[..|c| - 1]) + (if c[|c| - 1] > 0 then c[|c| - 1] else 0)
  }

  lemma {:induction false} WeightMonotone(a: seq<int>, b: seq<int>)
    requires |a| == |b|
    requires forall i :: 0 <= i < |a| ==> 0 <= a[i] <= b[i]
    ensures Weight(a) <= Weight(b)
    ensures (exists i :: 0 <= i < |a| && a[i] < b[i]) ==> Weight(a) < Weight(b)
  {
    if a != [] {
      var n := |a|;
      WeightMonotone(a[..n - 1], b[..n - 1]);
      if exists i :: 0 <= i < n && a[i] < b[i] {
        var i :| 0 <= i < n && a[i] < b[i];
        if i < n - 1 {
          assert a[..n - 1][i] < b[..n - 1][i];
        }
      }
    }
  }

  /** Stepping back by a mask that fits strictly lowers the weight, so the
      recurrence terminates. */
  lemma WeightDrops(c: seq<int>, m: seq<int>)
    requires |m| == |c| && IsMask(m) && Fits(c, m)
    ensures Weight(Minus(c, m)) < Weight(c)
  {
    var i :| 0 <= i < |m| && m[i] == 1;
    WeightMonotone(Minus(c, m), c);
  }

  /** The terminal coordinate: every sequence fully aligned. */
  function Lengths(seqs: seq<Sequence>): (r: seq<int>)
    ensures Within(seqs, r)
  {
    seq(|seqs|, i requires 0 <= i < |seqs| => |seqs[i]|)
  }

  /** The grid shape: one cell per prefix length, 0 through the length. */
  function Shape(seqs: seq<Sequence>): (r: seq<int>)
    ensures |r| == |seqs|
  {
    seq(|seqs|, i requires 0 <= i < |seqs| => |seqs[i]| + 1)
  }

  /** Every coordinate within the sequences with no negative index lies in
      the grid of their shape, and conversely. */
  lemma GridIsLattice(seqs: seq<Sequence>, c: seq<int>)
    ensures InGrid(Shape(seqs), c) <==> Within(seqs, c) && forall i :: 0 <= i < |c| ==> c[i] >= 0
  {
  }

  /** The column of bases selected by mask m at coordinate c: sequence i
      contributes its base at (1-based) position c[i] when bit i is 1, and a
      gap otherwise. */
  function Column(seqs: seq<Sequence>, c: seq<int>, m: seq<int>): (r: seq<Base>)
    requires |m| >= |c| && |seqs| >= |c|
    requires forall i :: 0 <= i < |c| && m[i] == 1 ==> 1 <= c[i] <= |seqs[i]|
    ensures |r| == |c|
  {
    seq(|c|, i requires 0 <= i < |c| => if m[i] == 1 then seqs[i][c[i] - 1] else X)
  }

  /** One entry per sequence: its length plus one. */
  method Sizes(s: seq<Sequence>) returns (sizes: seq<int>)
    ensures |sizes| == |s|
    ensures forall i :: 0 <= i < |s| ==> sizes[i] == |s[i]| + 1
  {
    sizes := [];
    var i := 0;
    while i < |s|
      invariant 0 <= i <= |s|
      invariant |sizes| == i
      invariant forall j :: 0 <= j < i ==> sizes[j] == |s[j]| + 1
    {
      sizes := sizes + [|s[i]| + 1];
      i := i + 1;
    }
  }

  /** The predecessor coordinate idxs - mask, or ok == false when an index
      would go negative; then mIdxs holds the differences computed before the
      first negative one, as the source returns them. */
  method MaskedIdxs(idxs: seq<int>, mask: seq<int>) returns (mIdxs: seq<int>, ok: bool)
    requires |mask| >= |idxs|
    ensures ok <==> Fits(idxs, mask)
    ensures ok ==> mIdxs == Minus(idxs, mask)
    ensures !ok ==> (|mIdxs| < |idxs| && idxs[|mIdxs|] - mask[|mIdxs|] < 0
                     && mIdxs == Minus(idxs[..|mIdxs|], mask) && Fits(idxs[..|mIdxs|], mask))
    ensures AllPositive(idxs) && IsBinary(mask) ==> ok
  {
    mIdxs := [];
    var i := 0;
    while i < |idxs|
      invariant 0 <= i <= |idxs|
      invariant mIdxs == Minus(idxs[..i], mask)
      invariant Fits(idxs[..i], mask)
    {
      var x := idxs[i] - mask[i];
      if x < 0 {
        return mIdxs, false;
      }
      mIdxs := mIdxs + [x];
      i := i + 1;
    }
    assert idxs[..i] == idxs;
    return mIdxs, true;
  }
}
