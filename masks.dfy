/** Column masks: the non-zero 0/1 vectors of length k, one bit per sequence,
    that say which sequences contribute a base (1) or a gap (0) to a column. */
module Masks {

  function Pow2(n: nat): (r: nat)
    ensures r >= 1
  {
    if n == 0 then 1 else 2 * Pow2(n - 1)
  }

  /** The n-bit big-endian binary representation of (the low n bits of) v. */
  function Bits(v: nat, n: nat): (r: seq<int>)
    ensures |r| == n
    ensures forall i :: 0 <= i < n ==> r[i] == 0 || r[i] == 1
  {
    if n == 0 then [] else Bits(v / 2, n - 1) + [v % 2]
  }

  /** The number a big-endian digit vector denotes in base two. */
  function Value(s: seq<int>): int
  {
    if s == [] then 0 else 2 * Value(s[..|s| - 1]) + s[|s| - 1]
  }

  function Ones(n: nat): seq<int>
  {
    seq(n, _ => 1)
  }

  function Zeros(n: nat): seq<int>
  {
    seq(n, _ => 0)
  }

  predicate IsBinary(m: seq<int>)
  {
    forall i :: 0 <= i < |m| ==> m[i] == 0 || m[i] == 1
  }

  /** A mask: a 0/1 vector with at least one 1 (never an all-gap column). */
  predicate IsMask(m: seq<int>)
  {
    IsBinary(m) && exists i :: 0 <= i < |m| && m[i] == 1
  }

  /** The masks for k sequences in the order the source produces them:
      descending binary value, from all ones down to 0...01. */
  function ColumnMasks(k: nat): (r: seq<seq<int>>)
    ensures |r| == Pow2(k) - 1
  {
    seq(Pow2(k) - 1, j requires 0 <= j < Pow2(k) - 1 => Bits(Pow2(k) - 1 - j, k))
  }

  lemma {:induction false} ValueOfBits(v: nat, n: nat)
    requires v < Pow2(n)
    ensures Value(Bits(v, n)) == v
  {
    if n > 0 {
      ValueOfBits(v / 2, n - 1);
      var b := Bits(v, n);
      assert b[..n - 1] == Bits(v / 2, n - 1);
    }
  }

  lemma {:induction false} BitsOfValue(s: seq<int>)
    requires IsBinary(s)
    ensures 0 <= Value(s) < Pow2(|s|)
    ensures Bits(Value(s), |s|) == s
  {
    if s != [] {
      var p := s[..|s| - 1];
      BitsOfValue(p);
      var v := Value(s);
      assert v / 2 == Value(p) && v % 2 == s[|s| - 1];
      assert s == p + [s[|s| - 1]];
    }
  }

  lemma {:induction false} ZerosValue(s: seq<int>)
    requires forall i :: 0 <= i < |s| ==> s[i] == 0
    ensures Value(s) == 0
  {
    if s != [] {
      ZerosValue(s[..|s| - 1]);
    }
  }

  lemma {:induction false} OnesBits(n: nat)
    ensures Bits(Pow2(n) - 1, n) == Ones(n)
  {
    if n > 0 {
      OnesBits(n - 1);
      assert (Pow2(n) - 1) / 2 == Pow2(n - 1) - 1;
      assert Ones(n) == Ones(n - 1) + [1];
    }
  }

  lemma {:induction false} ZerosBits(n: nat)
    ensures Bits(0, n) == Zeros(n)
  {
    if n > 0 {
      ZerosBits(n - 1);
      assert Zeros(n) == Zeros(n - 1) + [0];
    }
  }

  /** Every generated mask has length k and is a genuine mask; mask j has
      binary value 2^k - 1 - j, so the list is strictly descending and has no
      repeats; and every mask of length k occurs in the list. */
  lemma ColumnMasksCharacterized(k: nat)
    ensures forall j :: 0 <= j < |ColumnMasks(k)| ==>
      |ColumnMasks(k)[j]| == k && IsMask(ColumnMasks(k)[j]) && Value(ColumnMasks(k)[j]) == Pow2(k) - 1 - j
    ensures forall j, j' :: 0 <= j < j' < |ColumnMasks(k)| ==> ColumnMasks(k)[j] != ColumnMasks(k)[j']
    ensures forall m :: |m| == k && IsMask(m) ==> m in ColumnMasks(k)
  {
    var ms := ColumnMasks(k);
    forall j | 0 <= j < |ms|
      ensures |ms[j]| == k && IsMask(ms[j]) && Value(ms[j]) == Pow2(k) - 1 - j
    {
      ColumnMaskAt(k, j, ms[j]);
    }
    forall m | |m| == k && IsMask(m)
      ensures m in ms
    {
      MaskIsListed(k, m, ms);
    }
  }

  /** Mask j is a genuine mask of binary value 2^k - 1 - j. */
  lemma ColumnMaskAt(k: nat, j: nat, m: seq<int>)
    requires j < Pow2(k) - 1 && m == Bits(Pow2(k) - 1 - j, k)
    ensures |m| == k && IsMask(m) && Value(m) == Pow2(k) - 1 - j
  {
    ValueOfBits(Pow2(k) - 1 - j, k);
    if forall i :: 0 <= i < k ==> m[i] == 0 {
      ZerosValue(m);
    }
  }

  /** A mask of length k stands at position 2^k - 1 - Value(m) of the list. */
  lemma MaskIsListed(k: nat, m: seq<int>, ms: seq<seq<int>>)
    requires |m| == k && IsMask(m) && ms == ColumnMasks(k)
    ensures m in ms
  {
    BitsOfValue(m);
    var v := Value(m);
    if v == 0 {
      ZerosBits(k);
      assert false;
    }
    assert ms[Pow2(k) - 1 - v] == m;
  }

  /** For k >= 1 the first mask is all ones and the last is 0...01; for one
      sequence the list is exactly [[1]]. */
  lemma {:induction false} ColumnMasksEnds(k: nat)
    requires k >= 1
    ensures ColumnMasks(k)[0] == Ones(k)
    ensures ColumnMasks(k)[|ColumnMasks(k)| - 1] == Zeros(k - 1) + [1]
    ensures k == 1 ==> ColumnMasks(k) == [[1]]
  {
    OnesBits(k);
    ZerosBits(k - 1);
    assert Pow2(k) - 1 - (Pow2(k) - 2) == 1;
    assert Bits(1, k) == Bits(0, k - 1) + [1];
    if k == 1 {
      assert ColumnMasks(1)[0] == Bits(1, 1) == [1];
    }
  }

  // ----- The source's recursive construction -----

  /** Extends every vector of subs twice, by x and by x - 1, in order. */
  function Expand(subs: seq<seq<int>>, x: int): (r: seq<seq<int>>)
    ensures |r| == 2 * |subs|
  {
    if subs == [] then [] else [subs[0] + [x], subs[0] + [x - 1]] + Expand(subs[1..], x)
  }

  /** Vector j of the expansion is vector j / 2 of subs extended by x when
      j is even and by x - 1 when j is odd. */
  lemma {:induction false} ExpandAt(subs: seq<seq<int>>, x: int, j: int)
    requires 0 <= j < 2 * |subs|
    ensures Expand(subs, x)[j] == subs[j / 2] + [if j % 2 == 0 then x else x - 1]
  {
    if j >= 2 {
      ExpandAt(subs[1..], x, j - 2);
      assert (j - 2) / 2 == j / 2 - 1 && (j - 2) % 2 == j % 2;
    }
  }

  /** The source's recursive construction of 2^(i+1) vectors of length
      i + 1 (SubsetHelperLengths, SubsetHelperEntries). */
  function SubsetHelper(idxs: seq<int>, i: int): (r: seq<seq<int>>)
    requires -1 <= i < |idxs|
    ensures |r| == Pow2(i + 1)
    decreases i + 1
  {
    if i == -1 then [[]] else Expand(SubsetHelper(idxs, i - 1), idxs[i])
  }

  /** Every constructed vector has length i + 1. */
  lemma {:induction false} SubsetHelperLengths(idxs: seq<int>, i: int)
    requires -1 <= i < |idxs|
    ensures forall j :: 0 <= j < Pow2(i + 1) ==> |SubsetHelper(idxs, i)[j]| == i + 1
  {
    if i >= 0 {
      SubsetHelperLengths(idxs, i - 1);
      var subs := SubsetHelper(idxs, i - 1);
      forall j | 0 <= j < Pow2(i + 1)
        ensures |SubsetHelper(idxs, i)[j]| == i + 1
      {
        ExpandAt(subs, idxs[i], j);
        assert j / 2 < Pow2(i);
      }
    }
  }

  /** Entry t of every constructed vector is idxs[t] or idxs[t] - 1. */
  lemma {:induction false} SubsetHelperEntries(idxs: seq<int>, i: int)
    requires -1 <= i < |idxs|
    ensures forall j, t :: 0 <= j < Pow2(i + 1) && 0 <= t <= i && t < |SubsetHelper(idxs, i)[j]| ==>
      SubsetHelper(idxs, i)[j][t] == idxs[t] || SubsetHelper(idxs, i)[j][t] == idxs[t] - 1
  {
    if i >= 0 {
      SubsetHelperEntries(idxs, i - 1);
      SubsetHelperLengths(idxs, i - 1);
      var subs := SubsetHelper(idxs, i - 1);
      forall j, t | 0 <= j < Pow2(i + 1) && 0 <= t <= i && t < |SubsetHelper(idxs, i)[j]|
        ensures SubsetHelper(idxs, i)[j][t] == idxs[t] || SubsetHelper(idxs, i)[j][t] == idxs[t] - 1
      {
        ExpandAt(subs, idxs[i], j);
        assert j / 2 < Pow2(i);
      }
    }
  }

  lemma BitsStep(n: nat, j: nat)
    requires n >= 1 && j < Pow2(n)
    ensures Bits(Pow2(n) - 1 - j, n) == Bits(Pow2(n - 1) - 1 - j / 2, n - 1) + [if j % 2 == 0 then 1 else 0]
  {
    var v := Pow2(n) - 1 - j;
    assert v / 2 == Pow2(n - 1) - 1 - j / 2;
    assert v % 2 == (if j % 2 == 0 then 1 else 0);
  }

  /** One doubling step of the construction over ones. */
  lemma OnesStep(subs: seq<seq<int>>, n: nat, j: nat)
    requires n >= 1 && |subs| == Pow2(n - 1) && j < Pow2(n)
    requires forall p :: 0 <= p < Pow2(n - 1) ==> subs[p] == Bits(Pow2(n - 1) - 1 - p, n - 1)
    ensures Expand(subs, 1)[j] == Bits(Pow2(n) - 1 - j, n)
  {
    assert j / 2 < Pow2(n - 1);
    ExpandAt(subs, 1, j);
    BitsStep(n, j);
  }

  lemma OnesStepAt(idxs: seq<int>, i: int, subs: seq<seq<int>>, j: nat)
    requires 0 <= i < |idxs| && idxs[i] == 1 && j < Pow2(i + 1)
    requires subs == SubsetHelper(idxs, i - 1)
    requires forall p :: 0 <= p < Pow2(i) ==> subs[p] == Bits(Pow2(i) - 1 - p, i)
    ensures SubsetHelper(idxs, i)[j] == Bits(Pow2(i + 1) - 1 - j, i + 1)
  {
    assert SubsetHelper(idxs, i) == Expand(subs, 1);
    OnesStep(subs, i + 1, j);
  }

  /** Applied to a vector of ones, the construction lists the binary
      numbers of i + 1 digits in descending order. */
  lemma {:induction false} SubsetHelperOfOnes(idxs: seq<int>, i: int)
    requires -1 <= i < |idxs|
    requires forall t :: 0 <= t <= i ==> idxs[t] == 1
    ensures forall j :: 0 <= j < Pow2(i + 1) ==> SubsetHelper(idxs, i)[j] == Bits(Pow2(i + 1) - 1 - j, i + 1)
  {
    if i >= 0 {
      SubsetHelperOfOnes(idxs, i - 1);
      forall j | 0 <= j < Pow2(i + 1)
        ensures SubsetHelper(idxs, i)[j] == Bits(Pow2(i + 1) - 1 - j, i + 1)
      {
        OnesStepAt(idxs, i, SubsetHelper(idxs, i - 1), j);
      }
    }
  }

  /** Each entry lowered by one. */
  function Decremented(idxs: seq<int>): (r: seq<int>)
    ensures |r| == |idxs|
  {
    seq(|idxs|, i requires 0 <= i < |idxs| => idxs[i] - 1)
  }

  method DecrementedIndices(idxs: seq<int>) returns (si: seq<int>)
    ensures |si| == |idxs|
    ensures forall i :: 0 <= i < |idxs| ==> si[i] == idxs[i] - 1
  {
    si := [];
    var i := 0;
    while i < |idxs|
      invariant 0 <= i <= |idxs|
      invariant |si| == i
      invariant forall j :: 0 <= j < i ==> si[j] == idxs[j] - 1
    {
      si := si + [idxs[i] - 1];
      i := i + 1;
    }
  }

  /** s1 agrees with s2 on all of s1's positions. */
  predicate Matches(s1: seq<int>, s2: seq<int>)
  {
    |s1| <= |s2| && s1 == s2[..|s1|]
  }

  /** Counts the positions where s1 and s2 agree, and reports whether all of
      s1's positions did. */
  method ArraysMatch(s1: seq<int>, s2: seq<int>) returns (r: bool)
    requires |s1| <= |s2|
    ensures r <==> s1 == s2[..|s1|]
  {
    var count := 0;
    var i := 0;
    while i < |s1|
      invariant 0 <= i <= |s1|
      invariant 0 <= count <= i
      invariant count == i <==> s1[..i] == s2[..i]
    {
      if s2[i] == s1[i] {
        count := count + 1;
      }
      assert s1[..i + 1] == s1[..i] + [s1[i]] && s2[..i + 1] == s2[..i] + [s2[i]];
      i := i + 1;
    }
    assert s1[..i] == s1;
    r := count == |s1|;
  }

  /** The vectors of ss, in order, that do not match si. */
  function Keep(ss: seq<seq<int>>, si: seq<int>): (r: seq<seq<int>>)
    ensures |r| <= |ss|
  {
    if ss == [] then []
    else Keep(ss[..|ss| - 1], si) + (if Matches(ss[|ss| - 1], si) then [] else [ss[|ss| - 1]])
  }

  /** Keep retains exactly the vectors of ss that do not match si. */
  lemma {:induction false} KeepMembers(ss: seq<seq<int>>, si: seq<int>)
    ensures forall e :: e in Keep(ss, si) <==> e in ss && !Matches(e, si)
  {
    if ss != [] {
      var init, last := ss[..|ss| - 1], ss[|ss| - 1];
      KeepMembers(init, si);
      assert ss == init + [last];
    }
  }

  lemma {:induction false} KeepNone(ss: seq<seq<int>>, si: seq<int>)
    requires forall j :: 0 <= j < |ss| ==> !Matches(ss[j], si)
    ensures Keep(ss, si) == ss
  {
    if ss != [] {
      KeepNone(ss[..|ss| - 1], si);
    }
  }

  /** When only the last vector matches, Keep drops exactly that one. */
  lemma KeepDropsLast(ss: seq<seq<int>>, si: seq<int>)
    requires |ss| >= 1 && Matches(ss[|ss| - 1], si)
    requires forall j :: 0 <= j < |ss| - 1 ==> !Matches(ss[j], si)
    ensures Keep(ss, si) == ss[..|ss| - 1]
  {
    KeepNone(ss[..|ss| - 1], si);
  }

  /** Keeps, in order, the subsets that do not match idxs lowered by one. */
  method PurgeAllGapCase(idxs: seq<int>, subsets: seq<seq<int>>) returns (ss: seq<seq<int>>)
    requires forall j :: 0 <= j < |subsets| ==> |subsets[j]| <= |idxs|
    ensures ss == Keep(subsets, Decremented(idxs))
  {
    var si := DecrementedIndices(idxs);
    assert si == Decremented(idxs);
    ss := [];
    var j := 0;
    while j < |subsets|
      invariant 0 <= j <= |subsets|
      invariant ss == Keep(subsets[..j], si)
    {
      var m := ArraysMatch(subsets[j], si);
      if !m {
        ss := ss + [subsets[j]];
      }
      assert subsets[..j + 1][..j] == subsets[..j];
      j := j + 1;
    }
    assert subsets[..j] == subsets;
  }

  /** Purging the all-lowered vector from the construction over ones leaves
      exactly the column masks. */
  lemma NonZeroBits(v: nat, k: nat)
    requires 1 <= v < Pow2(k)
    ensures Bits(v, k) != Zeros(k)
  {
    ValueOfBits(v, k);
    if Bits(v, k) == Zeros(k) {
      ZerosValue(Zeros(k));
      assert false;
    }
  }

  lemma OnesEarlierNotLowered(ss: seq<seq<int>>, k: nat, j: nat)
    requires |ss| == Pow2(k) && j < Pow2(k) - 1
    requires ss[j] == Bits(Pow2(k) - 1 - j, k)
    ensures !Matches(ss[j], Zeros(k)) && ss[j] == ColumnMasks(k)[j]
  {
    NonZeroBits(Pow2(k) - 1 - j, k);
  }

  /** Over ones, the lowered vector (all zeros) is the construction's last
      vector and matches none before it. */
  lemma OnesLastIsLowered(idxs: seq<int>, ss: seq<seq<int>>)
    requires forall t :: 0 <= t < |idxs| ==> idxs[t] == 1
    requires ss == SubsetHelper(idxs, |idxs| - 1)
    ensures Matches(ss[|ss| - 1], Decremented(idxs))
    ensures forall j :: 0 <= j < |ss| - 1 ==> !Matches(ss[j], Decremented(idxs)) && ss[j] == ColumnMasks(|idxs|)[j]
  {
    var k := |idxs|;
    SubsetHelperOfOnes(idxs, k - 1);
    ZerosBits(k);
    assert Decremented(idxs) == Zeros(k);
    forall j | 0 <= j < |ss| - 1
      ensures !Matches(ss[j], Zeros(k)) && ss[j] == ColumnMasks(k)[j]
    {
      OnesEarlierNotLowered(ss, k, j);
    }
  }

  lemma OnesPurged(idxs: seq<int>)
    requires forall t :: 0 <= t < |idxs| ==> idxs[t] == 1
    ensures Keep(SubsetHelper(idxs, |idxs| - 1), Decremented(idxs)) == ColumnMasks(|idxs|)
  {
    var ss := SubsetHelper(idxs, |idxs| - 1);
    OnesLastIsLowered(idxs, ss);
    KeepDropsLast(ss, Decremented(idxs));
    assert ss[..|ss| - 1] == ColumnMasks(|idxs|);
  }

  method FindSubsets(idxs: seq<int>) returns (ss: seq<seq<int>>)
    ensures ss == Keep(SubsetHelper(idxs, |idxs| - 1), Decremented(idxs))
    ensures (forall t :: 0 <= t < |idxs| ==> idxs[t] == 1) ==> ss == ColumnMasks(|idxs|)
  {
    var subsets := SubsetHelper(idxs, |idxs| - 1);
    SubsetHelperLengths(idxs, |idxs| - 1);
    ss := PurgeAllGapCase(idxs, subsets);
    if forall t :: 0 <= t < |idxs| ==> idxs[t] == 1 {
      OnesPurged(idxs);
    }
  }

  /** The masks for k sequences: a vector of k ones, expanded and purged. */
  method GenerateSubsetMasks(k: nat) returns (masks: seq<seq<int>>)
    ensures masks == ColumnMasks(k)
  {
    var x := [];
    var i := 0;
    while i < k
      invariant 0 <= i <= k
      invariant |x| == i
      invariant forall t :: 0 <= t < i ==> x[t] == 1
    {
      x := x + [1];
      i := i + 1;
    }
    masks := FindSubsets(x);
  }
}
