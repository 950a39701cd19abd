/** Sum-of-pairs scoring of one alignment column. All constants are doubled
    so that the arithmetic stays on integers. */
module Scoring {
  import opened Bases

  const Match := 6
  const Mismatch := -4
  const Gap := -3

  /** The score of two bases (or gaps) placed in the same column. */
  function PairScore(b1: Base, b2: Base): (r: int)
    ensures r == (if b1 == b2 then (if b1 == X then 0 else Match)
                  else if b1 == X || b2 == X then Gap
                  else Mismatch)
  {
    if b1 == X && b2 == X then 0
    else if (b1 == X && b2 != X) || (b2 == X && b1 != X) then Gap
    else if b1 != b2 then Mismatch
    else Match
  }

  lemma PairScoreSymmetric(b1: Base, b2: Base)
    ensures PairScore(b1, b2) == PairScore(b2, b1)
  {
  }

  /** The sum of PairScore(x, y) over the elements y of s. */
  function RowScore(x: Base, s: seq<Base>): int
  {
    if s == [] then 0 else RowScore(x, s[..|s| - 1]) + PairScore(x, s[|s| - 1])
  }

  /** The sum of PairScore(b[i], b[j]) over all positions i < j. */
  function ColumnScore(b: seq<Base>): int
  {
    if b == [] then 0 else RowScore(b[0], b[1..]) + ColumnScore(b[1..])
  }

  /** Sums the pair scores of a column, row by row, as the source does:
      every position but the last against every later position. */
  method Score(bases: seq<Base>) returns (sum: int)
    requires |bases| > 0
    ensures sum == ColumnScore(bases)
  {
    sum := 0;
    var n := |bases|;
    var i := 0;
    while i < n - 1
      invariant 0 <= i <= n - 1
      invariant sum + ColumnScore(bases[i..]) == ColumnScore(bases)
    {
      assert bases[i..][1..] == bases[i + 1..];
      var row := RowSum(bases[i], bases[i + 1..]);
      sum := sum + row;
      i := i + 1;
    }
    assert bases[n - 1..][1..] == [];
  }

  /** The inner loop of Score: the pair scores of x against every element of s. */
  method RowSum(x: Base, s: seq<Base>) returns (sum: int)
    ensures sum == RowScore(x, s)
  {
    sum := 0;
    var j := 0;
    while j < |s|
      invariant 0 <= j <= |s|
      invariant sum == RowScore(x, s[..j])
    {
      assert s[..j + 1][..j] == s[..j];
      sum := sum + PairScore(x, s[j]);
      j := j + 1;
    }
    assert s[..j] == s;
  }

  // ----- Closed form: the column score depends only on how many of each base
  //       the column holds -----

  function Count(b: seq<Base>, c: Base): nat
  {
    multiset(b)[c]
  }

  /** How many of each base, and of gaps, a column holds. */
  datatype Tally = Tally(a: nat, c: nat, g: nat, t: nat, x: nat)
  {
    function Of(y: Base): nat
    {
      match y
      case A => a
      case C => c
      case G => g
      case T => t
      case X => x
    }

    /** The number of non-gap entries. */
    function Residues(): nat
    {
      a + c + g + t
    }

    /** The tally with one more y. */
    function Bump(y: Base): (r: Tally)
      ensures r.Of(y) == Of(y) + 1
      ensures forall z :: z != y ==> r.Of(z) == Of(z)
    {
      match y
      case A => this.(a := a + 1)
      case C => this.(c := c + 1)
      case G => this.(g := g + 1)
      case T => this.(t := t + 1)
      case X => this.(x := x + 1)
    }
  }

  function TallyOf(b: seq<Base>): Tally
  {
    Tally(Count(b, A), Count(b, C), Count(b, G), Count(b, T), Count(b, X))
  }

  /** n choose 2. */
  function Choose2(n: nat): nat
  {
    if n == 0 then 0 else Choose2(n - 1) + (n - 1)
  }

  /** The column score as the source's scheme defines it, from the numbers
      a, c, g, t of each base and x of gaps: Match per pair of equal bases,
      Mismatch per pair of distinct bases, Gap per base-gap pair, nothing per
      gap-gap pair. */
  function ScoreOfCounts(a: nat, c: nat, g: nat, t: nat, x: nat): int
  {
    Match * (Choose2(a) + Choose2(c) + Choose2(g) + Choose2(t))
    + Mismatch * (a * c + a * g + a * t + c * g + c * t + g * t)
    + Gap * (x * (a + c + g + t))
  }

  function TallyScore(tl: Tally): int
  {
    ScoreOfCounts(tl.a, tl.c, tl.g, tl.t, tl.x)
  }

  /** The score of one entry y against entries with tally tl. */
  function RowOfTally(y: Base, tl: Tally): int
  {
    if y == X then Gap * tl.Residues()
    else Match * tl.Of(y) + Mismatch * (tl.Residues() - tl.Of(y)) + Gap * tl.x
  }

  lemma RowOfTallyBump(y: Base, tl: Tally, z: Base)
    ensures RowOfTally(y, tl.Bump(z)) == RowOfTally(y, tl) + PairScore(y, z)
  {
  }

  lemma SnocTally(s: seq<Base>, z: Base)
    ensures TallyOf(s + [z]) == TallyOf(s).Bump(z)
  {
    assert multiset(s + [z]) == multiset(s) + multiset{z};
  }

  lemma RowScoreLast(y: Base, s: seq<Base>)
    requires s != []
    requires RowScore(y, s[..|s| - 1]) == RowOfTally(y, TallyOf(s[..|s| - 1]))
    ensures RowScore(y, s) == RowOfTally(y, TallyOf(s))
  {
    var init, last := s[..|s| - 1], s[|s| - 1];
    assert s == init + [last];
    SnocTally(init, last);
    RowOfTallyBump(y, TallyOf(init), last);
  }

  lemma ZeroRow(y: Base, tl: Tally)
    requires tl == Tally(0, 0, 0, 0, 0)
    ensures RowOfTally(y, tl) == 0
  {
  }

  /** RowScore in terms of the counts of s. */
  lemma {:induction false} RowScoreCounts(y: Base, s: seq<Base>)
    ensures RowScore(y, s) == RowOfTally(y, TallyOf(s))
  {
    if s == [] {
      ZeroRow(y, TallyOf(s));
    } else {
      RowScoreCounts(y, s[..|s| - 1]);
      RowScoreLast(y, s);
    }
  }

  lemma ConsTally(y: Base, s: seq<Base>)
    ensures TallyOf([y] + s) == TallyOf(s).Bump(y)
  {
    assert multiset([y] + s) == multiset{y} + multiset(s);
  }

  /** One more A adds Match per other A, Mismatch per other base and Gap per
      gap; likewise for C, G and T, whose counts enter ScoreOfCounts the same
      way. */
  lemma CountsStepFirst(a: nat, c: nat, g: nat, t: nat, x: nat)
    ensures ScoreOfCounts(a + 1, c, g, t, x)
         == ScoreOfCounts(a, c, g, t, x) + Match * a + Mismatch * (c + g + t) + Gap * x
  {
    assert Choose2(a + 1) == Choose2(a) + a;
    assert (a + 1) * c == a * c + c && (a + 1) * g == a * g + g && (a + 1) * t == a * t + t;
    assert x * (a + 1 + c + g + t) == x * (a + c + g + t) + x;
  }

  /** ScoreOfCounts is symmetric in the four base counts. */
  lemma CountsSwap(a: nat, c: nat, g: nat, t: nat, x: nat)
    ensures ScoreOfCounts(a, c, g, t, x) == ScoreOfCounts(c, a, g, t, x)
    ensures ScoreOfCounts(a, c, g, t, x) == ScoreOfCounts(g, c, a, t, x)
    ensures ScoreOfCounts(a, c, g, t, x) == ScoreOfCounts(t, c, g, a, x)
  {
    assert a * c == c * a && a * g == g * a && a * t == t * a;
    assert c * g == g * c && c * t == t * c && g * t == t * g;
  }

  lemma BumpScoreA(tl: Tally)
    ensures TallyScore(tl.Bump(A)) == TallyScore(tl) + RowOfTally(A, tl)
  {
    CountsStepFirst(tl.a, tl.c, tl.g, tl.t, tl.x);
  }

  lemma BumpScoreC(tl: Tally)
    ensures TallyScore(tl.Bump(C)) == TallyScore(tl) + RowOfTally(C, tl)
  {
    var a, c, g, t, x := tl.a, tl.c, tl.g, tl.t, tl.x;
    CountsSwap(a, c, g, t, x);
    CountsSwap(a, c + 1, g, t, x);
    CountsStepFirst(c, a, g, t, x);
  }

  lemma BumpScoreG(tl: Tally)
    ensures TallyScore(tl.Bump(G)) == TallyScore(tl) + RowOfTally(G, tl)
  {
    var a, c, g, t, x := tl.a, tl.c, tl.g, tl.t, tl.x;
    CountsSwap(a, c, g, t, x);
    CountsSwap(a, c, g + 1, t, x);
    CountsStepFirst(g, c, a, t, x);
  }

  lemma BumpScoreT(tl: Tally)
    ensures TallyScore(tl.Bump(T)) == TallyScore(tl) + RowOfTally(T, tl)
  {
    var a, c, g, t, x := tl.a, tl.c, tl.g, tl.t, tl.x;
    CountsSwap(a, c, g, t, x);
    CountsSwap(a, c, g, t + 1, x);
    CountsStepFirst(t, c, g, a, x);
  }

  /** One more gap adds a Gap for each base. */
  lemma BumpScoreX(tl: Tally)
    ensures TallyScore(tl.Bump(X)) == TallyScore(tl) + RowOfTally(X, tl)
  {
    var a, c, g, t, x := tl.a, tl.c, tl.g, tl.t, tl.x;
    assert (x + 1) * (a + c + g + t) == x * (a + c + g + t) + (a + c + g + t);
  }

  /** One more entry y adds its pairs with the others to TallyScore. */
  lemma TallyScoreBump(tl: Tally, y: Base)
    ensures TallyScore(tl.Bump(y)) == TallyScore(tl) + RowOfTally(y, tl)
  {
    match y
    case A => BumpScoreA(tl);
    case C => BumpScoreC(tl);
    case G => BumpScoreG(tl);
    case T => BumpScoreT(tl);
    case X => BumpScoreX(tl);
  }

  function ClosedScore(b: seq<Base>): int
  {
    TallyScore(TallyOf(b))
  }

  /** Adding y to the front of s adds exactly RowScore(y, s) to ClosedScore. */
  lemma ClosedScoreCons(y: Base, s: seq<Base>)
    ensures ClosedScore([y] + s) == ClosedScore(s) + RowScore(y, s)
  {
    RowScoreCounts(y, s);
    ConsTally(y, s);
    TallyScoreBump(TallyOf(s), y);
  }

  /** The source's row-by-row sum equals the closed form. */
  lemma {:induction false} ColumnScoreClosed(b: seq<Base>)
    ensures ColumnScore(b) == ClosedScore(b)
  {
    if b != [] {
      ColumnScoreClosed(b[1..]);
      assert b == [b[0]] + b[1..];
      ClosedScoreCons(b[0], b[1..]);
    }
  }

  /** Reordering the entries of a column does not change its score. */
  lemma ColumnScorePermutation(b1: seq<Base>, b2: seq<Base>)
    requires multiset(b1) == multiset(b2)
    ensures ColumnScore(b1) == ColumnScore(b2)
  {
    ColumnScoreClosed(b1);
    ColumnScoreClosed(b2);
  }

  /** A column with a single entry, or with only gaps, scores 0. */
  lemma ColumnScoreNoPairs(b: seq<Base>)
    ensures |b| <= 1 ==> ColumnScore(b) == 0
    ensures (forall i :: 0 <= i < |b| ==> b[i] == X) ==> ColumnScore(b) == 0
  {
    if |b| == 1 {
      assert b[1..] == [];
    }
    if forall i :: 0 <= i < |b| ==> b[i] == X {
      AllGapsScoreZero(b);
    }
  }

  lemma AllGapsScoreZero(b: seq<Base>)
    requires forall i :: 0 <= i < |b| ==> b[i] == X
    ensures ColumnScore(b) == 0
  {
    ColumnScoreClosed(b);
    UniformCounts(b, X);
    GapsOnlyScoreZero(TallyOf(b));
  }

  lemma GapsOnlyScoreZero(tl: Tally)
    requires tl.a == 0 && tl.c == 0 && tl.g == 0 && tl.t == 0
    ensures TallyScore(tl) == 0
  {
  }

  /** A column of n copies of one base scores Match for each of its n choose 2 pairs. */
  lemma ColumnScoreUniform(b: seq<Base>, y: Base)
    requires y != X
    requires forall i :: 0 <= i < |b| ==> b[i] == y
    ensures ColumnScore(b) == Match * Choose2(|b|)
  {
    ColumnScoreClosed(b);
    UniformCounts(b, y);
    var n := |b|;
    match y
    case A => assert TallyOf(b) == Tally(n, 0, 0, 0, 0);
    case C => assert TallyOf(b) == Tally(0, n, 0, 0, 0);
    case G => assert TallyOf(b) == Tally(0, 0, n, 0, 0);
    case T => assert TallyOf(b) == Tally(0, 0, 0, n, 0);
  }

  lemma {:induction false} UniformCounts(b: seq<Base>, y: Base)
    requires forall i :: 0 <= i < |b| ==> b[i] == y
    ensures Count(b, y) == |b|
    ensures forall c :: c != y ==> Count(b, c) == 0
  {
    if b != [] {
      var init := b[..|b| - 1];
      UniformCounts(init, y);
      assert b == init + [y];
      assert multiset(b) == multiset(init) + multiset{y};
    }
  }
}
