/** Nucleotide bases and the mapping from input characters to bases. */
module Bases {

  /** A nucleotide base; X is the gap symbol "-". */
  datatype Base = A | C | G | T | X

  /** A sequence is the ordered list of its bases. */
  type Sequence = seq<Base>

  /** The character that denotes a base (the gap is written '-'). */
  function BaseChar(b: Base): char
  {
    match b
    case A => 'A'
    case C => 'C'
    case G => 'G'
    case T => 'T'
    case X => '-'
  }

  /** Maps one input character to a base: the four upper-case letters map to
      their base and every other character silently becomes the gap. */
  function ConvertBase(c: char): (r: Base)
    ensures r == X <==> c !in "ACGT"
    ensures r != X ==> BaseChar(r) == c
  {
    match c
    case 'A' => A
    case 'C' => C
    case 'G' => G
    case 'T' => T
    case _ => X
  }

  /** Reading back the character of a base gives that base. */
  lemma CharRoundTrip(b: Base)
    ensures ConvertBase(BaseChar(b)) == b
  {
  }

  /** The base sequence denoted by a string, one base per character. */
  function ToBases(s: string): (r: Sequence)
    ensures |r| == |s|
  {
    seq(|s|, i requires 0 <= i < |s| => ConvertBase(s[i]))
  }

  /** Builds the sequence of a string by appending one base per character. */
  method ConvertSequence(s: string) returns (bases: Sequence)
    ensures |bases| == |s|
    ensures forall i :: 0 <= i < |s| ==> bases[i] == ConvertBase(s[i])
  {
    bases := [];
    var i := 0;
    while i < |s|
      invariant 0 <= i <= |s|
      invariant |bases| == i
      invariant forall j :: 0 <= j < i ==> bases[j] == ConvertBase(s[j])
    {
      bases := bases + [ConvertBase(s[i])];
      i := i + 1;
    }
  }
}
