/** The wiring of the display: the eight GPIO lines that drive its segments
    and, for each decimal digit, the lines that must be lit to show it. */
module Segments {

  // GPIO numbers of the eight segment lines.
  const A: int := 4
  const B: int := 5
  const C: int := 6
  const D: int := 12
  const E: int := 13
  const F: int := 16
  const G: int := 17
  const H: int := 18

  /** The lines in the order the driver walks them (`all_pins`). */
  const AllPins: seq<int> := [A, B, C, D, E, F, G, H]

  /** The same lines as a set. */
  const PinSet: set<int> := {A, B, C, D, E, F, G, H}

  predicate IsDigit(d: int)
  {
    0 <= d <= 9
  }

  /** `AllPins` lists every segment line once and no other line. */
  lemma AllPinsExact()
    ensures |AllPins| == |PinSet| == 8
    ensures forall p :: p in AllPins <==> p in PinSet
    ensures forall i, j :: 0 <= i < j < |AllPins| ==> AllPins[i] != AllPins[j]
  {
  }

  /** The entry `numbers[d]` of the driver's table: the lines lit for digit
      `d`, in the order the driver raises them. Digit 0 is the six lines its
      initialiser lists (the C array is declared with room for only two).
      No entry carries a terminating 0, so these are exactly the listed lines. */
  function PatternPins(d: int): (s: seq<int>)
    requires IsDigit(d)
    ensures forall i :: 0 <= i < |s| ==> s[i] in PinSet
    ensures forall i, j :: 0 <= i < j < |s| ==> s[i] != s[j]
  {
    match d
    case 0 => [A, B, C, D, E, F]
    case 1 => [B, C]
    case 2 => [A, B, D, E, G, H]
    case 3 => [A, B, C, D, G, H]
    case 4 => [B, C, F, G, H]
    case 5 => [A, C, D, F, G, H]
    case 6 => [A, C, D, E, F, G, H]
    case 7 => [A, B, C]
    case 8 => [A, B, C, D, E, F, G, H]
    case 9 => [A, B, C, D, F, G, H]
  }

  /** The set of lines lit when digit `d` is shown. */
  function Pattern(d: int): (r: set<int>)
    requires IsDigit(d)
    ensures r <= PinSet
    ensures |r| == |PatternPins(d)|
  {
    var s := PatternPins(d);
    assert |set p | p in s| == |s| by {
      DistinctCard(s);
    }
    set p | p in s
  }

  /** A sequence without repetitions has as many elements as its set. */
  lemma {:induction false} DistinctCard(s: seq<int>)
    requires forall i, j :: 0 <= i < j < |s| ==> s[i] != s[j]
    ensures |set p | p in s| == |s|
  {
    if s != [] {
      DistinctCard(s[1..]);
      var rest := set p | p in s[1..];
      assert (set p | p in s) == rest + {s[0]};
      assert s[0] !in rest;
    }
  }

  /** The lines of `lit` as an eight-bit code, bit k standing for `AllPins[k]`. */
  function Code(lit: set<int>): (r: int)
    ensures 0 <= r < 256
  {
    (if A in lit then 1 else 0) + (if B in lit then 2 else 0) +
    (if C in lit then 4 else 0) + (if D in lit then 8 else 0) +
    (if E in lit then 16 else 0) + (if F in lit then 32 else 0) +
    (if G in lit then 64 else 0) + (if H in lit then 128 else 0)
  }

  /** The code of each digit's lines, from the table entries:
      0: A+B+C+D+E+F     = 1+2+4+8+16+32        = 63
      1: B+C             = 2+4                  = 6
      2: A+B+D+E+G+H     = 1+2+8+16+64+128      = 219
      3: A+B+C+D+G+H     = 1+2+4+8+64+128       = 207
      4: B+C+F+G+H       = 2+4+32+64+128        = 230
      5: A+C+D+F+G+H     = 1+4+8+32+64+128      = 237
      6: A+C+D+E+F+G+H   = 1+4+8+16+32+64+128   = 253
      7: A+B+C           = 1+2+4                = 7
      8: all eight lines                        = 255
      9: A+B+C+D+F+G+H   = 1+2+4+8+32+64+128    = 239 */
  lemma CodeOfPattern(d: int)
    requires IsDigit(d)
    ensures Code(Pattern(d)) == [63, 6, 219, 207, 230, 237, 253, 7, 255, 239][d]
  {
    var s := PatternPins(d);
    assert forall p :: p in Pattern(d) <==> p in s;
  }

  /** No two digits light the same lines, so every digit can be read off
      the display. */
  lemma PatternsDistinct(d1: int, d2: int)
    requires IsDigit(d1) && IsDigit(d2) && d1 != d2
    ensures Pattern(d1) != Pattern(d2)
  {
    CodeOfPattern(d1);
    CodeOfPattern(d2);
  }
}
