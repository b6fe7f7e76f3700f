/**
 * The two padding helpers of the tree report. Both take their padding from a
 * fixed 120-space buffer and compute the gap with size_t subtraction, so a
 * string longer than the field wraps the gap around and gets the full 120
 * spaces.
 */
module Padding {
  import opened MachineInts

  /** Length of the whitespace buffer. */
  const MaxPad: nat := 120


  /** size_t subtraction `a - b`, wrapping modulo 2^64. */
  function SizeSub(a: nat, b: nat): (d: nat)
    ensures d < SizeMod
    ensures a < SizeMod && b <= a ==> d == a - b
    ensures a < b < SizeMod ==> d == SizeMod - (b - a)
  {
    (a - b) % SizeMod
  }

  function Spaces(n: nat): (r: string)
    ensures |r| == n && forall i | 0 <= i < n :: r[i] == ' '
  {
    seq(n, _ => ' ')
  }

  /** `pad_right(str, width)`: `str`, then min(120, width + 1 - |str|) spaces in size_t arithmetic. */
  function PadRight(str: string, width: nat): (r: string)
    ensures |str| <= |r| <= |str| + MaxPad
    ensures r[..|str|] == str
    ensures forall i | |str| <= i < |r| :: r[i] == ' '
  {
    str + Spaces(Min(MaxPad, SizeSub(1 + width, |str|)))
  }

  /** `pad_left(str, width)`: min(120, width - |str|) spaces in size_t arithmetic, then `str`, then one space. */
  function PadLeft(str: string, width: nat): (r: string)
    ensures |str| + 1 <= |r| <= |str| + 1 + MaxPad
    ensures r[|r| - 1 - |str|..|r| - 1] == str && r[|r| - 1] == ' '
    ensures forall i | 0 <= i < |r| - 1 - |str| :: r[i] == ' '
  {
    Spaces(Min(MaxPad, SizeSub(width, |str|))) + str + " "
  }

  /** A string that fits leaves a field of exactly width + 1 characters (while the gap is at most 120). */
  lemma PadRightFits(str: string, width: nat)
    requires |str| <= width + 1 < SizeMod
    requires width + 1 - |str| <= MaxPad
    ensures |PadRight(str, width)| == width + 1
  {
  }

  /** A gap wider than the buffer is capped at 120 spaces. */
  lemma PadRightCapped(str: string, width: nat)
    requires |str| <= width + 1 < SizeMod
    requires width + 1 - |str| > MaxPad
    ensures |PadRight(str, width)| == |str| + MaxPad
  {
  }

  /** A string longer than width + 1 wraps the size_t gap around, and 120 spaces follow it. */
  lemma PadRightOverlong(str: string, width: nat)
    requires width + 1 < |str| <= SizeMod - MaxPad
    ensures |PadRight(str, width)| == |str| + MaxPad
  {
  }

  /** A string that fits is right-aligned in a field of width characters, followed by a separator. */
  lemma PadLeftFits(str: string, width: nat)
    requires |str| <= width < SizeMod
    requires width - |str| <= MaxPad
    ensures |PadLeft(str, width)| == width + 1
  {
  }

  /** A string that fits but leaves a gap wider than the buffer gets exactly 120 leading spaces. */
  lemma PadLeftCapped(str: string, width: nat)
    requires |str| <= width < SizeMod
    requires width - |str| > MaxPad
    ensures |PadLeft(str, width)| == MaxPad + |str| + 1
  {
  }

  /** A string longer than the width wraps the gap around and gets 120 leading spaces. */
  lemma PadLeftOverlong(str: string, width: nat)
    requires width < |str| <= SizeMod - MaxPad
    ensures |PadLeft(str, width)| == MaxPad + |str| + 1
  {
  }
}
