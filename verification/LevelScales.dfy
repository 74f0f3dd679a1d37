/** The level scale products of AVC scaling lists (section 8.5.9 of H.264). */
module LevelScales {
  const ADJUST_4X4: seq<seq<int>> := [
    [10, 16, 13],
    [11, 18, 14],
    [13, 20, 16],
    [14, 23, 18],
    [16, 25, 20],
    [18, 29, 23]]

  const ADJUST_8X8: seq<seq<int>> := [
    [20, 18, 32, 19, 25, 24],
    [22, 19, 35, 21, 28, 26],
    [26, 23, 42, 24, 33, 31],
    [28, 25, 45, 26, 35, 33],
    [32, 28, 51, 30, 40, 38],
    [36, 32, 58, 34, 46, 43]]

  const INDEX_4X4: seq<nat> := [
    0, 2, 0, 2,
    2, 1, 2, 1,
    0, 2, 0, 2,
    2, 1, 2, 1]

  const INDEX_8X8: seq<seq<nat>> := [
    [0, 3, 4, 3, 0, 3, 4, 3],
    [3, 1, 5, 1, 3, 1, 5, 1],
    [4, 5, 2, 5, 4, 5, 2, 5],
    [3, 1, 5, 1, 3, 1, 5, 1],
    [0, 3, 4, 3, 0, 3, 4, 3],
    [3, 1, 5, 1, 3, 1, 5, 1],
    [4, 5, 2, 5, 4, 5, 2, 5],
    [3, 1, 5, 1, 3, 1, 5, 1]]

  /** The class of position (i, j) of a 4x4 block that the standard's normAdjust4x4 uses. */
  function Class4x4(i: nat, j: nat): nat {
    if i % 2 == 0 && j % 2 == 0 then 0 else if i % 2 == 1 && j % 2 == 1 then 1 else 2
  }

  /** The class of position (i, j) of an 8x8 block that the standard's normAdjust8x8 uses. */
  function Class8x8(i: nat, j: nat): nat {
    if i % 4 == 0 && j % 4 == 0 then 0
    else if i % 2 == 1 && j % 2 == 1 then 1
    else if i % 4 == 2 && j % 4 == 2 then 2
    else if (i % 4 == 0 && j % 2 == 1) || (i % 2 == 1 && j % 4 == 0) then 3
    else if (i % 4 == 0 && j % 4 == 2) || (i % 4 == 2 && j % 4 == 0) then 4
    else 5
  }

  function Adjust4x4(m: nat, k: nat): (v: int)
    requires m < 6 && k < 16
    ensures v == ADJUST_4X4[m][Class4x4(k / 4, k % 4)]
    ensures 10 <= v <= 29
  {
    ADJUST_4X4[m][INDEX_4X4[k]]
  }

  function Adjust8x8(m: nat, k: nat): (v: int)
    requires m < 6 && k < 64
    ensures v == ADJUST_8X8[m][Class8x8(k / 8, k % 8)]
    ensures 18 <= v <= 58
  {
    ADJUST_8X8[m][INDEX_8X8[k / 8][k % 8]]
  }

  /** The 16-bit two's complement number with the low-order bits of x. */
  function Int16(x: int): int {
    (x + 0x8000) % 0x1_0000 - 0x8000
  }

  /** A product of a scale and an adjustment fits its 16 bits. */
  lemma ProductFits(scale: nat, adjust: int)
    requires 1 <= scale <= 255 && 0 < adjust <= 58
    ensures 0 < scale * adjust < 0x8000 && Int16(scale * adjust) == scale * adjust
  {
    assert scale * adjust <= 255 * adjust;
  }

  /** The adjustments of every position, a row for each remainder of the quantiser by 6. */
  function Adjustments4x4(): seq<seq<int>> {
    seq(6, m requires 0 <= m < 6 => seq(16, k requires 0 <= k < 16 => Adjust4x4(m, k)))
  }

  function Adjustments8x8(): seq<seq<int>> {
    seq(6, m requires 0 <= m < 6 => seq(64, k requires 0 <= k < 64 => Adjust8x8(m, k)))
  }

  ghost predicate InRange(adjust: seq<int>) {
    forall k | 0 <= k < |adjust| :: 0 < adjust[k] <= 58
  }

  const NUM_LEVELS: nat := 88

  /** Row j of the levels holds the products up to position n. */
  ghost predicate RowDone(c: array<nat>, adjust: seq<int>, levels: array2<int>, j: nat, n: nat)
    requires n <= c.Length == levels.Length1 == |adjust| && j < levels.Length0
    reads c, levels
  {
    forall k {:trigger levels[j, k]} | 0 <= k < n :: levels[j, k] == c[k] * adjust[k]
  }

  /** The inner loop: the products of one quantiser. */
  method FillRow(c: array<nat>, adjust: seq<int>, levels: array2<int>, j: nat)
    requires c.Length == levels.Length1 == |adjust| && j < levels.Length0 && InRange(adjust)
    requires forall k | 0 <= k < c.Length :: 1 <= c[k] <= 255
    modifies levels
    ensures RowDone(c, adjust, levels, j, c.Length)
    ensures forall i, k | 0 <= i < levels.Length0 && i != j && 0 <= k < c.Length :: levels[i, k] == old(levels[i, k])
  {
    for k := 0 to c.Length
      invariant RowDone(c, adjust, levels, j, k)
      invariant forall i, l | 0 <= i < levels.Length0 && i != j && 0 <= l < c.Length ::
        levels[i, l] == old(levels[i, l])
    {
      ProductFits(c[k], adjust[k]);
      levels[j, k] := Int16(c[k] * adjust[k]);
    }
  }

  /** The level-scale loops of either size: the products are stored without truncation. */
  method LevelScale(c: array<nat>, adjust: seq<seq<int>>, levels: array2<int>)
    requires |adjust| == 6 && levels.Length0 == NUM_LEVELS && c.Length == levels.Length1
    requires forall m | 0 <= m < 6 :: |adjust[m]| == c.Length && InRange(adjust[m])
    requires forall k | 0 <= k < c.Length :: 1 <= c[k] <= 255
    modifies levels
    ensures forall j | 0 <= j < NUM_LEVELS :: RowDone(c, adjust[j % 6], levels, j, c.Length)
  {
    for j := 0 to NUM_LEVELS
      invariant forall i | 0 <= i < j :: RowDone(c, adjust[i % 6], levels, i, c.Length)
    {
      FillRow(c, adjust[j % 6], levels, j);
    }
  }

  /** The tables of both sizes meet what the loops need. */
  lemma TablesInRange(m: nat)
    requires m < 6
    ensures |Adjustments4x4()[m]| == 16 && InRange(Adjustments4x4()[m])
    ensures |Adjustments8x8()[m]| == 64 && InRange(Adjustments8x8()[m])
  {
  }
}
