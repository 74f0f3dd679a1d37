/** The zig-zag scans of 4x4 and 8x8 blocks. */
module ScanTables {
  const ZIGZAG_4X4: seq<nat> := [
    0, 1, 4, 8,
    5, 2, 3, 6,
    9, 12, 13, 10,
    7, 11, 14, 15]

  function FirstHalf(i: nat): nat {
    match i
    case 0 => 0 case 1 => 1 case 2 => 8 case 3 => 16 case 4 => 9 case 5 => 2 case 6 => 3 case 7 => 10
    case 8 => 17 case 9 => 24 case 10 => 32 case 11 => 25 case 12 => 18 case 13 => 11 case 14 => 4 case 15 => 5
    case 16 => 12 case 17 => 19 case 18 => 26 case 19 => 33 case 20 => 40 case 21 => 48 case 22 => 41 case 23 => 34
    case 24 => 27 case 25 => 20 case 26 => 13 case 27 => 6 case 28 => 7 case 29 => 14 case 30 => 21 case 31 => 28
    case _ => 64
  }

  function SecondHalf(i: nat): nat {
    match i
    case 0 => 35 case 1 => 42 case 2 => 49 case 3 => 56 case 4 => 57 case 5 => 50 case 6 => 43 case 7 => 36
    case 8 => 29 case 9 => 22 case 10 => 15 case 11 => 23 case 12 => 30 case 13 => 37 case 14 => 44 case 15 => 51
    case 16 => 58 case 17 => 59 case 18 => 52 case 19 => 45 case 20 => 38 case 21 => 31 case 22 => 39 case 23 => 46
    case 24 => 53 case 25 => 60 case 26 => 61 case 27 => 54 case 28 => 47 case 29 => 55 case 30 => 62 case 31 => 63
    case _ => 64
  }

  function ZigZag8x8(i: nat): nat {
    if i < 32 then FirstHalf(i) else SecondHalf(i - 32)
  }

  function WhenUpper(i: nat): nat {
    match i
    case 0 => 0 case 1 => 1 case 2 => 5 case 3 => 6 case 4 => 14 case 5 => 15 case 6 => 27 case 7 => 28
    case 8 => 2 case 9 => 4 case 10 => 7 case 11 => 13 case 12 => 16 case 13 => 26 case 14 => 29 case 15 => 42
    case 16 => 3 case 17 => 8 case 18 => 12 case 19 => 17 case 20 => 25 case 21 => 30 case 22 => 41 case 23 => 43
    case 24 => 9 case 25 => 11 case 26 => 18 case 27 => 24 case 28 => 31 case 29 => 40 case 30 => 44 case 31 => 53
    case _ => 64
  }

  function WhenLower(i: nat): nat {
    match i
    case 0 => 10 case 1 => 19 case 2 => 23 case 3 => 32 case 4 => 39 case 5 => 45 case 6 => 52 case 7 => 54
    case 8 => 20 case 9 => 22 case 10 => 33 case 11 => 38 case 12 => 46 case 13 => 51 case 14 => 55 case 15 => 60
    case 16 => 21 case 17 => 34 case 18 => 37 case 19 => 47 case 20 => 50 case 21 => 56 case 22 => 59 case 23 => 61
    case 24 => 35 case 25 => 36 case 26 => 48 case 27 => 49 case 28 => 57 case 29 => 58 case 30 => 62 case 31 => 63
    case _ => 64
  }

  /** When the scan comes to position i. */
  function When8x8(i: nat): nat {
    if i < 32 then WhenUpper(i) else WhenLower(i - 32)
  }

  const ZIGZAG_8X8: seq<nat> := seq(64, i requires 0 <= i < 64 => ZigZag8x8(i))

  /** Each position is scanned exactly once. */
  ghost predicate IsScan(scan: seq<nat>) {
    && (forall i | 0 <= i < |scan| :: scan[i] < |scan|)
    && (forall i, j | 0 <= i < j < |scan| :: scan[i] != scan[j])
  }

  lemma Scan4x4()
    ensures |ZIGZAG_4X4| == 16 && IsScan(ZIGZAG_4X4)
  {
  }

  lemma ScannedOnce(i: nat)
    requires i < 64
    ensures ZigZag8x8(i) < 64 && When8x8(ZigZag8x8(i)) == i
  {
    if i < 32 {
      FirstScanned(i);
    } else {
      SecondScanned(i - 32);
    }
  }

  lemma FirstScanned(i: nat)
    requires i < 32
    ensures FirstHalf(i) < 64 && When8x8(FirstHalf(i)) == i
  {
  }

  lemma SecondScanned(i: nat)
    requires i < 32
    ensures SecondHalf(i) < 64 && When8x8(SecondHalf(i)) == i + 32
  {
  }

  lemma Scan8x8()
    ensures |ZIGZAG_8X8| == 64 && IsScan(ZIGZAG_8X8)
  {
    forall i | 0 <= i < 64
      ensures ZIGZAG_8X8[i] < 64 && When8x8(ZIGZAG_8X8[i]) == i
    {
      ScannedOnce(i);
    }
  }

  // ---------- the path of the scan

  /** The position behind k on the zig-zag path over n rows of n: up and to the right on the
      diagonals of even number, down and to the left on the others. */
  function Onwards(k: nat, n: nat): nat
    requires n > 0
  {
    var r, c := k / n, k % n;
    if (r + c) % 2 == 0 then
      if c == n - 1 then k + n else if r == 0 then k + 1 else k + 1 - n
    else
      if r == n - 1 then k + 1 else if c == 0 then k + n else k + n - 1
  }

  /** The 4x4 scan starts in the corner and follows the path. */
  lemma Path4x4(i: nat)
    requires i < 15
    ensures ZIGZAG_4X4[0] == 0 && ZIGZAG_4X4[i + 1] == Onwards(ZIGZAG_4X4[i], 4)
  {
  }

  lemma FirstOnwards(i: nat)
    requires i < 31
    ensures FirstHalf(i + 1) == Onwards(FirstHalf(i), 8)
  {
  }

  lemma SecondOnwards(i: nat)
    requires i < 31
    ensures SecondHalf(i + 1) == Onwards(SecondHalf(i), 8)
  {
  }

  /** So does the 8x8 scan. */
  lemma Path8x8(i: nat)
    requires i < 63
    ensures ZIGZAG_8X8[0] == 0 && ZIGZAG_8X8[i + 1] == Onwards(ZIGZAG_8X8[i], 8)
  {
    if i < 31 {
      FirstOnwards(i);
    } else if i > 31 {
      SecondOnwards(i - 32);
    }
  }
}
