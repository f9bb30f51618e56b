/** The table of squares in between of src/bitwise.cpp:253-274, computed
    without a lookup: a line pattern chosen by arithmetic on the two
    squares' files and ranks, moved into place by a multiplication and cut
    to the range between them. */
module Between {
  import opened Bits
  import opened Attacks

  /** The line patterns, each starting next to square 0: A2..A7 (a file),
      B1..G1 (a rank), B2..G7 (a diagonal) and H1..B7 (an anti-diagonal). */
  const A2A7: bv64 := 0x0001_0101_0101_0100
  const B1G1: bv64 := 0x7E
  const B2G7: bv64 := 0x0040_2010_0804_0200
  const H1B7: bv64 := 0x0002_0408_1020_4080

  function Min(a: Index, b: Index): Index { if a < b then a else b }

  /** `m1 << from ^ m1 << to`: the squares from the lower of the two up to,
      but not including, the higher. */
  function IndexRange(from: Index, to: Index): bv64
  {
    var m1: bv64 := 0xFFFF_FFFF_FFFF_FFFF;
    (m1 << from) ^ (m1 << to)
  }

  /** `line` before the multiplication: the sum of the four masked terms. */
  function LinePattern(from: Index, to: Index): bv64
  {
    var file := (to & 7) as bv64 - (from & 7) as bv64;
    var rank := ((to | 7) as bv64 - from as bv64) >> 3;
    var line := ((file & 7) - 1) & A2A7;
    var line := line + 2 * (((rank & 7) - 1) >> 58);
    var line := line + ((((rank - file) & 15) - 1) & B2G7);
    line + ((((rank + file) & 15) - 1) & H1B7)
  }

  /** `betweenTable[from][to]`: `line *= btwn & -btwn` followed by
      `line & btwn`. The multiplier is the one-square board of the lower
      square (`RangeLowest`), so the product is the line shifted left by that
      square (`MulShift`); the model writes the shift by the lower of the
      two squares. For `from == to` both forms give the empty board, as
      `btwn` is empty. */
  function BetweenTable(from: Index, to: Index): bv64
  {
    if from < to then ShiftedInto(LinePattern(from, to), IndexRange(from, to), from)
    else ShiftedInto(LinePattern(from, to), IndexRange(from, to), to)
  }

  /** `line` moved up by `m` squares and cut to `btwn`. */
  function ShiftedInto(line: bv64, btwn: bv64, m: Index): bv64
  {
    (line << m) & btwn
  }

  predicate SameFile(a: Index, b: Index) { FileOf(a) == FileOf(b) }
  predicate SameRank(a: Index, b: Index) { RankOf(a) == RankOf(b) }

  /** `b` is on the diagonal through `a` (towards H8 or A1). */
  predicate SameDiagonal(a: Index, b: Index)
  {
    FileOf(a) != FileOf(b) && FileOf(b) - FileOf(a) == RankOf(b) - RankOf(a)
  }

  /** `b` is on the anti-diagonal through `a` (towards A8 or H1). */
  predicate SameAntiDiagonal(a: Index, b: Index)
  {
    FileOf(a) != FileOf(b) && FileOf(a) - FileOf(b) == RankOf(b) - RankOf(a)
  }

  /** `j` is on the same line through `lo` as `hi` is. */
  predicate OnLine(lo: Index, hi: Index, j: Index)
  {
    (SameFile(lo, hi) && SameFile(lo, j)) ||
    (SameRank(lo, hi) && SameRank(lo, j)) ||
    (SameDiagonal(lo, hi) && SameDiagonal(lo, j)) ||
    (SameAntiDiagonal(lo, hi) && SameAntiDiagonal(lo, j))
  }

  /** `j` lies strictly between `lo` and `hi`, on a line they share. */
  predicate Inside(lo: Index, hi: Index, j: Index)
  {
    lo < j < hi && OnLine(lo, hi, j)
  }

  /** `j` lies strictly between `from` and `to` on a rank, file or diagonal
      they share, whichever of the two is the lower square. */
  predicate Segment(from: Index, to: Index, j: Index)
  {
    if from < to then Inside(from, to, j) else Inside(to, from, j)
  }

  lemma RangeSymmetric(from: Index, to: Index)
    ensures IndexRange(from, to) == IndexRange(to, from)
  {}

  lemma RangeStarts(from: Index, to: Index)
    requires from < to
    ensures Has(IndexRange(from, to), from) && NoneBelow(IndexRange(from, to), from)
  {}

  lemma RangeEmpty(s: Index)
    ensures IndexRange(s, s) == 0
  {}

  lemma RangeStartsAbove(from: Index, to: Index)
    requires to < from
    ensures Has(IndexRange(from, to), to) && NoneBelow(IndexRange(from, to), to)
  {}

  /** The lowest square of the range is the lower of the two squares:
      `btwn & -btwn` is its one-square board. */
  lemma RangeLowest(from: Index, to: Index)
    requires from != to
    ensures IsLowest(IndexRange(from, to), Min(from, to))
  {
    if from < to {
      RangeStarts(from, to);
      LowestHere(IndexRange(from, to), from);
    } else {
      RangeStartsAbove(from, to);
      LowestHere(IndexRange(from, to), to);
    }
  }

  lemma MulShift0(x: bv64, k: bv64, m: Index)
    requires m < 4 && k == Bit(m)
    ensures x * k == x << m
  {}

  lemma MulShift1(x: bv64, k: bv64, m: Index)
    requires 4 <= m < 8 && k == Bit(m)
    ensures x * k == x << m
  {}

  lemma MulShift2(x: bv64, k: bv64, m: Index)
    requires 8 <= m < 12 && k == Bit(m)
    ensures x * k == x << m
  {}

  lemma MulShift3(x: bv64, k: bv64, m: Index)
    requires 12 <= m < 16 && k == Bit(m)
    ensures x * k == x << m
  {}

  lemma MulShift4(x: bv64, k: bv64, m: Index)
    requires 16 <= m < 20 && k == Bit(m)
    ensures x * k == x << m
  {}

  lemma MulShift5(x: bv64, k: bv64, m: Index)
    requires 20 <= m < 24 && k == Bit(m)
    ensures x * k == x << m
  {}

  lemma MulShift6(x: bv64, k: bv64, m: Index)
    requires 24 <= m < 28 && k == Bit(m)
    ensures x * k == x << m
  {}

  lemma MulShift7(x: bv64, k: bv64, m: Index)
    requires 28 <= m < 32 && k == Bit(m)
    ensures x * k == x << m
  {}

  lemma MulShift8(x: bv64, k: bv64, m: Index)
    requires 32 <= m < 36 && k == Bit(m)
    ensures x * k == x << m
  {}

  lemma MulShift9(x: bv64, k: bv64, m: Index)
    requires 36 <= m < 40 && k == Bit(m)
    ensures x * k == x << m
  {}

  lemma MulShift10(x: bv64, k: bv64, m: Index)
    requires 40 <= m < 44 && k == Bit(m)
    ensures x * k == x << m
  {}

  lemma MulShift11(x: bv64, k: bv64, m: Index)
    requires 44 <= m < 48 && k == Bit(m)
    ensures x * k == x << m
  {}

  lemma MulShift12(x: bv64, k: bv64, m: Index)
    requires 48 <= m < 52 && k == Bit(m)
    ensures x * k == x << m
  {}

  lemma MulShift13(x: bv64, k: bv64, m: Index)
    requires 52 <= m < 56 && k == Bit(m)
    ensures x * k == x << m
  {}

  lemma MulShift14(x: bv64, k: bv64, m: Index)
    requires 56 <= m < 60 && k == Bit(m)
    ensures x * k == x << m
  {}

  lemma MulShift15(x: bv64, k: bv64, m: Index)
    requires 60 <= m && k == Bit(m)
    ensures x * k == x << m
  {}

  /** Multiplying by a one-square board is a left shift by its square. */
  lemma MulShift(x: bv64, k: bv64, m: Index)
    requires k == Bit(m)
    ensures x * k == x << m
  {
    if m < 4 { MulShift0(x, k, m); }
    else if m < 8 { MulShift1(x, k, m); }
    else if m < 12 { MulShift2(x, k, m); }
    else if m < 16 { MulShift3(x, k, m); }
    else if m < 20 { MulShift4(x, k, m); }
    else if m < 24 { MulShift5(x, k, m); }
    else if m < 28 { MulShift6(x, k, m); }
    else if m < 32 { MulShift7(x, k, m); }
    else if m < 36 { MulShift8(x, k, m); }
    else if m < 40 { MulShift9(x, k, m); }
    else if m < 44 { MulShift10(x, k, m); }
    else if m < 48 { MulShift11(x, k, m); }
    else if m < 52 { MulShift12(x, k, m); }
    else if m < 56 { MulShift13(x, k, m); }
    else if m < 60 { MulShift14(x, k, m); }
    else { MulShift15(x, k, m); }
  }

  /** The entry as the source computes it, `line *= btwn & -btwn` followed
      by `line & btwn`, is the shift form `BetweenTable` uses. */
  lemma BetweenByMultiplication(from: Index, to: Index, line: bv64, btwn: bv64)
    requires line == LinePattern(from, to) && btwn == IndexRange(from, to)
    ensures (line * (btwn & -btwn)) & btwn == BetweenTable(from, to)
  {
    if from == to {
      RangeEmpty(from);
      EmptyRangeProduct(line, btwn);
      SameEmpty(from);
    } else if from < to {
      LowestUp(from, to, btwn);
      TableUp(from, to, line, btwn);
      ProductShifts(line, btwn, from, BetweenTable(from, to));
    } else {
      LowestDown(from, to, btwn);
      TableDown(from, to, line, btwn);
      ProductShifts(line, btwn, to, BetweenTable(from, to));
    }
  }

  lemma LowestUp(from: Index, to: Index, btwn: bv64)
    requires from < to && btwn == IndexRange(from, to)
    ensures IsLowest(btwn, from)
  {
    RangeStarts(from, to);
    LowestHere(IndexRange(from, to), from);
  }

  lemma LowestDown(from: Index, to: Index, btwn: bv64)
    requires to < from && btwn == IndexRange(from, to)
    ensures IsLowest(btwn, to)
  {
    RangeStartsAbove(from, to);
    LowestHere(IndexRange(from, to), to);
  }

  lemma TableUp(from: Index, to: Index, line: bv64, btwn: bv64)
    requires from < to && line == LinePattern(from, to) && btwn == IndexRange(from, to)
    ensures BetweenTable(from, to) == (line << from) & btwn
  {
    ShiftedUp(from, to, line, btwn);
    ShiftedBody(line, btwn, from);
  }

  lemma ShiftedUp(from: Index, to: Index, line: bv64, btwn: bv64)
    requires from < to && line == LinePattern(from, to) && btwn == IndexRange(from, to)
    ensures BetweenTable(from, to) == ShiftedInto(line, btwn, from)
  {}

  lemma TableDown(from: Index, to: Index, line: bv64, btwn: bv64)
    requires to < from && line == LinePattern(from, to) && btwn == IndexRange(from, to)
    ensures BetweenTable(from, to) == (line << to) & btwn
  {
    ShiftedDown(from, to, line, btwn);
    ShiftedBody(line, btwn, to);
  }

  lemma ShiftedBody(line: bv64, btwn: bv64, m: Index)
    ensures ShiftedInto(line, btwn, m) == (line << m) & btwn
  {}

  lemma ShiftedDown(from: Index, to: Index, line: bv64, btwn: bv64)
    requires to < from && line == LinePattern(from, to) && btwn == IndexRange(from, to)
    ensures BetweenTable(from, to) == ShiftedInto(line, btwn, to)
  {}

  lemma EmptyRangeProduct(line: bv64, btwn: bv64)
    requires btwn == 0
    ensures (line * (btwn & -btwn)) & btwn == 0
  {}

  lemma SameEmpty(s: Index)
    ensures BetweenTable(s, s) == 0
  {
    RangeEmpty(s);
  }

  lemma ProductShifts(line: bv64, btwn: bv64, m: Index, table: bv64)
    requires IsLowest(btwn, m) && table == (line << m) & btwn
    ensures (line * (btwn & -btwn)) & btwn == table
  {
    MulShift(line, btwn & -btwn, m);
    MaskBoth(line * (btwn & -btwn), line << m, btwn);
    Joined((line * (btwn & -btwn)) & btwn, table, (line << m) & btwn);
  }

  lemma MaskBoth(p: bv64, q: bv64, r: bv64)
    requires p == q
    ensures p & r == q & r
  {}

  lemma Joined(p: bv64, t: bv64, q: bv64)
    requires p == q && t == q
    ensures p == t
  {}

  lemma AndTo(x: bv64, y: bv64, j: Index)
    requires Has(x & y, j)
    ensures Has(x, j) && Has(y, j)
  {}

  lemma ShiftTo(x: bv64, m: Index, j: Index)
    requires Has(x << m, j)
    ensures j >= m && Has(x, j - m)
  {}

  lemma RangeTo(from: Index, to: Index, j: Index)
    requires from < to && Has(IndexRange(from, to), j)
    ensures from <= j < to
  {}

  lemma FilePattern(from: Index, to: Index)
    requires SameFile(from, to) && from != to
    ensures LinePattern(from, to) == A2A7
  {}

  lemma RankPattern(from: Index, to: Index)
    requires SameRank(from, to) && from != to
    ensures LinePattern(from, to) == B1G1
  {}

  lemma DiagonalPattern(from: Index, to: Index)
    requires SameDiagonal(from, to)
    ensures LinePattern(from, to) == B2G7
  {}

  lemma AntiDiagonalPattern(from: Index, to: Index)
    requires SameAntiDiagonal(from, to)
    ensures LinePattern(from, to) == H1B7
  {}

  lemma NoPattern(from: Index, to: Index)
    requires !SameFile(from, to) && !SameRank(from, to)
    requires !SameDiagonal(from, to) && !SameAntiDiagonal(from, to)
    ensures LinePattern(from, to) == 0
  {}

  lemma FileTo(from: Index, to: Index, j: Index)
    requires SameFile(from, to) && from < to
    requires Has((A2A7 << from) & IndexRange(from, to), j)
    ensures Segment(from, to, j)
  {}

  lemma FileFrom(from: Index, to: Index, j: Index)
    requires SameFile(from, to) && from < to
    requires Segment(from, to, j)
    ensures Has((A2A7 << from) & IndexRange(from, to), j)
  {}

  lemma RankTo(from: Index, to: Index, j: Index)
    requires SameRank(from, to) && from < to
    requires Has((B1G1 << from) & IndexRange(from, to), j)
    ensures Segment(from, to, j)
  {}

  lemma RankFrom(from: Index, to: Index, j: Index)
    requires SameRank(from, to) && from < to
    requires Segment(from, to, j)
    ensures Has((B1G1 << from) & IndexRange(from, to), j)
  {}

  lemma DiagonalBits(k: Index)
    requires Has(B2G7, k)
    ensures k % 9 == 0 && 9 <= k <= 54
  {}

  lemma DiagonalGeometry(from: Index, to: Index, j: Index)
    requires SameDiagonal(from, to)
    requires from < j < to && (j - from) % 9 == 0 && j - from <= 54
    ensures Segment(from, to, j)
  {}

  lemma DiagonalTo(from: Index, to: Index, j: Index)
    requires SameDiagonal(from, to) && from < to
    requires Has((B2G7 << from) & IndexRange(from, to), j)
    ensures Segment(from, to, j)
  {
    AndTo(B2G7 << from, IndexRange(from, to), j);
    ShiftTo(B2G7, from, j);
    RangeTo(from, to, j);
    DiagonalBits(j - from);
    DiagonalGeometry(from, to, j);
  }

  lemma DiagonalFrom(from: Index, to: Index, j: Index)
    requires SameDiagonal(from, to) && from < to
    requires Segment(from, to, j)
    ensures Has((B2G7 << from) & IndexRange(from, to), j)
  {}

  lemma AntiDiagonalBits(k: Index)
    requires Has(H1B7, k)
    ensures k % 7 == 0 && 7 <= k <= 49
  {}

  lemma AntiDiagonalGeometry(from: Index, to: Index, j: Index)
    requires SameAntiDiagonal(from, to)
    requires from < j < to && (j - from) % 7 == 0 && j - from <= 49
    ensures Segment(from, to, j)
  {}

  lemma AntiDiagonalTo(from: Index, to: Index, j: Index)
    requires SameAntiDiagonal(from, to) && from < to
    requires Has((H1B7 << from) & IndexRange(from, to), j)
    ensures Segment(from, to, j)
  {
    AndTo(H1B7 << from, IndexRange(from, to), j);
    ShiftTo(H1B7, from, j);
    RangeTo(from, to, j);
    AntiDiagonalBits(j - from);
    AntiDiagonalGeometry(from, to, j);
  }

  lemma AntiDiagonalFrom(from: Index, to: Index, j: Index)
    requires SameAntiDiagonal(from, to) && from < to
    requires Segment(from, to, j)
    ensures Has((H1B7 << from) & IndexRange(from, to), j)
  {}

  lemma BetweenSame(s: Index, j: Index)
    ensures !Has(BetweenTable(s, s), j) && !Segment(s, s, j)
  {
    RangeEmpty(s);
  }

  lemma DiagonalSymmetric(a: Index, b: Index)
    requires SameDiagonal(a, b)
    ensures SameDiagonal(b, a)
  {}

  lemma AntiDiagonalSymmetric(a: Index, b: Index)
    requires SameAntiDiagonal(a, b)
    ensures SameAntiDiagonal(b, a)
  {}

  lemma FileUpTo(from: Index, to: Index, j: Index)
    requires SameFile(from, to) && from < to
    requires Has(BetweenTable(from, to), j)
    ensures Segment(from, to, j)
  {
    FilePattern(from, to);
    FileTo(from, to, j);
  }

  lemma FileDownTo(from: Index, to: Index, j: Index)
    requires SameFile(from, to) && to < from
    requires Has(BetweenTable(from, to), j)
    ensures Segment(from, to, j)
  {
    FilePattern(from, to);
    RangeSymmetric(from, to);
    FileTo(to, from, j);
  }

  lemma FileUpFrom(from: Index, to: Index, j: Index)
    requires SameFile(from, to) && from < to
    requires Segment(from, to, j)
    ensures Has(BetweenTable(from, to), j)
  {
    FilePattern(from, to);
    FileFrom(from, to, j);
  }

  lemma FileDownFrom(from: Index, to: Index, j: Index)
    requires SameFile(from, to) && to < from
    requires Segment(from, to, j)
    ensures Has(BetweenTable(from, to), j)
  {
    FilePattern(from, to);
    RangeSymmetric(from, to);
    FileFrom(to, from, j);
  }

  lemma RankUpTo(from: Index, to: Index, j: Index)
    requires SameRank(from, to) && from < to
    requires Has(BetweenTable(from, to), j)
    ensures Segment(from, to, j)
  {
    RankPattern(from, to);
    RankTo(from, to, j);
  }

  lemma RankDownTo(from: Index, to: Index, j: Index)
    requires SameRank(from, to) && to < from
    requires Has(BetweenTable(from, to), j)
    ensures Segment(from, to, j)
  {
    RankPattern(from, to);
    RangeSymmetric(from, to);
    RankTo(to, from, j);
  }

  lemma RankUpFrom(from: Index, to: Index, j: Index)
    requires SameRank(from, to) && from < to
    requires Segment(from, to, j)
    ensures Has(BetweenTable(from, to), j)
  {
    RankPattern(from, to);
    RankFrom(from, to, j);
  }

  lemma RankDownFrom(from: Index, to: Index, j: Index)
    requires SameRank(from, to) && to < from
    requires Segment(from, to, j)
    ensures Has(BetweenTable(from, to), j)
  {
    RankPattern(from, to);
    RangeSymmetric(from, to);
    RankFrom(to, from, j);
  }

  lemma DiagonalUpTo(from: Index, to: Index, j: Index)
    requires SameDiagonal(from, to) && from < to
    requires Has(BetweenTable(from, to), j)
    ensures Segment(from, to, j)
  {
    DiagonalPattern(from, to);
    DiagonalTo(from, to, j);
  }

  lemma DiagonalDownTo(from: Index, to: Index, j: Index)
    requires SameDiagonal(from, to) && to < from
    requires Has(BetweenTable(from, to), j)
    ensures Segment(from, to, j)
  {
    DiagonalPattern(from, to);
    RangeSymmetric(from, to);
    DiagonalSymmetric(from, to);
    DiagonalTo(to, from, j);
  }

  lemma DiagonalUpFrom(from: Index, to: Index, j: Index)
    requires SameDiagonal(from, to) && from < to
    requires Segment(from, to, j)
    ensures Has(BetweenTable(from, to), j)
  {
    DiagonalPattern(from, to);
    DiagonalFrom(from, to, j);
  }

  lemma DiagonalDownFrom(from: Index, to: Index, j: Index)
    requires SameDiagonal(from, to) && to < from
    requires Segment(from, to, j)
    ensures Has(BetweenTable(from, to), j)
  {
    DiagonalPattern(from, to);
    RangeSymmetric(from, to);
    DiagonalSymmetric(from, to);
    DiagonalFrom(to, from, j);
  }

  lemma AntiDiagonalUpTo(from: Index, to: Index, j: Index)
    requires SameAntiDiagonal(from, to) && from < to
    requires Has(BetweenTable(from, to), j)
    ensures Segment(from, to, j)
  {
    AntiDiagonalPattern(from, to);
    AntiDiagonalTo(from, to, j);
  }

  lemma AntiDiagonalDownTo(from: Index, to: Index, j: Index)
    requires SameAntiDiagonal(from, to) && to < from
    requires Has(BetweenTable(from, to), j)
    ensures Segment(from, to, j)
  {
    AntiDiagonalPattern(from, to);
    RangeSymmetric(from, to);
    AntiDiagonalSymmetric(from, to);
    AntiDiagonalTo(to, from, j);
  }

  lemma AntiDiagonalUpFrom(from: Index, to: Index, j: Index)
    requires SameAntiDiagonal(from, to) && from < to
    requires Segment(from, to, j)
    ensures Has(BetweenTable(from, to), j)
  {
    AntiDiagonalPattern(from, to);
    AntiDiagonalFrom(from, to, j);
  }

  lemma AntiDiagonalDownFrom(from: Index, to: Index, j: Index)
    requires SameAntiDiagonal(from, to) && to < from
    requires Segment(from, to, j)
    ensures Has(BetweenTable(from, to), j)
  {
    AntiDiagonalPattern(from, to);
    RangeSymmetric(from, to);
    AntiDiagonalSymmetric(from, to);
    AntiDiagonalFrom(to, from, j);
  }

  lemma NoLineTo(from: Index, to: Index, j: Index)
    requires !SameFile(from, to) && !SameRank(from, to)
    requires !SameDiagonal(from, to) && !SameAntiDiagonal(from, to)
    ensures !Has(BetweenTable(from, to), j)
  {
    NoPattern(from, to);
  }

  lemma NoLineFrom(from: Index, to: Index, j: Index)
    requires !SameFile(from, to) && !SameRank(from, to)
    requires !SameDiagonal(from, to) && !SameAntiDiagonal(from, to)
    ensures !Segment(from, to, j)
  {}

  /** Every square of the table entry lies strictly between the two
      squares on their common line. */
  lemma BetweenTo(from: Index, to: Index, j: Index)
    requires Has(BetweenTable(from, to), j)
    ensures Segment(from, to, j)
  {
    if from == to {
      BetweenSame(from, j);
      assert false;
    }
    if SameFile(from, to) {
      if from < to { FileUpTo(from, to, j); } else { FileDownTo(from, to, j); }
    } else if SameRank(from, to) {
      if from < to { RankUpTo(from, to, j); } else { RankDownTo(from, to, j); }
    } else if SameDiagonal(from, to) {
      if from < to { DiagonalUpTo(from, to, j); } else { DiagonalDownTo(from, to, j); }
    } else if SameAntiDiagonal(from, to) {
      if from < to { AntiDiagonalUpTo(from, to, j); } else { AntiDiagonalDownTo(from, to, j); }
    } else {
      NoLineTo(from, to, j);
      assert false;
    }
  }

  /** Every square strictly between the two on their common line is in
      the table entry. */
  lemma BetweenFrom(from: Index, to: Index, j: Index)
    requires Segment(from, to, j)
    ensures Has(BetweenTable(from, to), j)
  {
    if from == to {
      BetweenSame(from, j);
      assert false;
    }
    if SameFile(from, to) {
      if from < to { FileUpFrom(from, to, j); } else { FileDownFrom(from, to, j); }
    } else if SameRank(from, to) {
      if from < to { RankUpFrom(from, to, j); } else { RankDownFrom(from, to, j); }
    } else if SameDiagonal(from, to) {
      if from < to { DiagonalUpFrom(from, to, j); } else { DiagonalDownFrom(from, to, j); }
    } else if SameAntiDiagonal(from, to) {
      if from < to { AntiDiagonalUpFrom(from, to, j); } else { AntiDiagonalDownFrom(from, to, j); }
    } else {
      NoLineFrom(from, to, j);
      assert false;
    }
  }

  /** `betweenTable[from][to]` holds exactly the squares strictly between
      `from` and `to` on a rank, file or diagonal they share: never `from`
      or `to` themselves, and nothing when they share no line. */
  lemma BetweenTableHas(from: Index, to: Index, j: Index)
    ensures Has(BetweenTable(from, to), j) <==> Segment(from, to, j)
  {
    if Has(BetweenTable(from, to), j) { BetweenTo(from, to, j); }
    if Segment(from, to, j) { BetweenFrom(from, to, j); }
  }
}
