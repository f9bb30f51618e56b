/** Bitboards and the bit primitives of src/bitwise.h, src/utils.h and
    utils.cpp: population count, forward and reverse bit scans and the pop
    of the lowest set bit.

    A bitboard is a `bv64`; bit `i` stands for square `i` (A1 = 0 .. H8 = 63).
    Bit indices are `bv8` values below 64, so that every bit-level fact stays
    inside bit-vector arithmetic. The scans and the count are defined by
    walking the board one bit at a time, lowest bit first; their contracts
    state the result as equations on the board. */
module Bits {

  type Bitboard = bv64

  /** A bit index: a square number as an 8-bit value. */
  type Index = i: bv8 | i < 64

  /** The board with only square `i`. */
  function Bit(i: Index): bv64
  {
    1 << i
  }

  /** Bit `i` of `b` is set. */
  predicate Has(b: bv64, i: Index)
  {
    b & Bit(i) != 0
  }

  /** `l` is the lowest set bit of `b`: `b & -b` isolates that bit. */
  predicate IsLowest(b: bv64, l: Index)
  {
    b & -b == Bit(l)
  }

  /** `h` is the highest set bit of `b`: of the bits from `h` upwards only
      `h` itself is set. */
  predicate IsHighest(b: bv64, h: Index)
  {
    b & -Bit(h) == Bit(h)
  }

  /** `b` has no set bit at index `n` or above. */
  predicate Fits(b: bv64, n: bv8)
    requires n <= 64
  {
    n == 64 || b < (1 as bv64) << n
  }

  /** The one-square board holds exactly its square. */
  lemma BitHas(i: Index, j: Index)
    ensures Has(Bit(i), j) <==> i == j
  {
  }

  // ---------------------------------------------------------------------
  // Population count

  /** The number of set bits among the lowest `n`. */
  function CountLow(b: bv64, n: bv8): nat
    requires n <= 64
    decreases n
  {
    if n == 0 then 0 else (if b & 1 == 1 then 1 else 0) + CountLow(b >> 1, n - 1)
  }

  /** `popcnt` (`__builtin_popcountll`): the number of set bits. */
  function PopCount(b: bv64): nat
  {
    CountLow(b, 64)
  }

  lemma ShiftFits(b: bv64, n: bv8)
    requires 0 < n <= 64 && Fits(b, n)
    ensures Fits(b >> 1, n - 1)
    ensures b == 0 <==> b & 1 == 0 && b >> 1 == 0
    ensures b >> 1 != 0 ==> 1 < n
  {
  }

  /** A board that fits in `n` bits counts zero exactly when it is empty. */
  lemma {:induction false} CountLowZero(b: bv64, n: bv8)
    requires n <= 64 && Fits(b, n)
    ensures CountLow(b, n) == 0 <==> b == 0
    decreases n
  {
    if n == 0 {
    } else {
      ShiftFits(b, n);
      CountLowZero(b >> 1, n - 1);
    }
  }

  /** Only the empty board counts zero. */
  lemma PopCountZero(b: bv64)
    ensures PopCount(b) == 0 <==> b == 0
  {
    CountLowZero(b, 64);
  }

  lemma ToggleLow(b: bv64)
    requires b & 1 == 1
    ensures (b ^ Bit(0)) >> 1 == b >> 1 && (b ^ Bit(0)) & 1 == 0
  {
  }

  lemma ToggleHigh(b: bv64, l: Index)
    requires 0 < l && Has(b, l)
    ensures (b ^ Bit(l)) >> 1 == (b >> 1) ^ Bit(l - 1) && (b ^ Bit(l)) & 1 == b & 1
    ensures Has(b >> 1, l - 1)
  {
  }

  /** Clearing a set bit below `n` lowers the count of the lowest `n` bits
      by one. */
  lemma {:induction false} ToggleCount(b: bv64, l: Index, n: bv8)
    requires l < n <= 64 && Has(b, l)
    ensures CountLow(b ^ Bit(l), n) == CountLow(b, n) - 1
    decreases n
  {
    if l == 0 {
      ToggleLow(b);
    } else {
      ToggleHigh(b, l);
      ToggleCount(b >> 1, l - 1, n - 1);
    }
  }

  /** Clearing the lowest set bit (`b & (b - 1)`) lowers the count by one. */
  lemma PopClear(b: bv64)
    requires b != 0
    ensures PopCount(b & (b - 1)) == PopCount(b) - 1
  {
    var l := BitscanForward(b);
    SingleBit(b, l);
    LowestIsLowest(b, l, l);
    ToggleCount(b, l, 64);
  }

  /** Exactly the powers of two count one. */
  lemma PopCountOne(b: bv64)
    ensures PopCount(b) == 1 <==> b != 0 && b & (b - 1) == 0
  {
    PopCountZero(b);
    if b != 0 {
      PopClear(b);
      PopCountZero(b & (b - 1));
    }
  }

  // ---------------------------------------------------------------------
  // Bit scans

  /** No bit of `b` below `i` is set. */
  predicate NoneBelow(b: bv64, i: Index)
  {
    b & (Bit(i) - 1) == 0
  }

  /** No bit of `b` above `i` is set. */
  predicate NoneAbove(b: bv64, i: Index)
  {
    i == 63 || b & -Bit(i + 1) == 0
  }

  lemma LowestHere(b: bv64, i: Index)
    requires NoneBelow(b, i) && Has(b, i)
    ensures IsLowest(b, i)
  {
  }

  lemma LowestNext(b: bv64, i: Index)
    requires b != 0 && NoneBelow(b, i) && !Has(b, i)
    ensures i < 63 && NoneBelow(b, i + 1)
  {
  }

  lemma HighestHere(b: bv64, i: Index)
    requires NoneAbove(b, i) && Has(b, i)
    ensures IsHighest(b, i)
  {
  }

  lemma HighestNext(b: bv64, i: Index)
    requires b != 0 && NoneAbove(b, i) && !Has(b, i)
    ensures 0 < i && NoneAbove(b, i - 1)
  {
  }

  lemma ScanStart(b: bv64)
    ensures NoneBelow(b, 0) && NoneAbove(b, 63)
  {
  }

  /** The first set bit at or above `i`, for a non-empty board with nothing
      set below `i`. */
  function LowestFrom(b: bv64, i: Index): (l: Index)
    requires b != 0 && NoneBelow(b, i)
    ensures IsLowest(b, l)
    decreases 63 - i
  {
    if Has(b, i) then
      LowestHere(b, i);
      i
    else
      LowestNext(b, i);
      LowestFrom(b, i + 1)
  }

  /** The last set bit at or below `i`, for a non-empty board with nothing
      set above `i`. */
  function HighestFrom(b: bv64, i: Index): (h: Index)
    requires b != 0 && NoneAbove(b, i)
    ensures IsHighest(b, h)
    decreases i
  {
    if Has(b, i) then
      HighestHere(b, i);
      i
    else
      HighestNext(b, i);
      HighestFrom(b, i - 1)
  }

  /** `bitscanForward` (`__builtin_ctzll`): the index of the lowest set bit
      of a non-empty board. */
  function BitscanForward(b: bv64): (l: Index)
    requires b != 0
    ensures IsLowest(b, l)
  {
    ScanStart(b);
    LowestFrom(b, 0)
  }

  /** `bitscanReverse` (`63 ^ __builtin_clzll`): the index of the highest set
      bit of a non-empty board. */
  function BitscanReverse(b: bv64): (h: Index)
    requires b != 0
    ensures IsHighest(b, h)
  {
    ScanStart(b);
    HighestFrom(b, 63)
  }

  /** The lowest bit is set, and every set bit lies at or above it. */
  lemma LowestIsLowest(b: bv64, l: Index, j: Index)
    requires IsLowest(b, l)
    ensures Has(b, l)
    ensures Has(b, j) ==> l <= j
  {
  }

  /** The highest bit is set, and every set bit lies at or below it. */
  lemma HighestIsHighest(b: bv64, h: Index, j: Index)
    requires IsHighest(b, h)
    ensures Has(b, h)
    ensures Has(b, j) ==> j <= h
  {
  }

  /** A board has one lowest bit. */
  lemma LowestUnique(b: bv64, x: Index, y: Index)
    requires IsLowest(b, x) && IsLowest(b, y)
    ensures x == y
  {
  }

  /** A board has one highest bit. */
  lemma HighestUnique(b: bv64, x: Index, y: Index)
    requires IsHighest(b, x) && IsHighest(b, y)
    ensures x == y
  {
  }

  lemma SingleBit(b: bv64, l: Index)
    requires IsLowest(b, l)
    ensures IsHighest(b, l) <==> b == Bit(l)
    ensures b & (b - 1) == b ^ Bit(l)
    ensures b == Bit(l) <==> b & (b - 1) == 0
  {
  }

  /** The lowest set bit never lies above the highest one, and they
      coincide exactly on one-square boards. */
  lemma ForwardNotAfterReverse(b: bv64)
    requires b != 0
    ensures BitscanForward(b) <= BitscanReverse(b)
    ensures BitscanForward(b) == BitscanReverse(b) <==> PopCount(b) == 1
  {
    var l, h := BitscanForward(b), BitscanReverse(b);
    LowestIsLowest(b, l, l);
    HighestIsHighest(b, h, l);
    SingleBit(b, l);
    PopCountOne(b);
    if IsHighest(b, l) {
      HighestUnique(b, l, h);
    }
  }

  /** `bitscanForward` and `bitscanReverse` of utils.cpp: the scans, with 0
      for the empty board. */
  function BitscanForwardOrZero(b: bv64): (l: Index)
    ensures b == 0 ==> l == 0
    ensures b != 0 ==> IsLowest(b, l)
  {
    if b == 0 then 0 else BitscanForward(b)
  }

  function BitscanReverseOrZero(b: bv64): (h: Index)
    ensures b == 0 ==> h == 0
    ensures b != 0 ==> IsHighest(b, h)
  {
    if b == 0 then 0 else BitscanReverse(b)
  }

  // ---------------------------------------------------------------------
  // popLsb

  /** `popLsb`: the index of the lowest set bit and the board with exactly
      that bit cleared (`bb &= bb - 1`), one bit lighter. */
  function PopLsb(b: bv64): (r: (Index, bv64))
    requires b != 0
    ensures r.0 == BitscanForward(b)
    ensures r.1 == b ^ Bit(r.0) && Has(b, r.0)
    ensures PopCount(r.1) == PopCount(b) - 1
  {
    var l := BitscanForward(b);
    SingleBit(b, l);
    LowestIsLowest(b, l, l);
    PopClear(b);
    (l, b & (b - 1))
  }

  /** The lowest bit left after a pop lies above the popped one. */
  lemma PopMovesUp(b: bv64, l: Index, rest: bv64, m: Index)
    requires IsLowest(b, l) && rest == b ^ Bit(l) && IsLowest(rest, m)
    ensures l < m
  {
  }

  /** The squares of a sequence of indices, as a board. */
  function Board(s: seq<Index>): bv64
  {
    if s == [] then 0 else Bit(s[0]) | Board(s[1..])
  }

  /** Strictly increasing bit indices: each one below the next. */
  predicate Ascending(s: seq<Index>)
  {
    |s| <= 1 || (s[0] < s[1] && Ascending(s[1..]))
  }

  /** In an ascending sequence every earlier index is below every later one. */
  lemma {:induction false} AscendingPairwise(s: seq<Index>, i: nat, j: nat)
    requires Ascending(s) && i < j < |s|
    ensures s[i] < s[j]
    decreases |s|, j
  {
    if i == 0 {
      if j > 1 {
        AscendingPairwise(s[1..], 0, j - 1);
      }
    } else {
      AscendingPairwise(s[1..], i - 1, j - 1);
    }
  }

  /** A set bit is the whole of its one-bit mask. */
  lemma HasWhole(b: bv64, l: Index)
    requires Has(b, l)
    ensures b & Bit(l) == Bit(l)
  {
  }

  lemma ReassemblePop(b: bv64, l: Index)
    requires Has(b, l)
    ensures Bit(l) | (b ^ Bit(l)) == b
  {
    HasWhole(b, l);
    OrXor(b, Bit(l));
  }

  lemma OrXor(b: bv64, m: bv64)
    requires b & m == m
    ensures m | (b ^ m) == b
  {
  }

  lemma AscendingCons(l: Index, tail: seq<Index>)
    requires Ascending(tail) && (tail != [] ==> l < tail[0])
    ensures Ascending([l] + tail)
  {
    assert ([l] + tail)[1..] == tail;
  }

  lemma BoardCons(l: Index, tail: seq<Index>)
    ensures Board([l] + tail) == Bit(l) | Board(tail)
  {
    assert ([l] + tail)[1..] == tail;
  }

  /** Putting a popped bit in front of the rest of the board gives the
      board back ... */
  lemma PushPoppedBoard(b: bv64, l: Index, tail: seq<Index>)
    requires Has(b, l)
    requires Board(tail) == b ^ Bit(l)
    ensures Board([l] + tail) == b
  {
    BoardCons(l, tail);
    ReassemblePop(b, l);
  }

  /** The indices the loop `while (bb) { sq = popLsb(bb); … }` visits, in
      visiting order; there are as many as the population count. */
  function Serialize(b: bv64): (s: seq<Index>)
    ensures |s| == PopCount(b)
    decreases PopCount(b)
  {
    if b == 0 then
      PopCountZero(b);
      []
    else
      var (l, rest) := PopLsb(b);
      [l] + Serialize(rest)
  }

  /** The first square visited is the lowest one. */
  lemma SerializeFirst(b: bv64)
    requires b != 0
    ensures |Serialize(b)| > 0 && IsLowest(b, Serialize(b)[0])
  {
  }

  /** The visited squares, put back together, give the board. */
  lemma {:induction false} SerializeBoard(b: bv64)
    ensures Board(Serialize(b)) == b
    decreases PopCount(b)
  {
    if b != 0 {
      var (l, rest) := PopLsb(b);
      SerializeBoard(rest);
      PushPoppedBoard(b, l, Serialize(rest));
    }
  }

  /** The serialization of a non-empty board is its popped square followed
      by the serialization of the rest. */
  lemma SerializeCons(b: bv64)
    requires b != 0
    ensures Serialize(b) == [PopLsb(b).0] + Serialize(PopLsb(b).1)
  {
  }

  /** Only the empty board has nothing to visit. */
  lemma SerializeEmpty(b: bv64)
    ensures Serialize(b) == [] <==> b == 0
  {
    PopCountZero(b);
  }

  /** The first square visited after a pop lies above the popped one. */
  lemma PoppedBelowRest(b: bv64)
    requires b != 0 && PopLsb(b).1 != 0
    ensures |Serialize(PopLsb(b).1)| > 0 && PopLsb(b).0 < Serialize(PopLsb(b).1)[0]
  {
    var l, rest := PopLsb(b).0, PopLsb(b).1;
    SerializeFirst(rest);
    PopMovesUp(b, l, rest, Serialize(rest)[0]);
  }

  /** Every square visited after a pop lies above the popped one. */
  lemma FirstAbovePopped(b: bv64)
    requires b != 0
    ensures Serialize(PopLsb(b).1) != [] ==> PopLsb(b).0 < Serialize(PopLsb(b).1)[0]
  {
    SerializeEmpty(PopLsb(b).1);
    if PopLsb(b).1 != 0 {
      PoppedBelowRest(b);
    }
  }

  /** The squares are visited in strictly increasing order. */
  lemma {:induction false} SerializeAscending(b: bv64)
    ensures Ascending(Serialize(b))
    decreases PopCount(b)
  {
    if b != 0 {
      SerializeAscending(PopLsb(b).1);
      SerializeCons(b);
      FirstAbovePopped(b);
      AscendingCons(PopLsb(b).0, Serialize(PopLsb(b).1));
    }
  }

  lemma HasOfPop(b: bv64, l: Index, j: Index)
    requires Has(b, l)
    ensures Has(b, j) <==> j == l || Has(b ^ Bit(l), j)
  {
  }

  /** A bit is set exactly when it is the popped one or set in the rest. */
  lemma HasAfterPop(b: bv64, j: Index)
    requires b != 0
    ensures Has(b, j) == (j == PopLsb(b).0 || Has(PopLsb(b).1, j))
  {
    HasOfPop(b, PopLsb(b).0, j);
  }

  /** A square is visited exactly when it is popped first or visited later. */
  lemma VisitedAfterPop(b: bv64, j: Index)
    requires b != 0
    ensures (j in Serialize(b)) == (j == PopLsb(b).0 || j in Serialize(PopLsb(b).1))
  {
  }

  /** The visited squares are exactly the set bits. */
  lemma {:induction false} SerializeMembers(b: bv64, j: Index)
    ensures j in Serialize(b) <==> Has(b, j)
    decreases PopCount(b)
  {
    if b != 0 {
      SerializeMembers(PopLsb(b).1, j);
      VisitedAfterPop(b, j);
      HasAfterPop(b, j);
    }
  }
}
