/** The bit-level half of src/magics.cpp: the bit counts, the lowest-bit
    index, the enumeration of the subsets of a mask that fills the slider
    tables, and the bounds of a magic table index. */
module Occupancy {
  import opened Bits
  import opened Machine

  // ---------------------------------------------------------------------
  // Bit counts (src/magics.cpp:57-61, 185-212)

  /** `count_1s(b)` and `count_bits(b)`: clear the lowest set bit until
      nothing is left, counting the rounds. */
  method CountBits(b: bv64) returns (r: nat)
    ensures r == PopCount(b)
  {
    var x := b;
    r := 0;
    while x != 0
      invariant r + PopCount(x) == PopCount(b)
      decreases PopCount(x)
    {
      PopClear(x);
      r := r + 1;
      x := x & (x - 1);
    }
    PopCountZero(x);
  }

  /** The mask of the `k` lowest bits has `k` set bits. */
  lemma {:induction false} LowMaskCount(k: bv8, n: bv8)
    requires k <= n <= 64 && k < 64
    ensures CountLow(((1 as bv64) << k) - 1, n) == k as int
    decreases n
  {
    var m := ((1 as bv64) << k) - 1;
    if n == 0 {
    } else if k == 0 {
      assert m == 0;
      CountLowZero(m, n);
    } else {
      assert m & 1 == 1 && m >> 1 == ((1 as bv64) << (k - 1)) - 1;
      LowMaskCount(k - 1, n - 1);
    }
  }

  /** `get_ls1b_index(b)`: the number of zeros below the lowest set bit,
      counted as the set bits of `(b & -b) - 1`; -1 for the empty board. */
  method Ls1bIndex(b: bv64) returns (i: int)
    ensures b == 0 ==> i == -1
    ensures b != 0 ==> 0 <= i < 64 && i == BitscanForward(b) as int
  {
    if b != 0 {
      var l := BitscanForward(b);
      LowMaskCount(l, 64);
      i := CountBits((b & -b) - 1);
    } else {
      i := -1;
    }
  }

  // ---------------------------------------------------------------------
  // Bit-by-bit reasoning

  lemma SomeBit(d: bv64)
    requires d != 0
    ensures Has(d, BitscanForward(d))
  {
    LowestIsLowest(d, BitscanForward(d), BitscanForward(d));
  }

  lemma OutsideBit(a: bv64, b: bv64, l: Index)
    requires Has(a & !b, l)
    ensures Has(a, l) && !Has(b, l)
  {
  }

  lemma NoneOutside(a: bv64, b: bv64)
    requires a & !b == 0
    ensures a & b == a
  {
  }

  /** A board whose squares all lie on another board is part of it. */
  lemma SubsetBits(a: bv64, b: bv64)
    requires forall x: Index :: Has(a, x) ==> Has(b, x)
    ensures a & b == a
  {
    var d := a & !b;
    if d != 0 {
      var l := BitscanForward(d);
      SomeBit(d);
      OutsideBit(a, b, l);
      assert false;
    }
    NoneOutside(a, b);
  }

  lemma MutualParts(a: bv64, b: bv64)
    requires a & b == a && b & a == b
    ensures a == b
  {
  }

  /** Boards with the same squares are equal. */
  lemma SameBits(a: bv64, b: bv64)
    requires forall x: Index :: Has(a, x) <==> Has(b, x)
    ensures a == b
  {
    SubsetBits(a, b);
    SubsetBits(b, a);
    MutualParts(a, b);
  }

  lemma OrHas(p: bv64, b: bv64, q: bv64)
    ensures (p | b) & q != 0 <==> p & q != 0 || b & q != 0
  {
  }

  /** A board has a square exactly when the square is in the list. */
  lemma {:induction false} BoardHas(t: seq<Index>, x: Index)
    ensures Has(Board(t), x) <==> x in t
  {
    if t != [] {
      BoardHas(t[1..], x);
      BitHas(t[0], x);
      OrHas(Bit(t[0]), Board(t[1..]), Bit(x));
      assert x in t <==> x == t[0] || x in t[1..];
    }
  }

  // ---------------------------------------------------------------------
  // Enumerating the subsets of a mask (src/magics.cpp:75-83, 214-234)

  /** `i` shifted right by `k` bits. */
  function Halve(i: nat, k: nat): nat
  {
    if k == 0 then i else Halve(i / 2, k - 1)
  }

  /** Bit `k` of `i`: the test `index & (1 << k)`. */
  predicate IndexBit(i: nat, k: nat)
  {
    Halve(i, k) % 2 == 1
  }

  /** Strictly increasing, so without repeats. */
  predicate Increasing(s: seq<Index>)
  {
    forall a, b :: 0 <= a < b < |s| ==> s[a] < s[b]
  }

  /** The squares of `s` picked by the bits of `index`: bit `k` keeps `s[k]`. */
  function Select(index: nat, s: seq<Index>): (t: seq<Index>)
    ensures |t| <= |s|
    ensures forall x :: x in t ==> x in s
  {
    if s == [] then []
    else if index % 2 == 1 then [s[0]] + Select(index / 2, s[1..])
    else Select(index / 2, s[1..])
  }

  /** `index_to_uint64_t(index, bits, m)`: the `bits` lowest squares of `m`,
      taken in ascending order, with the `k`-th kept when bit `k` of
      `index` is set. The source finds each lowest square with a folded
      de Bruijn table (`pop_1st_bit`); that lookup is taken to be the
      lowest set bit, so the squares are those of `Serialize`. The result
      is a subset of the mask. */
  function Occupancy(index: nat, bits: nat, m: bv64): (occ: bv64)
    requires bits <= PopCount(m)
    ensures occ & m == occ
  {
    OccupancyInside(index, bits, m);
    Board(Select(index, Serialize(m)[..bits]))
  }

  lemma OccupancyInside(index: nat, bits: nat, m: bv64)
    requires bits <= PopCount(m)
    ensures Board(Select(index, Serialize(m)[..bits])) & m == Board(Select(index, Serialize(m)[..bits]))
  {
    var s := Serialize(m);
    var t := Select(index, s[..bits]);
    forall x: Index | Has(Board(t), x) ensures Has(m, x) {
      BoardHas(t, x);
      assert x in s;
      SerializeMembers(m, x);
    }
    SubsetBits(Board(t), m);
  }

  /** Index 0 keeps nothing. */
  lemma {:induction false} SelectNone(s: seq<Index>)
    ensures Select(0, s) == []
  {
    if s != [] {
      SelectNone(s[1..]);
    }
  }

  lemma OddBelow(p: nat)
    requires p >= 1
    ensures (2 * p - 1) % 2 == 1 && (2 * p - 1) / 2 == p - 1
  {
  }

  /** Every bit set keeps everything. */
  lemma {:induction false} SelectAll(s: seq<Index>)
    ensures Select(Pow2(|s|) - 1, s) == s
  {
    if s != [] {
      OddBelow(Pow2(|s| - 1));
      SelectAll(s[1..]);
    }
  }

  /** Index 0 is the empty set. */
  lemma OccupancyNone(bits: nat, m: bv64)
    requires bits <= PopCount(m)
    ensures Occupancy(0, bits, m) == 0
  {
    SelectNone(Serialize(m)[..bits]);
  }

  /** With every index bit set, the whole mask comes back. */
  lemma OccupancyAll(m: bv64)
    ensures Occupancy(Pow2(PopCount(m)) - 1, PopCount(m), m) == m
  {
    var s := Serialize(m);
    assert s[..PopCount(m)] == s;
    SelectAll(s);
    SerializeBoard(m);
  }

  /** The index of a board `sub` over the squares `s`: bit `k` says
      whether `s[k]` is on `sub`. */
  function IndexIn(sub: bv64, s: seq<Index>): (i: nat)
    ensures i < Pow2(|s|)
  {
    if s == [] then 0
    else (if Has(sub, s[0]) then 1 else 0) + 2 * IndexIn(sub, s[1..])
  }

  /** The index of a subset of a mask, over the mask's squares in ascending
      order. */
  function IndexOf(sub: bv64, m: bv64): (i: nat)
    ensures i < Pow2(PopCount(m))
  {
    IndexIn(sub, Serialize(m))
  }

  lemma Digit(b: nat, j: nat)
    requires b < 2
    ensures (b + 2 * j) % 2 == b && (b + 2 * j) / 2 == j
  {
  }

  /** The index of `sub` picks exactly the squares of `s` that `sub` has. */
  lemma {:induction false} SelectIndexIn(sub: bv64, s: seq<Index>, x: Index)
    ensures x in Select(IndexIn(sub, s), s) <==> x in s && Has(sub, x)
  {
    if s != [] {
      Digit(if Has(sub, s[0]) then 1 else 0, IndexIn(sub, s[1..]));
      SelectIndexIn(sub, s[1..], x);
      assert x in s <==> x == s[0] || x in s[1..];
    }
  }

  /** The squares picked by the index of a subset of the mask are the
      subset's squares. */
  lemma IndexOfHas(sub: bv64, m: bv64, x: Index)
    requires Has(sub, x) ==> Has(m, x)
    ensures Has(Board(Select(IndexOf(sub, m), Serialize(m))), x) <==> Has(sub, x)
  {
    var s := Serialize(m);
    BoardHas(Select(IndexIn(sub, s), s), x);
    SelectIndexIn(sub, s, x);
    SerializeMembers(m, x);
  }

  lemma PartHasBit(sub: bv64, m: bv64, x: Index)
    requires sub & m == sub
    ensures Has(sub, x) ==> Has(m, x)
  {
  }

  /** Every subset of the mask is enumerated, at the index `IndexOf` finds. */
  lemma OccupancyIndexOf(sub: bv64, m: bv64)
    requires sub & m == sub
    ensures Occupancy(IndexOf(sub, m), PopCount(m), m) == sub
  {
    var s := Serialize(m);
    assert s[..PopCount(m)] == s;
    var b := Board(Select(IndexOf(sub, m), s));
    forall x: Index ensures Has(b, x) <==> Has(sub, x) {
      PartHasBit(sub, m, x);
      IndexOfHas(sub, m, x);
    }
    SameBits(b, sub);
  }

  /** The index only looks at the squares of `s`. */
  lemma {:induction false} IndexInAgree(a: bv64, b: bv64, s: seq<Index>)
    requires forall x :: x in s ==> (Has(a, x) <==> Has(b, x))
    ensures IndexIn(a, s) == IndexIn(b, s)
  {
    if s != [] {
      assert s[0] in s;
      IndexInAgree(a, b, s[1..]);
    }
  }

  lemma HalfBelow(i: nat, p: nat)
    requires i < 2 * p
    ensures i / 2 < p && i == i % 2 + 2 * (i / 2)
  {
  }

  /** Past the first square, the picked squares of `s` and of its tail agree. */
  lemma SelectTail(i: nat, s: seq<Index>, x: Index)
    requires s != [] && x != s[0]
    ensures Has(Board(Select(i, s)), x) <==> Has(Board(Select(i / 2, s[1..])), x)
  {
    BoardHas(Select(i, s), x);
    BoardHas(Select(i / 2, s[1..]), x);
  }

  /** The first square is picked exactly by the lowest index bit. */
  lemma SelectHead(i: nat, s: seq<Index>)
    requires Increasing(s) && s != []
    ensures Has(Board(Select(i, s)), s[0]) <==> i % 2 == 1
  {
    assert s[0] !in s[1..];
    BoardHas(Select(i, s), s[0]);
  }

  /** Reading the index back from the picked squares gives the index, when
      `s` has no repeats. */
  lemma {:induction false} IndexInSelect(i: nat, s: seq<Index>)
    requires Increasing(s) && i < Pow2(|s|)
    ensures IndexIn(Board(Select(i, s)), s) == i
  {
    if s != [] {
      var b, rest := Board(Select(i, s)), Board(Select(i / 2, s[1..]));
      HalfBelow(i, Pow2(|s| - 1));
      assert Increasing(s[1..]);
      IndexInSelect(i / 2, s[1..]);
      SelectHead(i, s);
      forall x | x in s[1..] ensures Has(b, x) <==> Has(rest, x) {
        SelectTail(i, s, x);
      }
      IndexInAgree(b, rest, s[1..]);
    }
  }

  /** The squares of a mask in ascending order have no repeats. */
  lemma SerializeIncreasing(m: bv64, bits: nat)
    requires bits <= PopCount(m)
    ensures Increasing(Serialize(m)[..bits])
  {
    SerializeAscending(m);
    forall a, b | 0 <= a < b < bits ensures Serialize(m)[a] < Serialize(m)[b] {
      AscendingPairwise(Serialize(m), a, b);
    }
  }

  /** `IndexOf` inverts the enumeration of the whole mask. */
  lemma IndexOfOccupancy(i: nat, m: bv64)
    requires i < Pow2(PopCount(m))
    ensures IndexOf(Occupancy(i, PopCount(m), m), m) == i
  {
    var s := Serialize(m);
    assert s[..PopCount(m)] == s;
    SerializeIncreasing(m, PopCount(m));
    IndexInSelect(i, s);
  }

  /** Different indices below `2^bits` give different subsets. */
  lemma OccupancyInjective(i: nat, j: nat, bits: nat, m: bv64)
    requires bits <= PopCount(m) && i < Pow2(bits) && j < Pow2(bits) && i != j
    ensures Occupancy(i, bits, m) != Occupancy(j, bits, m)
  {
    var s := Serialize(m)[..bits];
    SerializeIncreasing(m, bits);
    IndexInSelect(i, s);
    IndexInSelect(j, s);
  }

  lemma OrAssoc(a: bv64, b: bv64, c: bv64)
    ensures (a | b) | c == a | (b | c)
  {
  }

  /** Adding a square at the end of the list adds its bit. */
  lemma {:induction false} BoardSnoc(t: seq<Index>, x: Index)
    ensures Board(t + [x]) == Board(t) | Bit(x)
  {
    if t != [] {
      assert (t + [x])[1..] == t[1..] + [x];
      BoardSnoc(t[1..], x);
      OrAssoc(Bit(t[0]), Board(t[1..]), Bit(x));
    }
  }

  /** Selecting from a list with one more square at the end: that square is
      kept by bit `|t|` of the index. */
  lemma {:induction false} SelectSnoc(index: nat, t: seq<Index>, x: Index)
    ensures Select(index, t + [x]) == Select(index, t) + (if IndexBit(index, |t|) then [x] else [])
  {
    if t != [] {
      assert (t + [x])[1..] == t[1..] + [x];
      SelectSnoc(index / 2, t[1..], x);
    }
  }

  /** `set_occupancy(index, bits, m)`: the same enumeration written as a
      loop that takes the lowest square with `get_ls1b_index`, clears it
      with `pop_bit`, and tests bit `count` of `index`. It agrees with
      `index_to_uint64_t`. */
  method SetOccupancy(index: nat, bits: nat, m: bv64) returns (occ: bv64)
    requires bits <= PopCount(m)
    ensures occ == Occupancy(index, bits, m)
  {
    ghost var s := Serialize(m);
    occ := 0;
    var mask := m;
    var count := 0;
    while count < bits
      invariant count <= bits
      invariant Serialize(mask) == s[count..]
      invariant occ == Board(Select(index, s[..count]))
    {
      mask, occ := TakeLowest(index, mask, occ, s, count);
      count := count + 1;
    }
  }

  /** One round of the `set_occupancy` loop: the lowest square of what is
      left of the mask is cleared from it, and added to the result when
      bit `count` of the index is set. */
  method TakeLowest(index: nat, mask: bv64, occ: bv64, ghost s: seq<Index>, count: nat)
    returns (mask': bv64, occ': bv64)
    requires count < |s| && Serialize(mask) == s[count..]
    requires occ == Board(Select(index, s[..count]))
    ensures Serialize(mask') == s[count + 1..]
    ensures occ' == Board(Select(index, s[..count + 1]))
  {
    PopNext(mask, s, count);
    OccupancyStep(index, s, count);
    var sq := BitscanForward(mask);
    mask' := mask ^ Bit(sq);
    occ' := if IndexBit(index, count) then occ | Bit(sq) else occ;
  }

  /** Popping the lowest square of the mask moves one step along its list. */
  lemma PopNext(mask: bv64, s: seq<Index>, count: nat)
    requires count < |s| && Serialize(mask) == s[count..]
    ensures mask != 0 && BitscanForward(mask) == s[count]
    ensures Serialize(mask ^ Bit(s[count])) == s[count + 1..]
  {
    SerializeEmpty(mask);
    SerializeCons(mask);
    SliceCons(s, count, PopLsb(mask).0, Serialize(PopLsb(mask).1));
  }

  lemma SliceCons(s: seq<Index>, count: nat, a: Index, rest: seq<Index>)
    requires count < |s| && s[count..] == [a] + rest
    ensures s[count] == a && s[count + 1..] == rest
  {
    assert s[count..][0] == a;
    assert s[count + 1..] == s[count..][1..];
  }

  /** The square at position `count` joins the result when bit `count` of
      the index is set. */
  lemma OccupancyStep(index: nat, s: seq<Index>, count: nat)
    requires count < |s|
    ensures IndexBit(index, count) ==>
      Board(Select(index, s[..count + 1])) == Board(Select(index, s[..count])) | Bit(s[count])
    ensures !IndexBit(index, count) ==>
      Board(Select(index, s[..count + 1])) == Board(Select(index, s[..count]))
  {
    var t := s[..count];
    assert s[..count + 1] == t + [s[count]];
    SelectSnoc(index, t, s[count]);
    if IndexBit(index, count) {
      BoardSnoc(Select(index, t), s[count]);
    } else {
      assert Select(index, t) + [] == Select(index, t);
    }
  }
}

module MagicIndex {
  import opened Types

  // ---------------------------------------------------------------------
  // Magic table index (src/magics.cpp:40-41, 149-155, 372-383; src/magics.h:27-47)

  /** Index widths: 10 to 12 bits for the rook, 5 to 9 for the bishop. */
  type RookWidth = n: nat | 10 <= n <= 12 witness 10
  type BishopWidth = n: nat | 5 <= n <= 9 witness 5

  /** Index bits of the rook table per square (`RBits`). */
  const RookBits: seq<RookWidth> := [
    12, 11, 11, 11, 11, 11, 11, 12,
    11, 10, 10, 10, 10, 10, 10, 11,
    11, 10, 10, 10, 10, 10, 10, 11,
    11, 10, 10, 10, 10, 10, 10, 11,
    11, 10, 10, 10, 10, 10, 10, 11,
    11, 10, 10, 10, 10, 10, 10, 11,
    11, 10, 10, 10, 10, 10, 10, 11,
    12, 11, 11, 11, 11, 11, 11, 12]

  /** Index bits of the bishop table per square (`BBits`). */
  const BishopBits: seq<BishopWidth> := [
    6, 5, 5, 5, 5, 5, 5, 6,
    5, 5, 5, 5, 5, 5, 5, 5,
    5, 5, 7, 7, 7, 7, 5, 5,
    5, 5, 7, 9, 9, 7, 5, 5,
    5, 5, 7, 9, 9, 7, 5, 5,
    5, 5, 7, 7, 7, 7, 5, 5,
    5, 5, 5, 5, 5, 5, 5, 5,
    6, 5, 5, 5, 5, 5, 5, 6]

  /** Entries per square of `rook_attacks[64][4096]` and `bishop_attacks[64][512]`. */
  const ROOK_TABLE: nat := 4096
  const BISHOP_TABLE: nat := 512

  /** The wrapping 64-bit product `b * magic`. */
  function Product(b: bv64, magic: bv64): bv64
  {
    b * magic
  }

  /** The top `bits` bits of `x`, as a number. */
  function TopBits(x: bv64, bits: bv8): (i: bv64)
    requires 1 <= bits <= 31
    ensures i < (1 as bv64) << bits
  {
    x >> (64 - bits)
  }

  /** `transform(b, magic, bits)` on the 64-bit path: the top `bits` bits of
      the wrapping product, which always fit a table of `2^bits` entries. */
  function Transform(b: bv64, magic: bv64, bits: nat): (i: bv64)
    requires 1 <= bits <= 31
    ensures i < (1 as bv64) << bits
  {
    TopBits(Product(b, magic), bits as bv8)
  }

  /** An index below `2^bits` fits a table of `size >= 2^bits` entries. */
  lemma IndexFits(i: bv64, bits: nat, size: nat)
    requires bits <= 12 && i < (1 as bv64) << bits
    requires (bits <= 9 && size == BISHOP_TABLE) || size == ROOK_TABLE
    ensures (i as int) < size
  {
  }

  /** The rook lookup `occ * magic >> (64 - RBits[sq])` stays inside
      `rook_attacks[sq]`, whatever the wrapped product `occ * magic` is. */
  lemma RookIndexInTable(sq: Square, product: bv64)
    ensures (TopBits(product, RookBits[sq] as bv8) as int) < ROOK_TABLE
  {
    var bits := RookBits[sq];
    IndexFits(TopBits(product, bits as bv8), bits, ROOK_TABLE);
  }

  /** The bishop lookup stays inside `bishop_attacks[sq]`. */
  lemma BishopIndexInTable(sq: Square, product: bv64)
    ensures (TopBits(product, BishopBits[sq] as bv8) as int) < BISHOP_TABLE
  {
    var bits := BishopBits[sq];
    IndexFits(TopBits(product, bits as bv8), bits, BISHOP_TABLE);
  }
}
