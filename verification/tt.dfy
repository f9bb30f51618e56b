/** The transposition tables: src/tt.cpp, which keeps the deeper search
    and adjusts mate scores by the ply, and the older tt.cpp, which always
    overwrites. Both size the table from a megabyte count rounded down to a
    power of two and find a position's slot by masking its hash. */
module Transposition {
  import opened Machine
  import Bitboard

  /** A 64-bit Zobrist hash. */
  type Key = k: nat | k < 0x1_0000_0000_0000_0000

  /** A table: its entries and `hashSize`, the mask one below the entry
      count. */
  datatype Table<E> = Table(entries: seq<E>, hashSize: nat)

  predicate Valid<E>(t: Table<E>)
  {
    |t.entries| == t.hashSize + 1
  }

  /** Bitwise `&` of two non-negative integers, bit by bit from the
      lowest. The result has no bit that either operand lacks, so it is at
      most either operand. */
  function BitAnd(a: nat, b: nat): (r: nat)
    ensures r <= a && r <= b
  {
    if a == 0 || b == 0 then 0
    else 2 * BitAnd(a / 2, b / 2) + (if a % 2 == 1 && b % 2 == 1 then 1 else 0)
  }

  /** `zobristHash & hashSize`: the slot of a position, always inside the
      table. */
  function Slot<E>(t: Table<E>, key: Key): (i: nat)
    requires Valid(t)
    ensures i < |t.entries|
  {
    BitAnd(key, t.hashSize)
  }

  // ---------------------------------------------------------------------
  // setTableSize (src/tt.cpp:110-125, tt.cpp:39-50)

  /** Whether `n` is a power of two, the case in which
      `n & (n - 1)` is zero. */
  predicate IsPowerOfTwo(n: int)
    decreases if n > 0 then n else 0
  {
    n >= 1 && (n == 1 || (n % 2 == 0 && IsPowerOfTwo(n / 2)))
  }

  /** `log2` followed by the conversion to `int`: the floor of the binary
      logarithm. */
  function FloorLog2(n: nat): (k: nat)
    requires n >= 1
    ensures Pow2(k) <= n < Pow2(k + 1)
  {
    if n == 1 then 0 else 1 + FloorLog2(n / 2)
  }

  lemma {:induction false} Pow2IsPowerOfTwo(k: nat)
    ensures IsPowerOfTwo(Pow2(k))
  {
    if k > 0 {
      Pow2IsPowerOfTwo(k - 1);
      assert Pow2(k) / 2 == Pow2(k - 1);
    }
  }

  lemma {:induction false} PowerOfTwoIsPow2(n: int)
    requires IsPowerOfTwo(n)
    ensures Pow2(FloorLog2(n)) == n
    decreases n
  {
    if n > 1 {
      PowerOfTwoIsPow2(n / 2);
    }
  }

  /** The test `setTableSize` makes: a positive `n` is a power of two
      exactly when `n & (n - 1)` is zero. */
  lemma {:induction false} PowerOfTwoByAnd(n: nat)
    requires n >= 1
    ensures IsPowerOfTwo(n) <==> BitAnd(n, n - 1) == 0
    decreases n
  {
    if n > 1 {
      if n % 2 == 0 {
        PowerOfTwoByAnd(n / 2);
        assert (n - 1) / 2 == n / 2 - 1;
      } else {
        assert (n - 1) / 2 == n / 2;
        AndSelf(n / 2);
        assert !IsPowerOfTwo(n);
      }
    }
  }

  lemma {:induction false} AndSelf(a: nat)
    ensures BitAnd(a, a) == a
    decreases a
  {
    if a > 0 {
      AndSelf(a / 2);
    }
  }

  /** The megabyte count after the rounding step: the count itself when
      it is a power of two, else `1 << log2(megaBytes)`. Either way it is
      the largest power of two not above the count. */
  function RoundedMegabytes(megaBytes: int): (r: nat)
    requires megaBytes >= 1
    ensures IsPowerOfTwo(r) && r <= megaBytes < 2 * r
    ensures IsPowerOfTwo(megaBytes) ==> r == megaBytes
  {
    var k := FloorLog2(megaBytes);
    Pow2IsPowerOfTwo(k);
    if IsPowerOfTwo(megaBytes) then
      PowerOfTwoIsPow2(megaBytes);
      megaBytes
    else Pow2(k)
  }

  const MEGABYTE: nat := 1024 * 1024

  /** The number of entries that fit: at least one, within the megabytes
      asked for, and more than half of them up to one entry. */
  lemma {:induction false} EntryCountBounds(rounded: nat, megaBytes: nat, entrySize: nat, size: nat)
    requires 1 <= rounded <= megaBytes < 2 * rounded && 1 <= entrySize <= size
    ensures var count := rounded * size / entrySize;
      count >= 1 && count * entrySize <= megaBytes * size && 2 * (count + 1) * entrySize > megaBytes * size
  {
    var a := rounded * size;
    var count := a / entrySize;
    assert a == count * entrySize + a % entrySize;
    assert a >= size by { MulMonotone(1, rounded, size); }
    assert a <= megaBytes * size by { MulMonotone(rounded, megaBytes, size); }
    assert 2 * a > megaBytes * size by { MulMonotone(megaBytes + 1, 2 * rounded, size); }
    assert (count + 1) * entrySize == count * entrySize + entrySize;
  }

  lemma MulMonotone(a: nat, b: nat, c: nat)
    requires a <= b
    ensures a * c <= b * c
  {
  }

  /** `setTableSize`: as many cleared entries of `entrySize` bytes
      (`sizeof(TTEntry)`) as fit into the rounded megabytes, and the mask
      one below their number. The table never exceeds the megabytes asked
      for and, up to one entry, fills more than half of them. */
  function SetTableSize<E>(megaBytes: int, entrySize: nat, blank: E): (t: Table<E>)
    requires 1 <= megaBytes < 2048 && 1 <= entrySize <= MEGABYTE
    ensures Valid(t) && forall i :: 0 <= i < |t.entries| ==> t.entries[i] == blank
    ensures |t.entries| >= 1 && |t.entries| * entrySize <= megaBytes * MEGABYTE
    ensures 2 * (|t.entries| + 1) * entrySize > megaBytes * MEGABYTE
  {
    var rounded := RoundedMegabytes(megaBytes);
    EntryCountBounds(rounded, megaBytes, entrySize, MEGABYTE);
    var count := rounded * MEGABYTE / entrySize;
    Table(seq(count, _ => blank), count - 1)
  }

  // ---------------------------------------------------------------------
  // The table of src/tt.cpp

  const INT16_MIN: int := -0x8000

  /** The search-result constants of src/search.h, which is not part of
      this model. */
  datatype Limits = Limits(mateScore: int, maxPositive: int, maxNegative: int)

  /** Mate scores lie further out than any ply count, so the band of
      winning and the band of losing mate scores are apart. */
  predicate Sane(l: Limits)
  {
    l.mateScore > Bitboard.MAX_PLY
  }

  datatype NodeType = ExactNode | FailLowNode | FailHighNode

  datatype Entry = Entry(score: int, depth: int, bestMoveCode: nat, validationHash: nat, nodeType: NodeType)

  /** A cleared entry, with the defaults of src/tt.h. */
  const EMPTY_ENTRY: Entry := Entry(0, INT16_MIN, 0, 0, ExactNode)

  /** `zobristHash >> 32`: the validation hash, the upper 32 bits of the
      Zobrist hash. */
  function Validation(key: Key): (v: nat)
    ensures v < 0x1_0000_0000
  {
    key / 0x1_0000_0000
  }

  /** The score `addPosition` stores: a mate score moves outward by the
      ply, so that it counts from the stored position. */
  function StoredScore(score: int, ply: int, l: Limits): int
  {
    if score >= l.mateScore - Bitboard.MAX_PLY then score + ply
    else if score <= -l.mateScore + Bitboard.MAX_PLY then score - ply
    else score
  }

  /** Mate scores never move inward when stored. */
  lemma StoredMovesOutward(score: int, ply: nat, l: Limits)
    requires Sane(l)
    ensures score >= l.mateScore - Bitboard.MAX_PLY ==> StoredScore(score, ply, l) >= score
    ensures score <= -l.mateScore + Bitboard.MAX_PLY ==> StoredScore(score, ply, l) <= score
    ensures -l.mateScore + Bitboard.MAX_PLY < score < l.mateScore - Bitboard.MAX_PLY ==> StoredScore(score, ply, l) == score
  {
  }

  /** The adjustment `getScore` makes, as written: only scores at or
      beyond the mate score itself move back by the ply. */
  function ReadScoreAsWritten(stored: int, ply: int, l: Limits): int
  {
    if stored >= l.mateScore then stored - ply
    else if stored <= -l.mateScore then stored + ply
    else stored
  }

  /** A mate found ten plies from the root and stored at ply 4 reads back
      at ply 4 as a mate six plies away. */
  lemma MateReadBackAsWritten(l: Limits)
    requires Sane(l)
    ensures ReadScoreAsWritten(StoredScore(l.mateScore - 10, 4, l), 4, l) == l.mateScore - 6
  {
  }

  /** The adjustment that undoes `StoredScore`: the same bands as the
      store. */
  function ReadScore(stored: int, ply: int, l: Limits): int
  {
    if stored >= l.mateScore - Bitboard.MAX_PLY then stored - ply
    else if stored <= -l.mateScore + Bitboard.MAX_PLY then stored + ply
    else stored
  }

  /** Reading back at the ply of the store gives the score stored, mate
      scores included. */
  lemma ReadUndoesStore(score: int, ply: nat, l: Limits)
    requires Sane(l)
    ensures ReadScore(StoredScore(score, ply, l), ply, l) == score
  {
  }

  /** `addPosition`: nothing happens for a score outside the search
      window, after the deadline (`pastDeadline`, the clock being left out)
      or for a depth outside `int8_t`; otherwise the slot is overwritten
      only by a strictly deeper search. */
  function AddPosition(t: Table<Entry>, key: Key, depth: int, score: int, nodeType: NodeType,
                       bestMoveCode: nat, ply: int, pastDeadline: bool, l: Limits): (r: Table<Entry>)
    requires Valid(t)
    ensures Valid(r) && r.hashSize == t.hashSize
    ensures forall i :: 0 <= i < |t.entries| && i != Slot(t, key) ==> r.entries[i] == t.entries[i]
    ensures score > l.maxPositive || score < l.maxNegative || pastDeadline || !IsInt8(depth) ==> r == t
    ensures depth <= t.entries[Slot(t, key)].depth ==> r == t
    ensures r != t ==>
      r.entries[Slot(t, key)] == Entry(StoredScore(score, ply, l), depth, bestMoveCode, Validation(key), nodeType)
    ensures l.maxNegative <= score <= l.maxPositive && !pastDeadline && IsInt8(depth) &&
            depth > t.entries[Slot(t, key)].depth ==>
      r.entries[Slot(t, key)] == Entry(StoredScore(score, ply, l), depth, bestMoveCode, Validation(key), nodeType)
  {
    if score > l.maxPositive || score < l.maxNegative || pastDeadline then t
    else if !IsInt8(depth) then t
    else
      var i := Slot(t, key);
      if depth > t.entries[i].depth then
        t.(entries := t.entries[i := Entry(StoredScore(score, ply, l), depth, bestMoveCode, Validation(key), nodeType)])
      else t
  }

  /** Whether a hit is usable against the window: exact scores always,
      fail-low scores at or below alpha, fail-high scores at or above beta. */
  predicate Usable(e: Entry, alpha: int, beta: int)
  {
    match e.nodeType
    case ExactNode => true
    case FailLowNode => e.score <= alpha
    case FailHighNode => e.score >= beta
  }

  /** Whether `getScore` answers from the slot: it holds this position's
      validation hash, searched at least as deep, with a usable bound. */
  predicate Hit(t: Table<Entry>, key: Key, depth: int, alpha: int, beta: int)
    requires Valid(t)
  {
    var e := t.entries[Slot(t, key)];
    IsInt8(depth) && e.validationHash == Validation(key) && e.depth >= depth && Usable(e, alpha, beta)
  }

  /** `getScore` as written: `INT32_MIN` unless the slot is a hit; then the
      stored score, moved back by the ply only when it lies at or beyond
      the mate score itself. */
  function GetScore(t: Table<Entry>, key: Key, depth: int, alpha: int, beta: int, ply: int, l: Limits): (r: int)
    requires Valid(t)
    ensures Hit(t, key, depth, alpha, beta) ==> r == ReadScoreAsWritten(t.entries[Slot(t, key)].score, ply, l)
    ensures !Hit(t, key, depth, alpha, beta) ==> r == INT32_MIN
  {
    if !IsInt8(depth) then INT32_MIN
    else
      var e := t.entries[Slot(t, key)];
      if e.validationHash == Validation(key) && e.depth >= depth then
        var returnScore :=
          if e.nodeType == ExactNode then true
          else if e.nodeType == FailLowNode then e.score <= alpha
          else if e.nodeType == FailHighNode then e.score >= beta
          else false;
        if returnScore then ReadScoreAsWritten(e.score, ply, l) else INT32_MIN
      else INT32_MIN
  }

  /** `getScore` with the read-back band of `addPosition`, the adjustment
      that undoes the store: on a hit, whatever score a store at the same
      ply turned into the slot's score is the score handed back. */
  function GetScoreCorrected(t: Table<Entry>, key: Key, depth: int, alpha: int, beta: int, ply: int, l: Limits): (r: int)
    requires Valid(t)
    ensures Hit(t, key, depth, alpha, beta) && Sane(l) && ply >= 0 ==>
      forall s :: StoredScore(s, ply, l) == t.entries[Slot(t, key)].score ==> r == s
    ensures Hit(t, key, depth, alpha, beta) ==> r == ReadScore(t.entries[Slot(t, key)].score, ply, l)
    ensures !Hit(t, key, depth, alpha, beta) ==> r == INT32_MIN
  {
    if Hit(t, key, depth, alpha, beta) then ReadScore(t.entries[Slot(t, key)].score, ply, l) else INT32_MIN
  }

  /** The two reads agree on every slot whose score lies outside both mate
      bands, and on every miss. */
  lemma GetScoreAgrees(t: Table<Entry>, key: Key, depth: int, alpha: int, beta: int, ply: int, l: Limits)
    requires Valid(t) && Sane(l)
    requires -l.mateScore + Bitboard.MAX_PLY < t.entries[Slot(t, key)].score < l.mateScore - Bitboard.MAX_PLY
    ensures GetScore(t, key, depth, alpha, beta, ply, l) == GetScoreCorrected(t, key, depth, alpha, beta, ply, l)
  {
  }

  /** With the corrected read, an exact score stored by a search deeper
      than the slot's probes back, at the same ply and any depth not above
      the stored one, as the score stored. */
  lemma StoreThenProbe(t: Table<Entry>, key: Key, depth: int, score: int, bestMoveCode: nat, ply: nat,
                       probeDepth: int, alpha: int, beta: int, l: Limits)
    requires Valid(t) && Sane(l)
    requires l.maxNegative <= score <= l.maxPositive && IsInt8(depth) && depth > t.entries[Slot(t, key)].depth
    requires IsInt8(probeDepth) && probeDepth <= depth
    ensures GetScoreCorrected(AddPosition(t, key, depth, score, ExactNode, bestMoveCode, ply, false, l),
                              key, probeDepth, alpha, beta, ply, l) == score
  {
    var r := AddPosition(t, key, depth, score, ExactNode, bestMoveCode, ply, false, l);
    assert Slot(r, key) == Slot(t, key);
    ReadUndoesStore(score, ply, l);
  }

  /** With the read as written, the same store and probe give the score
      back only when it is not a mate score; a mate ten plies from the root,
      stored and probed at ply 4, comes back as a mate six plies away. */
  lemma StoreThenProbeAsWritten(t: Table<Entry>, key: Key, depth: int, score: int, bestMoveCode: nat, ply: nat,
                                probeDepth: int, alpha: int, beta: int, l: Limits)
    requires Valid(t) && Sane(l)
    requires l.maxNegative <= score <= l.maxPositive && IsInt8(depth) && depth > t.entries[Slot(t, key)].depth
    requires IsInt8(probeDepth) && probeDepth <= depth
    ensures -l.mateScore + Bitboard.MAX_PLY < score < l.mateScore - Bitboard.MAX_PLY ==>
      GetScore(AddPosition(t, key, depth, score, ExactNode, bestMoveCode, ply, false, l),
               key, probeDepth, alpha, beta, ply, l) == score
    ensures score == l.mateScore - 10 && ply == 4 ==>
      GetScore(AddPosition(t, key, depth, score, ExactNode, bestMoveCode, ply, false, l),
               key, probeDepth, alpha, beta, ply, l) == l.mateScore - 6
  {
    var r := AddPosition(t, key, depth, score, ExactNode, bestMoveCode, ply, false, l);
    assert Slot(r, key) == Slot(t, key);
    assert r.entries[Slot(t, key)].score == StoredScore(score, ply, l);
    if score == l.mateScore - 10 && ply == 4 {
      MateReadBackAsWritten(l);
    }
  }

  /** A cleared slot takes any accepted position, since every `int8_t`
      depth beats the cleared depth. */
  lemma ClearedSlotAccepts(t: Table<Entry>, key: Key, depth: int, score: int, nodeType: NodeType,
                           bestMoveCode: nat, ply: int, l: Limits)
    requires Valid(t) && t.entries[Slot(t, key)] == EMPTY_ENTRY
    requires l.maxNegative <= score <= l.maxPositive && IsInt8(depth)
    ensures AddPosition(t, key, depth, score, nodeType, bestMoveCode, ply, false, l).entries[Slot(t, key)] ==
      Entry(StoredScore(score, ply, l), depth, bestMoveCode, Validation(key), nodeType)
  {
  }

  // ---------------------------------------------------------------------
  // ageHistoryTable (src/tt.cpp:132-138)

  /** The history table: one row of 64 squares per piece. */
  predicate HistoryShaped(h: seq<seq<nat>>)
  {
    |h| == 12 && forall i :: 0 <= i < 12 ==> |h[i]| == 64
  }

  /** `ageHistoryTable`: every entry becomes its quotient by 8, rounded
      down, as unsigned division does. */
  function AgeHistory(h: seq<seq<nat>>): (r: seq<seq<nat>>)
    requires HistoryShaped(h)
    ensures HistoryShaped(r)
    ensures forall i, j :: 0 <= i < 12 && 0 <= j < 64 ==> 8 * r[i][j] <= h[i][j] < 8 * r[i][j] + 8
  {
    seq(12, i requires 0 <= i < 12 => seq(64, j requires 0 <= j < 64 => h[i][j] / 8))
  }

  /** Ageing twice divides by 64. */
  lemma AgeTwice(h: seq<seq<nat>>)
    requires HistoryShaped(h)
    ensures forall i, j :: 0 <= i < 12 && 0 <= j < 64 ==> AgeHistory(AgeHistory(h))[i][j] == h[i][j] / 64
  {
    var a := AgeHistory(h);
    var b := AgeHistory(a);
    forall i, j | 0 <= i < 12 && 0 <= j < 64
      ensures b[i][j] == h[i][j] / 64
    {
      var x := h[i][j];
      assert 8 * a[i][j] <= x < 8 * a[i][j] + 8;
      assert 8 * b[i][j] <= a[i][j] < 8 * b[i][j] + 8;
      assert 64 * b[i][j] <= x < 64 * b[i][j] + 64;
    }
  }

  // ---------------------------------------------------------------------
  // The table of tt.cpp

  /** The older entry: score, depth as `uint8_t`, the full hash and the PV
      flag. */
  datatype OldEntry = OldEntry(score: int, depth: nat, zobristHash: nat, isPVMove: bool)

  /** A value-initialised older entry. */
  const OLD_EMPTY: OldEntry := OldEntry(0, 0, 0, false)

  /** `addPosition` of tt.cpp: scores at or beyond 90000000 in size are
      ignored; any other position overwrites its slot, whatever was there,
      with its depth cut to eight bits. */
  function AddOldPosition(t: Table<OldEntry>, key: Key, depth: int, score: int, isPVMove: bool): (r: Table<OldEntry>)
    requires Valid(t)
    ensures Valid(r) && r.hashSize == t.hashSize
    ensures score >= 90000000 || score <= -90000000 ==> r == t
    ensures forall i :: 0 <= i < |t.entries| && i != Slot(t, key) ==> r.entries[i] == t.entries[i]
    ensures -90000000 < score < 90000000 ==> r.entries[Slot(t, key)] == OldEntry(score, ToUint8(depth), key, isPVMove)
  {
    if score >= 90000000 || score <= -90000000 then t
    else t.(entries := t.entries[Slot(t, key) := OldEntry(score, ToUint8(depth), key, isPVMove)])
  }

  /** `getPosition`: the entry in the position's slot. */
  function GetOldPosition(t: Table<OldEntry>, key: Key): (e: OldEntry)
    requires Valid(t)
    ensures e in t.entries
  {
    t.entries[Slot(t, key)]
  }

  /** A stored position reads back as stored, its depth modulo 256, until
      a position with the same slot is stored; positions in other slots
      read as before. */
  lemma OldStoreThenGet(t: Table<OldEntry>, key: Key, depth: int, score: int, isPVMove: bool, other: Key)
    requires Valid(t) && -90000000 < score < 90000000
    ensures GetOldPosition(AddOldPosition(t, key, depth, score, isPVMove), key) == OldEntry(score, depth % 256, key, isPVMove)
    ensures Slot(t, other) != Slot(t, key) ==>
      GetOldPosition(AddOldPosition(t, key, depth, score, isPVMove), other) == GetOldPosition(t, other)
  {
  }
}
