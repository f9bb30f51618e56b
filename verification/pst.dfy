/** Piece-square tables of src/pst.cpp and of the older pst.cpp.

    A table holds one value per piece and square, `[12][64]` in the
    engine; here it is a flat sequence of 768 values with the entry of
    piece `p` on square `s` at `64 * p + s`. The source tables (one per
    kind of man, written from black's side of the board) are parameters:
    only the way they are copied into the per-piece tables is modelled,
    not their numbers. */
module Pst {
  import opened Types

  const KINDS: nat := 6
  /** Entries of a per-kind source table: 6 kinds of 64 squares. */
  const SOURCE_SIZE: nat := 384
  /** Entries of a per-piece table: 12 pieces of 64 squares. */
  const TABLE_SIZE: nat := 768

  /** The position of piece `p` on square `s` in a flat per-piece table. */
  function Slot(p: Piece, s: Square): (i: nat)
    ensures i < TABLE_SIZE && i / 64 == p && i % 64 == s
  {
    64 * p + s
  }

  /** The position of kind `k` on square `s` in a flat source table. */
  function KindSlot(k: nat, s: Square): (i: nat)
    requires k < KINDS
    ensures i < SOURCE_SIZE && i / 64 == k && i % 64 == s
  {
    64 * k + s
  }

  /** The square `s` seen from the other side: the 180 degree turn `63 - s`. */
  function Turn(s: Square): (t: Square)
    ensures 63 - t == s
  {
    63 - s
  }

  /** The value that `initializePst` copies for piece `p` on square `s`.
      In src/pst.cpp white reads its kind's source table at `63 - s` and
      black reads it at `s` (`whiteTurned`); the older pst.cpp does the
      reverse. */
  function Oriented(source: seq<int>, p: Piece, s: Square, whiteTurned: bool): int
    requires |source| == SOURCE_SIZE
  {
    var kind := p / 2;
    if (p % 2 == WHITE) == whiteTurned then source[KindSlot(kind, Turn(s))]
    else source[KindSlot(kind, s)]
  }

  /** The reference per-piece table built from a source table. */
  function Filled(source: seq<int>, whiteTurned: bool): (t: seq<int>)
    requires |source| == SOURCE_SIZE
    ensures |t| == TABLE_SIZE
  {
    seq(TABLE_SIZE, i requires 0 <= i < TABLE_SIZE => Oriented(source, i / 64, i % 64, whiteTurned))
  }

  /** Every white entry equals its black twin's entry on the turned square. */
  ghost predicate Mirrored(t: seq<int>)
    requires |t| == TABLE_SIZE
  {
    forall k: nat, s: Square | k < KINDS :: t[Slot(2 * k, s)] == t[Slot(2 * k + 1, Turn(s))]
  }

  /** Both orientations give mirrored tables. */
  lemma FilledMirrored(source: seq<int>, whiteTurned: bool)
    requires |source| == SOURCE_SIZE
    ensures Mirrored(Filled(source, whiteTurned))
  {
    var t := Filled(source, whiteTurned);
    forall k: nat, s: Square | k < KINDS
      ensures t[Slot(2 * k, s)] == t[Slot(2 * k + 1, Turn(s))]
    {
      FilledAt(source, whiteTurned, 2 * k, s);
      FilledAt(source, whiteTurned, 2 * k + 1, Turn(s));
      OrientedTwins(source, whiteTurned, k, s);
    }
  }

  /** The entry of `Filled` at a slot is the value oriented for it. */
  lemma FilledAt(source: seq<int>, whiteTurned: bool, p: Piece, s: Square)
    requires |source| == SOURCE_SIZE
    ensures Filled(source, whiteTurned)[Slot(p, s)] == Oriented(source, p, s, whiteTurned)
  {
  }

  /** The white and black pieces of a kind, on turned squares, read the
      same source entry. */
  lemma OrientedTwins(source: seq<int>, whiteTurned: bool, k: nat, s: Square)
    requires |source| == SOURCE_SIZE && k < KINDS
    ensures Oriented(source, 2 * k, s, whiteTurned) == Oriented(source, 2 * k + 1, Turn(s), whiteTurned)
  {
    Twins(k);
  }

  /** The arithmetic of a kind's two pieces. */
  lemma Twins(k: nat)
    requires k < KINDS
    ensures (2 * k) / 2 == k && (2 * k + 1) / 2 == k && (2 * k) % 2 == 0 && (2 * k + 1) % 2 == 1
  {
  }

  /** In src/pst.cpp, a white piece on `s` reads the source at `63 - s` and
      its black twin reads it at `s`. */
  lemma FilledEntries(source: seq<int>, k: nat, s: Square)
    requires |source| == SOURCE_SIZE && k < KINDS
    ensures Filled(source, true)[Slot(2 * k, s)] == source[KindSlot(k, Turn(s))]
    ensures Filled(source, true)[Slot(2 * k + 1, s)] == source[KindSlot(k, s)]
    ensures Filled(source, false)[Slot(2 * k, s)] == source[KindSlot(k, s)]
    ensures Filled(source, false)[Slot(2 * k + 1, s)] == source[KindSlot(k, Turn(s))]
  {
  }

  /** One pass of the `initializePst` loops over one table: every piece,
      every square, overwriting whatever the table held. */
  method FillTable(t: seq<int>, source: seq<int>, whiteTurned: bool) returns (r: seq<int>)
    requires |t| == TABLE_SIZE && |source| == SOURCE_SIZE
    ensures r == Filled(source, whiteTurned)
  {
    r := t;
    var p := 0;
    while p < 12
      invariant 0 <= p <= 12 && |r| == TABLE_SIZE
      invariant forall i | 0 <= i < 64 * p :: r[i] == Filled(source, whiteTurned)[i]
    {
      var s := 0;
      while s < 64
        invariant 0 <= s <= 64 && |r| == TABLE_SIZE
        invariant forall i | 0 <= i < 64 * p + s :: r[i] == Filled(source, whiteTurned)[i]
      {
        r := r[Slot(p, s) := Oriented(source, p, s, whiteTurned)];
        s := s + 1;
      }
      p := p + 1;
    }
  }

  // ---------------------------------------------------------------------
  // src/pst.cpp

  /** The four tables of src/pst.cpp: the tuned midgame and endgame tables
      and the PeSTO base tables used as tuning defaults. */
  datatype Tables = Tables(midgame: seq<int>, endgame: seq<int>, baseMidgame: seq<int>, baseEndgame: seq<int>)

  predicate Shaped(t: Tables)
  {
    |t.midgame| == TABLE_SIZE && |t.endgame| == TABLE_SIZE &&
    |t.baseMidgame| == TABLE_SIZE && |t.baseEndgame| == TABLE_SIZE
  }

  /** The per-kind source tables of src/pst.cpp. */
  datatype Sources = Sources(midgame: seq<int>, endgame: seq<int>, baseMidgame: seq<int>, baseEndgame: seq<int>)

  predicate SourcesShaped(src: Sources)
  {
    |src.midgame| == SOURCE_SIZE && |src.endgame| == SOURCE_SIZE &&
    |src.baseMidgame| == SOURCE_SIZE && |src.baseEndgame| == SOURCE_SIZE
  }

  /** The tables `initializePst` leaves behind. */
  function Initialized(src: Sources): (t: Tables)
    requires SourcesShaped(src)
    ensures Shaped(t)
  {
    Tables(Filled(src.midgame, true), Filled(src.endgame, true),
           Filled(src.baseMidgame, true), Filled(src.baseEndgame, true))
  }

  /** `initializePst`: all 12 x 64 entries of the four tables are written
      from the sources, so the result does not depend on what the tables held
      before and a second call changes nothing. */
  method InitializePst(t: Tables, src: Sources) returns (r: Tables)
    requires Shaped(t) && SourcesShaped(src)
    ensures r == Initialized(src)
  {
    var mg := FillTable(t.midgame, src.midgame, true);
    var eg := FillTable(t.endgame, src.endgame, true);
    var bmg := FillTable(t.baseMidgame, src.baseMidgame, true);
    var beg := FillTable(t.baseEndgame, src.baseEndgame, true);
    r := Tables(mg, eg, bmg, beg);
  }

  /** The white-black mirror relation holds in all four initialized tables. */
  lemma InitializedMirrored(src: Sources)
    requires SourcesShaped(src)
    ensures Mirrored(Initialized(src).midgame) && Mirrored(Initialized(src).endgame)
    ensures Mirrored(Initialized(src).baseMidgame) && Mirrored(Initialized(src).baseEndgame)
  {
    FilledMirrored(src.midgame, true);
    FilledMirrored(src.endgame, true);
    FilledMirrored(src.baseMidgame, true);
    FilledMirrored(src.baseEndgame, true);
  }

  /** `getMidgamePstValue`. */
  function MidgameValue(t: Tables, p: Piece, s: Square): int
    requires Shaped(t)
  {
    t.midgame[Slot(p, s)]
  }

  /** `getEndgamePstValue`. */
  function EndgameValue(t: Tables, p: Piece, s: Square): int
    requires Shaped(t)
  {
    t.endgame[Slot(p, s)]
  }

  /** `setMidgamePstValue`: the entry reads back as `v` and every other
      entry of every table is unchanged. */
  function SetMidgameValue(t: Tables, p: Piece, s: Square, v: int): (r: Tables)
    requires Shaped(t)
    ensures Shaped(r) && MidgameValue(r, p, s) == v
    ensures forall q: Piece, u: Square :: (q, u) != (p, s) ==> MidgameValue(r, q, u) == MidgameValue(t, q, u)
    ensures r.endgame == t.endgame && r.baseMidgame == t.baseMidgame && r.baseEndgame == t.baseEndgame
  {
    t.(midgame := t.midgame[Slot(p, s) := v])
  }

  /** `setEndgamePstValue`: the entry reads back as `v` and every other
      entry of every table is unchanged. */
  function SetEndgameValue(t: Tables, p: Piece, s: Square, v: int): (r: Tables)
    requires Shaped(t)
    ensures Shaped(r) && EndgameValue(r, p, s) == v
    ensures forall q: Piece, u: Square :: (q, u) != (p, s) ==> EndgameValue(r, q, u) == EndgameValue(t, q, u)
    ensures r.midgame == t.midgame && r.baseMidgame == t.baseMidgame && r.baseEndgame == t.baseEndgame
  {
    t.(endgame := t.endgame[Slot(p, s) := v])
  }

  /** The black (odd) pieces' rows of a table in piece order, squares
      0..63 within each row. */
  function BlackRows(t: seq<int>): (values: seq<int>)
    requires |t| == TABLE_SIZE
    ensures |values| == SOURCE_SIZE
  {
    seq(SOURCE_SIZE, i requires 0 <= i < SOURCE_SIZE => t[Slot(2 * (i / 64) + 1, i % 64)])
  }

  /** Copying a mirrored table's black rows back in the `initializePst`
      orientation rebuilds the table: the black rows determine it. */
  lemma FilledBlackRows(t: seq<int>)
    requires |t| == TABLE_SIZE && Mirrored(t)
    ensures Filled(BlackRows(t), true) == t
  {
    var f := Filled(BlackRows(t), true);
    forall i | 0 <= i < TABLE_SIZE
      ensures f[i] == t[i]
    {
      var p, s := SlotOf(i);
      var k := p / 2;
      FilledAt(BlackRows(t), true, p, s);
      Halves(p);
      if p % 2 == 0 {
        BlackRowsAt(t, k, Turn(s));
        assert t[Slot(2 * k, s)] == t[Slot(2 * k + 1, Turn(s))];
      } else {
        BlackRowsAt(t, k, s);
      }
    }
  }

  /** The piece and square whose slot is `i`. */
  lemma SlotOf(i: int) returns (p: Piece, s: Square)
    requires 0 <= i < TABLE_SIZE
    ensures Slot(p, s) == i
  {
    p, s := i / 64, i % 64;
  }

  /** A piece is twice its kind, plus one when black. */
  lemma Halves(p: Piece)
    ensures p / 2 < KINDS && p == 2 * (p / 2) + p % 2 && 0 <= p % 2 < 2
  {
  }

  /** `BlackRows` at a kind's slot reads that kind's black piece. */
  lemma BlackRowsAt(t: seq<int>, k: nat, u: Square)
    requires |t| == TABLE_SIZE && k < KINDS
    ensures BlackRows(t)[KindSlot(k, u)] == t[Slot(2 * k + 1, u)]
  {
    BlackRowsIndex(t, KindSlot(k, u));
  }

  lemma BlackRowsIndex(t: seq<int>, j: nat)
    requires |t| == TABLE_SIZE && j < SOURCE_SIZE
    ensures BlackRows(t)[j] == t[Slot(2 * (j / 64) + 1, j % 64)]
  {
  }

  /** `getMidgameValues` and its three siblings: the black (odd) pieces'
      rows in piece order, squares 0..63 within each, 384 values in all. */
  method BlackValues(t: seq<int>) returns (values: seq<int>)
    requires |t| == TABLE_SIZE
    ensures |values| == SOURCE_SIZE
    ensures forall k: nat, s: Square | k < KINDS :: values[KindSlot(k, s)] == t[Slot(2 * k + 1, s)]
    ensures values == BlackRows(t)
  {
    values := [];
    var i := 1;
    while i < 12
      invariant 1 <= i <= 13 && i % 2 == 1
      invariant |values| == 64 * (i / 2)
      invariant forall k: nat, s: Square | k < i / 2 :: values[KindSlot(k, s)] == t[Slot(2 * k + 1, s)]
    {
      var j := 0;
      while j < 64
        invariant 0 <= j <= 64
        invariant |values| == 64 * (i / 2) + j
        invariant forall k: nat, s: Square | k < i / 2 :: values[KindSlot(k, s)] == t[Slot(2 * k + 1, s)]
        invariant forall s: Square | s < j :: values[KindSlot(i / 2, s)] == t[Slot(i, s)]
      {
        values := values + [t[Slot(i, j)]];
        j := j + 1;
      }
      i := i + 2;
    }
    forall n | 0 <= n < SOURCE_SIZE
      ensures values[n] == BlackRows(t)[n]
    {
      assert n == KindSlot(n / 64, n % 64);
    }
  }

  // ---------------------------------------------------------------------
  // pst.cpp (the older single-table version)

  /** `initializePst` of pst.cpp: one table, white reading its kind's source
      at `s` and black at `63 - s` (the king uses its midgame table). */
  method InitializeOldPst(t: seq<int>, source: seq<int>) returns (r: seq<int>)
    requires |t| == TABLE_SIZE && |source| == SOURCE_SIZE
    ensures r == Filled(source, false)
  {
    r := FillTable(t, source, false);
  }

  /** `getPstValue` of pst.cpp. */
  function OldPstValue(t: seq<int>, p: Piece, s: Square): int
    requires |t| == TABLE_SIZE
  {
    t[Slot(p, s)]
  }

  /** In pst.cpp a white piece reads the source at `s` and its black twin at
      `63 - s`, the reverse of src/pst.cpp; both are mirrored. */
  lemma OldPstOrientation(source: seq<int>, k: nat, s: Square)
    requires |source| == SOURCE_SIZE && k < KINDS
    ensures OldPstValue(Filled(source, false), 2 * k, s) == source[KindSlot(k, s)]
    ensures OldPstValue(Filled(source, false), 2 * k + 1, s) == source[KindSlot(k, Turn(s))]
    ensures OldPstValue(Filled(source, false), 2 * k, s) == OldPstValue(Filled(source, false), 2 * k + 1, Turn(s))
  {
  }
}
