/** Board geometry and the attack generation of src/bitwise.cpp: one-step
    shifts with file masks, the north and south fills and the pawn spans,
    the occluded fills, the ray, king, knight and pawn attack tables and the
    table of squares in between.

    Every operation is a function on `bv64`. The lemma after it says which
    squares the result holds in terms of files and ranks, so that "nothing
    wraps from the H-file to the A-file" is a statement about squares and not
    about masks. Each such lemma is proved one direction at a time: a lemma
    `XTo` for "every square of the result is of this shape", a lemma `XFrom`
    for "every square of this shape is in the result", and `XHas` joining
    them. */
module Attacks {
  import opened Bits

  const NOT_A_FILE: bv64 := 0xFEFE_FEFE_FEFE_FEFE
  const NOT_AB_FILE: bv64 := 0xFCFC_FCFC_FCFC_FCFC
  const NOT_GH_FILE: bv64 := 0x3F3F_3F3F_3F3F_3F3F
  const NOT_H_FILE: bv64 := 0x7F7F_7F7F_7F7F_7F7F

  /** The full board, `~0ULL`: every square empty for the ray tables. */
  const ALL: bv64 := 0xFFFF_FFFF_FFFF_FFFF

  /** The file (0 = A .. 7 = H) and rank (0 = first .. 7 = eighth) of a square. */
  function FileOf(i: Index): bv8 { i & 7 }
  function RankOf(i: Index): bv8 { i >> 3 }

  /** The distance between two files or two ranks. */
  function Dist(x: bv8, y: bv8): bv8 { if x >= y then x - y else y - x }

  // ---------------------------------------------------------------------
  // One-step shifts (src/bitwise.cpp:39-65). Each moves every square of
  // the board by the same offset and drops what would leave the board or
  // wrap to the other edge.

  function NortOne(b: bv64): bv64 { b << 8 }

  lemma NortOneTo(b: bv64, j: Index)
    requires Has(NortOne(b), j)
    ensures j >= 8 && Has(b, j - 8)
  {}

  lemma NortOneFrom(b: bv64, j: Index)
    requires j >= 8 && Has(b, j - 8)
    ensures Has(NortOne(b), j)
  {}

  lemma NortOneHas(b: bv64, j: Index)
    ensures Has(NortOne(b), j) <==> j >= 8 && Has(b, j - 8)
  {
    if Has(NortOne(b), j) { NortOneTo(b, j); }
    if j >= 8 && Has(b, j - 8) { NortOneFrom(b, j); }
  }

  function SoutOne(b: bv64): bv64 { b >> 8 }

  lemma SoutOneTo(b: bv64, j: Index)
    requires Has(SoutOne(b), j)
    ensures j < 56 && Has(b, j + 8)
  {}

  lemma SoutOneFrom(b: bv64, j: Index)
    requires j < 56 && Has(b, j + 8)
    ensures Has(SoutOne(b), j)
  {}

  lemma SoutOneHas(b: bv64, j: Index)
    ensures Has(SoutOne(b), j) <==> j < 56 && Has(b, j + 8)
  {
    if Has(SoutOne(b), j) { SoutOneTo(b, j); }
    if j < 56 && Has(b, j + 8) { SoutOneFrom(b, j); }
  }

  function EastOne(b: bv64): bv64 { (b << 1) & NOT_A_FILE }

  lemma EastOneTo(b: bv64, j: Index)
    requires Has(EastOne(b), j)
    ensures FileOf(j) != 0 && Has(b, j - 1)
  {}

  lemma EastOneFrom(b: bv64, j: Index)
    requires FileOf(j) != 0 && Has(b, j - 1)
    ensures Has(EastOne(b), j)
  {}

  lemma EastOneHas(b: bv64, j: Index)
    ensures Has(EastOne(b), j) <==> FileOf(j) != 0 && Has(b, j - 1)
  {
    if Has(EastOne(b), j) { EastOneTo(b, j); }
    if FileOf(j) != 0 && Has(b, j - 1) { EastOneFrom(b, j); }
  }

  function NoEaOne(b: bv64): bv64 { (b << 9) & NOT_A_FILE }

  lemma NoEaOneTo(b: bv64, j: Index)
    requires Has(NoEaOne(b), j)
    ensures FileOf(j) != 0 && j >= 9 && Has(b, j - 9)
  {}

  lemma NoEaOneFrom(b: bv64, j: Index)
    requires FileOf(j) != 0 && j >= 9 && Has(b, j - 9)
    ensures Has(NoEaOne(b), j)
  {}

  lemma NoEaOneHas(b: bv64, j: Index)
    ensures Has(NoEaOne(b), j) <==> FileOf(j) != 0 && j >= 9 && Has(b, j - 9)
  {
    if Has(NoEaOne(b), j) { NoEaOneTo(b, j); }
    if FileOf(j) != 0 && j >= 9 && Has(b, j - 9) { NoEaOneFrom(b, j); }
  }

  function SoEaOne(b: bv64): bv64 { (b >> 7) & NOT_A_FILE }

  lemma SoEaOneTo(b: bv64, j: Index)
    requires Has(SoEaOne(b), j)
    ensures FileOf(j) != 0 && j < 57 && Has(b, j + 7)
  {}

  lemma SoEaOneFrom(b: bv64, j: Index)
    requires FileOf(j) != 0 && j < 57 && Has(b, j + 7)
    ensures Has(SoEaOne(b), j)
  {}

  lemma SoEaOneHas(b: bv64, j: Index)
    ensures Has(SoEaOne(b), j) <==> FileOf(j) != 0 && j < 57 && Has(b, j + 7)
  {
    if Has(SoEaOne(b), j) { SoEaOneTo(b, j); }
    if FileOf(j) != 0 && j < 57 && Has(b, j + 7) { SoEaOneFrom(b, j); }
  }

  function WestOne(b: bv64): bv64 { (b >> 1) & NOT_H_FILE }

  lemma WestOneTo(b: bv64, j: Index)
    requires Has(WestOne(b), j)
    ensures FileOf(j) != 7 && Has(b, j + 1)
  {}

  lemma WestOneFrom(b: bv64, j: Index)
    requires FileOf(j) != 7 && Has(b, j + 1)
    ensures Has(WestOne(b), j)
  {}

  lemma WestOneHas(b: bv64, j: Index)
    ensures Has(WestOne(b), j) <==> FileOf(j) != 7 && Has(b, j + 1)
  {
    if Has(WestOne(b), j) { WestOneTo(b, j); }
    if FileOf(j) != 7 && Has(b, j + 1) { WestOneFrom(b, j); }
  }

  function SoWeOne(b: bv64): bv64 { (b >> 9) & NOT_H_FILE }

  lemma SoWeOneTo(b: bv64, j: Index)
    requires Has(SoWeOne(b), j)
    ensures FileOf(j) != 7 && j < 55 && Has(b, j + 9)
  {}

  lemma SoWeOneFrom(b: bv64, j: Index)
    requires FileOf(j) != 7 && j < 55 && Has(b, j + 9)
    ensures Has(SoWeOne(b), j)
  {}

  lemma SoWeOneHas(b: bv64, j: Index)
    ensures Has(SoWeOne(b), j) <==> FileOf(j) != 7 && j < 55 && Has(b, j + 9)
  {
    if Has(SoWeOne(b), j) { SoWeOneTo(b, j); }
    if FileOf(j) != 7 && j < 55 && Has(b, j + 9) { SoWeOneFrom(b, j); }
  }

  function NoWeOne(b: bv64): bv64 { (b << 7) & NOT_H_FILE }

  lemma NoWeOneTo(b: bv64, j: Index)
    requires Has(NoWeOne(b), j)
    ensures FileOf(j) != 7 && j >= 7 && Has(b, j - 7)
  {}

  lemma NoWeOneFrom(b: bv64, j: Index)
    requires FileOf(j) != 7 && j >= 7 && Has(b, j - 7)
    ensures Has(NoWeOne(b), j)
  {}

  lemma NoWeOneHas(b: bv64, j: Index)
    ensures Has(NoWeOne(b), j) <==> FileOf(j) != 7 && j >= 7 && Has(b, j - 7)
  {
    if Has(NoWeOne(b), j) { NoWeOneTo(b, j); }
    if FileOf(j) != 7 && j >= 7 && Has(b, j - 7) { NoWeOneFrom(b, j); }
  }

  function NoNoEa(b: bv64): bv64 { (b << 17) & NOT_A_FILE }

  lemma NoNoEaTo(b: bv64, j: Index)
    requires Has(NoNoEa(b), j)
    ensures FileOf(j) != 0 && j >= 17 && Has(b, j - 17)
  {}

  lemma NoNoEaFrom(b: bv64, j: Index)
    requires FileOf(j) != 0 && j >= 17 && Has(b, j - 17)
    ensures Has(NoNoEa(b), j)
  {}

  lemma NoNoEaHas(b: bv64, j: Index)
    ensures Has(NoNoEa(b), j) <==> FileOf(j) != 0 && j >= 17 && Has(b, j - 17)
  {
    if Has(NoNoEa(b), j) { NoNoEaTo(b, j); }
    if FileOf(j) != 0 && j >= 17 && Has(b, j - 17) { NoNoEaFrom(b, j); }
  }

  function NoEaEa(b: bv64): bv64 { (b << 10) & NOT_AB_FILE }

  lemma NoEaEaTo(b: bv64, j: Index)
    requires Has(NoEaEa(b), j)
    ensures FileOf(j) >= 2 && j >= 10 && Has(b, j - 10)
  {}

  lemma NoEaEaFrom(b: bv64, j: Index)
    requires FileOf(j) >= 2 && j >= 10 && Has(b, j - 10)
    ensures Has(NoEaEa(b), j)
  {}

  lemma NoEaEaHas(b: bv64, j: Index)
    ensures Has(NoEaEa(b), j) <==> FileOf(j) >= 2 && j >= 10 && Has(b, j - 10)
  {
    if Has(NoEaEa(b), j) { NoEaEaTo(b, j); }
    if FileOf(j) >= 2 && j >= 10 && Has(b, j - 10) { NoEaEaFrom(b, j); }
  }

  function SoEaEa(b: bv64): bv64 { (b >> 6) & NOT_AB_FILE }

  lemma SoEaEaTo(b: bv64, j: Index)
    requires Has(SoEaEa(b), j)
    ensures FileOf(j) >= 2 && j < 58 && Has(b, j + 6)
  {}

  lemma SoEaEaFrom(b: bv64, j: Index)
    requires FileOf(j) >= 2 && j < 58 && Has(b, j + 6)
    ensures Has(SoEaEa(b), j)
  {}

  lemma SoEaEaHas(b: bv64, j: Index)
    ensures Has(SoEaEa(b), j) <==> FileOf(j) >= 2 && j < 58 && Has(b, j + 6)
  {
    if Has(SoEaEa(b), j) { SoEaEaTo(b, j); }
    if FileOf(j) >= 2 && j < 58 && Has(b, j + 6) { SoEaEaFrom(b, j); }
  }

  function SoSoEa(b: bv64): bv64 { (b >> 15) & NOT_A_FILE }

  lemma SoSoEaTo(b: bv64, j: Index)
    requires Has(SoSoEa(b), j)
    ensures FileOf(j) != 0 && j < 49 && Has(b, j + 15)
  {}

  lemma SoSoEaFrom(b: bv64, j: Index)
    requires FileOf(j) != 0 && j < 49 && Has(b, j + 15)
    ensures Has(SoSoEa(b), j)
  {}

  lemma SoSoEaHas(b: bv64, j: Index)
    ensures Has(SoSoEa(b), j) <==> FileOf(j) != 0 && j < 49 && Has(b, j + 15)
  {
    if Has(SoSoEa(b), j) { SoSoEaTo(b, j); }
    if FileOf(j) != 0 && j < 49 && Has(b, j + 15) { SoSoEaFrom(b, j); }
  }

  function NoNoWe(b: bv64): bv64 { (b << 15) & NOT_H_FILE }

  lemma NoNoWeTo(b: bv64, j: Index)
    requires Has(NoNoWe(b), j)
    ensures FileOf(j) != 7 && j >= 15 && Has(b, j - 15)
  {}

  lemma NoNoWeFrom(b: bv64, j: Index)
    requires FileOf(j) != 7 && j >= 15 && Has(b, j - 15)
    ensures Has(NoNoWe(b), j)
  {}

  lemma NoNoWeHas(b: bv64, j: Index)
    ensures Has(NoNoWe(b), j) <==> FileOf(j) != 7 && j >= 15 && Has(b, j - 15)
  {
    if Has(NoNoWe(b), j) { NoNoWeTo(b, j); }
    if FileOf(j) != 7 && j >= 15 && Has(b, j - 15) { NoNoWeFrom(b, j); }
  }

  function NoWeWe(b: bv64): bv64 { (b << 6) & NOT_GH_FILE }

  lemma NoWeWeTo(b: bv64, j: Index)
    requires Has(NoWeWe(b), j)
    ensures FileOf(j) < 6 && j >= 6 && Has(b, j - 6)
  {}

  lemma NoWeWeFrom(b: bv64, j: Index)
    requires FileOf(j) < 6 && j >= 6 && Has(b, j - 6)
    ensures Has(NoWeWe(b), j)
  {}

  lemma NoWeWeHas(b: bv64, j: Index)
    ensures Has(NoWeWe(b), j) <==> FileOf(j) < 6 && j >= 6 && Has(b, j - 6)
  {
    if Has(NoWeWe(b), j) { NoWeWeTo(b, j); }
    if FileOf(j) < 6 && j >= 6 && Has(b, j - 6) { NoWeWeFrom(b, j); }
  }


  // ---------------------------------------------------------------------
  // Fills and pawn spans (src/bitwise.cpp:67-89)

  function NortFill(gen: bv64): bv64
  {
    var g1 := gen | (gen << 8);
    var g2 := g1 | (g1 << 16);
    g2 | (g2 << 32)
  }

  function SoutFill(gen: bv64): bv64
  {
    var g1 := gen | (gen >> 8);
    var g2 := g1 | (g1 >> 16);
    g2 | (g2 >> 32)
  }

  /** Square `s` lies on the file of `j`, at or below it. */
  predicate BelowOnFile(s: Index, j: Index) { FileOf(s) == FileOf(j) && s <= j }

  /** Square `j - 8k`, `k` ranks below `j`, is on the board and in `gen`. */
  predicate Behind(gen: bv64, j: Index, k: bv8) { j >= 8 * k && Has(gen, j - 8 * k) }

  /** Square `j + 8k`, `k` ranks above `j`, is on the board and in `gen`. */
  predicate Ahead(gen: bv64, j: Index, k: bv8) { j + 8 * k < 64 && Has(gen, j + 8 * k) }

  lemma NortFillSource(gen: bv64, j: Index)
    requires Has(NortFill(gen), j)
    ensures Behind(gen, j, 0) || Behind(gen, j, 1) || Behind(gen, j, 2) || Behind(gen, j, 3) ||
            Behind(gen, j, 4) || Behind(gen, j, 5) || Behind(gen, j, 6) || Behind(gen, j, 7)
  {}

  lemma SoutFillSource(gen: bv64, j: Index)
    requires Has(SoutFill(gen), j)
    ensures Ahead(gen, j, 0) || Ahead(gen, j, 1) || Ahead(gen, j, 2) || Ahead(gen, j, 3) ||
            Ahead(gen, j, 4) || Ahead(gen, j, 5) || Ahead(gen, j, 6) || Ahead(gen, j, 7)
  {}

  lemma NortFillFrom(gen: bv64, s: Index, j: Index)
    requires Has(gen, s) && BelowOnFile(s, j)
    ensures Has(NortFill(gen), j)
  {}

  lemma SoutFillFrom(gen: bv64, s: Index, j: Index)
    requires Has(gen, s) && BelowOnFile(j, s)
    ensures Has(SoutFill(gen), j)
  {}

  lemma FileStep(j: Index)
    requires j >= 8
    ensures FileOf(j - 8) == FileOf(j)
  {}

  /** The squares whose content the fills carry up to `j`: some square of
      `gen` at or below `j` on its file. */
  ghost predicate FedFromBelow(gen: bv64, j: Index)
  {
    exists s: Index :: BelowOnFile(s, j) && Has(gen, s)
  }

  /** ... and at or above `j` on its file. */
  ghost predicate FedFromAbove(gen: bv64, j: Index)
  {
    exists s: Index :: BelowOnFile(j, s) && Has(gen, s)
  }

  lemma BehindIsFed(gen: bv64, j: Index, k: bv8)
    requires k < 8 && Behind(gen, j, k)
    ensures FedFromBelow(gen, j)
  {
    assert BelowOnFile(j - 8 * k, j);
  }

  lemma AheadIsFed(gen: bv64, j: Index, k: bv8)
    requires k < 8 && Ahead(gen, j, k)
    ensures FedFromAbove(gen, j)
  {
    assert BelowOnFile(j, j + 8 * k);
  }

  lemma NortFillTo(gen: bv64, j: Index)
    requires Has(NortFill(gen), j)
    ensures FedFromBelow(gen, j)
  {
    NortFillSource(gen, j);
    var k: bv8 :| k < 8 && Behind(gen, j, k);
    BehindIsFed(gen, j, k);
  }

  lemma SoutFillTo(gen: bv64, j: Index)
    requires Has(SoutFill(gen), j)
    ensures FedFromAbove(gen, j)
  {
    SoutFillSource(gen, j);
    var k: bv8 :| k < 8 && Ahead(gen, j, k);
    AheadIsFed(gen, j, k);
  }

  /** `nortFill` holds exactly the squares at or north of a square of
      `gen` on the same file. */
  lemma NortFillHas(gen: bv64, j: Index)
    ensures Has(NortFill(gen), j) <==> FedFromBelow(gen, j)
  {
    if Has(NortFill(gen), j) {
      NortFillTo(gen, j);
    }
    if FedFromBelow(gen, j) {
      var s: Index :| BelowOnFile(s, j) && Has(gen, s);
      NortFillFrom(gen, s, j);
    }
  }

  /** `soutFill` holds exactly the squares at or south of a square of
      `gen` on the same file. */
  lemma SoutFillHas(gen: bv64, j: Index)
    ensures Has(SoutFill(gen), j) <==> FedFromAbove(gen, j)
  {
    if Has(SoutFill(gen), j) {
      SoutFillTo(gen, j);
    }
    if FedFromAbove(gen, j) {
      var s: Index :| BelowOnFile(j, s) && Has(gen, s);
      SoutFillFrom(gen, s, j);
    }
  }

  function WhiteFrontSpans(pawns: bv64): bv64 { NortOne(NortFill(pawns)) }
  function WhiteRearSpans(pawns: bv64): bv64 { SoutOne(SoutFill(pawns)) }
  function BlackRearSpans(pawns: bv64): bv64 { NortOne(NortFill(pawns)) }
  function BlackFrontSpans(pawns: bv64): bv64 { SoutOne(SoutFill(pawns)) }

  /** A white pawn's front span (and a black pawn's rear span) is every
      square strictly north of a pawn on its file: square `j` is in it iff
      some pawn stands on the file of `j` at least one rank lower. */
  lemma NorthSpanHas(pawns: bv64, j: Index)
    ensures Has(WhiteFrontSpans(pawns), j) <==> j >= 8 && FedFromBelow(pawns, j - 8)
    ensures BlackRearSpans(pawns) == WhiteFrontSpans(pawns)
  {
    NortOneHas(NortFill(pawns), j);
    if j >= 8 {
      NortFillHas(pawns, j - 8);
    }
  }

  /** A black pawn's front span (and a white pawn's rear span) is every
      square strictly south of a pawn on its file. */
  lemma SouthSpanHas(pawns: bv64, j: Index)
    ensures Has(BlackFrontSpans(pawns), j) <==> j < 56 && FedFromAbove(pawns, j + 8)
    ensures WhiteRearSpans(pawns) == BlackFrontSpans(pawns)
  {
    SoutOneHas(SoutFill(pawns), j);
    if j < 56 {
      SoutFillHas(pawns, j + 8);
    }
  }

  // ---------------------------------------------------------------------
  // Occluded fills (src/bitwise.cpp:91-167): Kogge-Stone fills of
  // `pieces` through `empty`, shifted one step further so that the result
  // is the set of squares the pieces attack in that direction.

  function NortOccl(pieces: bv64, empty: bv64): bv64
  {
    var e0 := empty;
    var p1 := pieces | (e0 & (pieces << 8));
    var e1 := e0 & (e0 << 8);
    var p2 := p1 | (e1 & (p1 << 16));
    var e2 := e1 & (e1 << 16);
    var p3 := p2 | (e2 & (p2 << 32));
    NortOne(p3)
  }

  function SoutOccl(pieces: bv64, empty: bv64): bv64
  {
    var e0 := empty;
    var p1 := pieces | (e0 & (pieces >> 8));
    var e1 := e0 & (e0 >> 8);
    var p2 := p1 | (e1 & (p1 >> 16));
    var e2 := e1 & (e1 >> 16);
    var p3 := p2 | (e2 & (p2 >> 32));
    SoutOne(p3)
  }

  function EastOccl(pieces: bv64, empty: bv64): bv64
  {
    var e0 := empty & NOT_A_FILE;
    var p1 := pieces | (e0 & (pieces << 1));
    var e1 := e0 & (e0 << 1);
    var p2 := p1 | (e1 & (p1 << 2));
    var e2 := e1 & (e1 << 2);
    var p3 := p2 | (e2 & (p2 << 4));
    EastOne(p3)
  }

  function WestOccl(pieces: bv64, empty: bv64): bv64
  {
    var e0 := empty & NOT_H_FILE;
    var p1 := pieces | (e0 & (pieces >> 1));
    var e1 := e0 & (e0 >> 1);
    var p2 := p1 | (e1 & (p1 >> 2));
    var e2 := e1 & (e1 >> 2);
    var p3 := p2 | (e2 & (p2 >> 4));
    WestOne(p3)
  }

  function NoEaOccl(pieces: bv64, empty: bv64): bv64
  {
    var e0 := empty & NOT_A_FILE;
    var p1 := pieces | (e0 & (pieces << 9));
    var e1 := e0 & (e0 << 9);
    var p2 := p1 | (e1 & (p1 << 18));
    var e2 := e1 & (e1 << 18);
    var p3 := p2 | (e2 & (p2 << 36));
    NoEaOne(p3)
  }

  function NoWeOccl(pieces: bv64, empty: bv64): bv64
  {
    var e0 := empty & NOT_H_FILE;
    var p1 := pieces | (e0 & (pieces << 7));
    var e1 := e0 & (e0 << 7);
    var p2 := p1 | (e1 & (p1 << 14));
    var e2 := e1 & (e1 << 14);
    var p3 := p2 | (e2 & (p2 << 28));
    NoWeOne(p3)
  }

  function SoEaOccl(pieces: bv64, empty: bv64): bv64
  {
    var e0 := empty & NOT_A_FILE;
    var p1 := pieces | (e0 & (pieces >> 7));
    var e1 := e0 & (e0 >> 7);
    var p2 := p1 | (e1 & (p1 >> 14));
    var e2 := e1 & (e1 >> 14);
    var p3 := p2 | (e2 & (p2 >> 28));
    SoEaOne(p3)
  }

  function SoWeOccl(pieces: bv64, empty: bv64): bv64
  {
    var e0 := empty & NOT_H_FILE;
    var p1 := pieces | (e0 & (pieces >> 9));
    var e1 := e0 & (e0 >> 9);
    var p2 := p1 | (e1 & (p1 >> 18));
    var e2 := e1 & (e1 >> 18);
    var p3 := p2 | (e2 & (p2 >> 36));
    SoWeOne(p3)
  }


  // ---------------------------------------------------------------------
  // Ray tables (src/bitwise.cpp:276-289)

  /** `Direction` of src/types.h, in its declaration order. */
  datatype Direction = North | South | East | West | NorthEast | NorthWest | SouthEast | SouthWest

  /** `j` lies on the ray from `s` in direction `d`, `s` itself excluded. */
  predicate OnRay(d: Direction, s: Index, j: Index)
  {
    match d
      case North => FileOf(j) == FileOf(s) && RankOf(j) > RankOf(s)
      case South => FileOf(j) == FileOf(s) && RankOf(j) < RankOf(s)
      case East => RankOf(j) == RankOf(s) && FileOf(j) > FileOf(s)
      case West => RankOf(j) == RankOf(s) && FileOf(j) < FileOf(s)
      case NorthEast => FileOf(j) > FileOf(s) && FileOf(j) - FileOf(s) == RankOf(j) - RankOf(s)
      case NorthWest => FileOf(j) < FileOf(s) && FileOf(s) - FileOf(j) == RankOf(j) - RankOf(s)
      case SouthEast => FileOf(j) > FileOf(s) && FileOf(j) - FileOf(s) == RankOf(s) - RankOf(j)
      case SouthWest => FileOf(j) < FileOf(s) && FileOf(s) - FileOf(j) == RankOf(s) - RankOf(j)
  }

  /** `rayAttacks[d][s]`: the occluded fill from `s` over an empty board,
      without `s`. */
  function RayTable(d: Direction, s: Index): bv64
  {
    match d
      case North => NortOccl(Bit(s), ALL) & !Bit(s)
      case South => SoutOccl(Bit(s), ALL) & !Bit(s)
      case East => EastOccl(Bit(s), ALL) & !Bit(s)
      case West => WestOccl(Bit(s), ALL) & !Bit(s)
      case NorthEast => NoEaOccl(Bit(s), ALL) & !Bit(s)
      case NorthWest => NoWeOccl(Bit(s), ALL) & !Bit(s)
      case SouthEast => SoEaOccl(Bit(s), ALL) & !Bit(s)
      case SouthWest => SoWeOccl(Bit(s), ALL) & !Bit(s)
  }

  lemma NorthRayTo(s: Index, j: Index)
    requires Has(RayTable(North, s), j)
    ensures OnRay(North, s, j)
  {}

  lemma NorthRayFrom(s: Index, j: Index)
    requires OnRay(North, s, j)
    ensures Has(RayTable(North, s), j)
  {}

  lemma SouthRayTo(s: Index, j: Index)
    requires Has(RayTable(South, s), j)
    ensures OnRay(South, s, j)
  {}

  lemma SouthRayFrom(s: Index, j: Index)
    requires OnRay(South, s, j)
    ensures Has(RayTable(South, s), j)
  {}

  lemma EastRayTo(s: Index, j: Index)
    requires Has(RayTable(East, s), j)
    ensures OnRay(East, s, j)
  {}

  lemma EastRayFrom(s: Index, j: Index)
    requires OnRay(East, s, j)
    ensures Has(RayTable(East, s), j)
  {}

  lemma WestRayTo(s: Index, j: Index)
    requires Has(RayTable(West, s), j)
    ensures OnRay(West, s, j)
  {}

  lemma WestRayFrom(s: Index, j: Index)
    requires OnRay(West, s, j)
    ensures Has(RayTable(West, s), j)
  {}

  lemma NorthEastRayTo(s: Index, j: Index)
    requires Has(RayTable(NorthEast, s), j)
    ensures OnRay(NorthEast, s, j)
  {}

  lemma NorthEastRayFrom(s: Index, j: Index)
    requires OnRay(NorthEast, s, j)
    ensures Has(RayTable(NorthEast, s), j)
  {}

  lemma NorthWestRayTo(s: Index, j: Index)
    requires Has(RayTable(NorthWest, s), j)
    ensures OnRay(NorthWest, s, j)
  {}

  lemma NorthWestRayFrom(s: Index, j: Index)
    requires OnRay(NorthWest, s, j)
    ensures Has(RayTable(NorthWest, s), j)
  {}

  lemma SouthEastRayTo(s: Index, j: Index)
    requires Has(RayTable(SouthEast, s), j)
    ensures OnRay(SouthEast, s, j)
  {}

  lemma SouthEastRayFrom(s: Index, j: Index)
    requires OnRay(SouthEast, s, j)
    ensures Has(RayTable(SouthEast, s), j)
  {}

  lemma SouthWestRayTo(s: Index, j: Index)
    requires Has(RayTable(SouthWest, s), j)
    ensures OnRay(SouthWest, s, j)
  {}

  lemma SouthWestRayFrom(s: Index, j: Index)
    requires OnRay(SouthWest, s, j)
    ensures Has(RayTable(SouthWest, s), j)
  {}


  /** `rayAttacks[d][s]` holds exactly the squares from `s` in direction
      `d` to the edge of the board; one lemma per direction. */
  lemma NorthRayHas(s: Index, j: Index)
    ensures Has(RayTable(North, s), j) <==> OnRay(North, s, j)
  {
    if Has(RayTable(North, s), j) { NorthRayTo(s, j); }
    if OnRay(North, s, j) { NorthRayFrom(s, j); }
  }

  lemma SouthRayHas(s: Index, j: Index)
    ensures Has(RayTable(South, s), j) <==> OnRay(South, s, j)
  {
    if Has(RayTable(South, s), j) { SouthRayTo(s, j); }
    if OnRay(South, s, j) { SouthRayFrom(s, j); }
  }

  lemma EastRayHas(s: Index, j: Index)
    ensures Has(RayTable(East, s), j) <==> OnRay(East, s, j)
  {
    if Has(RayTable(East, s), j) { EastRayTo(s, j); }
    if OnRay(East, s, j) { EastRayFrom(s, j); }
  }

  lemma WestRayHas(s: Index, j: Index)
    ensures Has(RayTable(West, s), j) <==> OnRay(West, s, j)
  {
    if Has(RayTable(West, s), j) { WestRayTo(s, j); }
    if OnRay(West, s, j) { WestRayFrom(s, j); }
  }

  lemma NorthEastRayHas(s: Index, j: Index)
    ensures Has(RayTable(NorthEast, s), j) <==> OnRay(NorthEast, s, j)
  {
    if Has(RayTable(NorthEast, s), j) { NorthEastRayTo(s, j); }
    if OnRay(NorthEast, s, j) { NorthEastRayFrom(s, j); }
  }

  lemma NorthWestRayHas(s: Index, j: Index)
    ensures Has(RayTable(NorthWest, s), j) <==> OnRay(NorthWest, s, j)
  {
    if Has(RayTable(NorthWest, s), j) { NorthWestRayTo(s, j); }
    if OnRay(NorthWest, s, j) { NorthWestRayFrom(s, j); }
  }

  lemma SouthEastRayHas(s: Index, j: Index)
    ensures Has(RayTable(SouthEast, s), j) <==> OnRay(SouthEast, s, j)
  {
    if Has(RayTable(SouthEast, s), j) { SouthEastRayTo(s, j); }
    if OnRay(SouthEast, s, j) { SouthEastRayFrom(s, j); }
  }

  lemma SouthWestRayHas(s: Index, j: Index)
    ensures Has(RayTable(SouthWest, s), j) <==> OnRay(SouthWest, s, j)
  {
    if Has(RayTable(SouthWest, s), j) { SouthWestRayTo(s, j); }
    if OnRay(SouthWest, s, j) { SouthWestRayFrom(s, j); }
  }

  /** `getFile`: the rays north and south of `s` together with `s`
      itself. */
  function FileBoard(s: Index): bv64
  {
    RayTable(North, s) | RayTable(South, s) | Bit(s)
  }

  /** The file board holds exactly the squares of the file of `s`. */
  lemma FileBoardHas(s: Index, j: Index)
    ensures Has(FileBoard(s), j) <==> FileOf(j) == FileOf(s)
  {
    NorthRayHas(s, j);
    SouthRayHas(s, j);
    BitHas(s, j);
    HasOr(RayTable(North, s) | RayTable(South, s), Bit(s), j);
    HasOr(RayTable(North, s), RayTable(South, s), j);
    if FileOf(j) == FileOf(s) && RankOf(j) == RankOf(s) {
      SameFileRank(s, j);
    }
  }

  lemma HasOr(a: bv64, b: bv64, j: Index)
    ensures Has(a | b, j) <==> Has(a, j) || Has(b, j)
  {
    AndOverOr(a, b, Bit(j));
    OrNonZero(a & Bit(j), b & Bit(j));
  }

  lemma AndOverOr(a: bv64, b: bv64, m: bv64)
    ensures (a | b) & m == (a & m) | (b & m)
  {
  }

  lemma OrNonZero(x: bv64, y: bv64)
    ensures x | y != 0 <==> x != 0 || y != 0
  {
  }

  /** A square is fixed by its file and rank. */
  lemma SameFileRank(s: Index, j: Index)
    requires FileOf(j) == FileOf(s) && RankOf(j) == RankOf(s)
    ensures j == s
  {
  }

  /** The file of a square, as a number: the square modulo 8. */
  lemma FileOfValue(s: Index)
    ensures FileOf(s) as int == s as int % 8
  {
  }

  // ---------------------------------------------------------------------
  // Pawn, knight and king attacks (src/bitwise.cpp:169-201, 233-247, 323-326)

  /** The side whose pawns attack: white pawns attack northwards. */
  datatype PawnSide = WhitePawns | BlackPawns

  /** `calculatePawnAttacks<color>`: east and west captures together. */
  function PawnAttacks(side: PawnSide, pawns: bv64): bv64
  {
    match side
      case WhitePawns => NoEaOne(pawns) | NoWeOne(pawns)
      case BlackPawns => SoEaOne(pawns) | SoWeOne(pawns)
  }

  function KnightAttacks(knights: bv64): bv64
  {
    var l1 := (knights >> 1) & NOT_H_FILE;
    var l2 := (knights >> 2) & NOT_GH_FILE;
    var r1 := (knights << 1) & NOT_A_FILE;
    var r2 := (knights << 2) & NOT_AB_FILE;
    var h1 := l1 | r1;
    var h2 := l2 | r2;
    (h1 << 16) | (h1 >> 16) | (h2 << 8) | (h2 >> 8)
  }

  function KingAttacks(kingSet: bv64): bv64
  {
    var attacks := EastOne(kingSet) | WestOne(kingSet);
    var kings := kingSet | attacks;
    attacks | NortOne(kings) | SoutOne(kings)
  }

  /** The table entries: the attacks from the one-square board of `s`,
      with `s` itself removed. */
  function PawnTable(side: PawnSide, s: Index): bv64 { PawnAttacks(side, Bit(s)) & !Bit(s) }
  function KnightTable(s: Index): bv64 { KnightAttacks(Bit(s)) & !Bit(s) }
  function KingTable(s: Index): bv64 { KingAttacks(Bit(s)) & !Bit(s) }

  /** A pawn on `s` captures on `j`: one rank forward for its side and one
      file to either side. */
  predicate PawnCapture(side: PawnSide, s: Index, j: Index)
  {
    Dist(FileOf(s), FileOf(j)) == 1 &&
    match side
      case WhitePawns => RankOf(j) == RankOf(s) + 1
      case BlackPawns => RankOf(s) == RankOf(j) + 1
  }

  /** A knight jumps one file and two ranks, or two files and one rank. */
  predicate KnightJump(s: Index, j: Index)
  {
    var df := Dist(FileOf(s), FileOf(j));
    var dr := Dist(RankOf(s), RankOf(j));
    (df == 1 && dr == 2) || (df == 2 && dr == 1)
  }

  /** A king steps to any other square at most one file and one rank away. */
  predicate KingStep(s: Index, j: Index)
  {
    s != j && Dist(FileOf(s), FileOf(j)) <= 1 && Dist(RankOf(s), RankOf(j)) <= 1
  }

  lemma WhitePawnTo(s: Index, j: Index)
    requires Has(PawnTable(WhitePawns, s), j)
    ensures PawnCapture(WhitePawns, s, j)
  {}

  lemma WhitePawnFrom(s: Index, j: Index)
    requires PawnCapture(WhitePawns, s, j)
    ensures Has(PawnTable(WhitePawns, s), j)
  {}

  lemma BlackPawnTo(s: Index, j: Index)
    requires Has(PawnTable(BlackPawns, s), j)
    ensures PawnCapture(BlackPawns, s, j)
  {}

  lemma BlackPawnFrom(s: Index, j: Index)
    requires PawnCapture(BlackPawns, s, j)
    ensures Has(PawnTable(BlackPawns, s), j)
  {}

  /** `pawnAttacks[side][s]` holds exactly the two (or, on the edge files,
      one) diagonal capture squares; a pawn on its side's last rank
      attacks nothing. */
  lemma PawnTableHas(side: PawnSide, s: Index, j: Index)
    ensures Has(PawnTable(side, s), j) <==> PawnCapture(side, s, j)
  {
    match side
      case WhitePawns =>
        if Has(PawnTable(side, s), j) { WhitePawnTo(s, j); }
        if PawnCapture(side, s, j) { WhitePawnFrom(s, j); }
      case BlackPawns =>
        if Has(PawnTable(side, s), j) { BlackPawnTo(s, j); }
        if PawnCapture(side, s, j) { BlackPawnFrom(s, j); }
  }

  lemma KnightTo(s: Index, j: Index)
    requires Has(KnightTable(s), j)
    ensures KnightJump(s, j)
  {}

  lemma KnightFrom(s: Index, j: Index)
    requires KnightJump(s, j)
    ensures Has(KnightTable(s), j)
  {}

  /** `knightAttacks[s]` holds exactly the knight-jump squares: no jump
      wraps around the board edge, and `s` is never included. */
  lemma KnightTableHas(s: Index, j: Index)
    ensures Has(KnightTable(s), j) <==> KnightJump(s, j)
  {
    if Has(KnightTable(s), j) { KnightTo(s, j); }
    if KnightJump(s, j) { KnightFrom(s, j); }
  }

  lemma KingTo(s: Index, j: Index)
    requires Has(KingTable(s), j)
    ensures KingStep(s, j)
  {}

  lemma KingFrom(s: Index, j: Index)
    requires KingStep(s, j)
    ensures Has(KingTable(s), j)
  {}

  /** `kingAttacks[s]` holds exactly the adjacent squares, never `s`. */
  lemma KingTableHas(s: Index, j: Index)
    ensures Has(KingTable(s), j) <==> KingStep(s, j)
  {
    if Has(KingTable(s), j) { KingTo(s, j); }
    if KingStep(s, j) { KingFrom(s, j); }
  }
}
