/** Pieces, colours and squares of the engine, with the small helpers of
    src/types.h and src/utils.h that classify and weigh them.

    The engine numbers pieces as `uint8_t` codes: white pieces on even codes,
    each black twin on the following odd code, pawn..king in that order, and
    255 for "no piece". Colours are WHITE = 0, BLACK = 1 and EMPTY = 255. */
module Types {

  /** A board square, A1 = 0 .. H8 = 63, file = s % 8, rank = s / 8. */
  type Square = s: nat | s < 64

  /** Any value of an 8-bit enumeration. */
  type Byte = b: nat | b < 256

  /** A code of one of the twelve real pieces. */
  type Piece = p: nat | p < 12

  const WHITE_PAWN: Piece := 0
  const BLACK_PAWN: Piece := 1
  const WHITE_KNIGHT: Piece := 2
  const BLACK_KNIGHT: Piece := 3
  const WHITE_BISHOP: Piece := 4
  const BLACK_BISHOP: Piece := 5
  const WHITE_ROOK: Piece := 6
  const BLACK_ROOK: Piece := 7
  const WHITE_QUEEN: Piece := 8
  const BLACK_QUEEN: Piece := 9
  const WHITE_KING: Piece := 10
  const BLACK_KING: Piece := 11
  /** `Piece::EMPTY`, the code of an empty square. */
  const NO_PIECE: Byte := 255

  const WHITE: Byte := 0
  const BLACK: Byte := 1
  /** `PieceColor::EMPTY`. */
  const NO_COLOR: Byte := 255

  /** The six kinds of chess men, in the engine's order. */
  datatype Kind = Pawn | Knight | Bishop | Rook | Queen | King

  /** A reference colour independent of the numeric codes. */
  datatype Side = WhiteSide | BlackSide

  function KindIndex(k: Kind): (i: nat)
    ensures i < 6
  {
    match k
    case Pawn => 0
    case Knight => 1
    case Bishop => 2
    case Rook => 3
    case Queen => 4
    case King => 5
  }

  function SideCode(s: Side): (c: Byte)
    ensures c == WHITE || c == BLACK
  {
    if s == WhiteSide then WHITE else BLACK
  }

  /** The code of the piece of side `s` and kind `k`. */
  function PieceOf(s: Side, k: Kind): (p: Piece)
    ensures p % 2 == SideCode(s) && p / 2 == KindIndex(k)
  {
    2 * KindIndex(k) + SideCode(s)
  }

  /** The colour of a piece code, white on even codes and black on odd ones
      (the convention `colorBB[piece % 2]` of src/bitboard.cpp relies on). */
  function ColorOf(p: Piece): (c: Byte)
    ensures c == WHITE || c == BLACK
  {
    p % 2
  }

  /** The kind of a piece code. */
  function KindOf(p: Piece): (k: Kind)
    ensures PieceOf(if p % 2 == 0 then WhiteSide else BlackSide, k) == p
  {
    match p / 2
    case 0 => Pawn
    case 1 => Knight
    case 2 => Bishop
    case 3 => Rook
    case 4 => Queen
    case _ => King
  }

  /** The same kind in the other colour. */
  function Twin(p: Piece): (q: Piece)
    ensures KindOf(q) == KindOf(p) && ColorOf(q) != ColorOf(p)
  {
    if p % 2 == 0 then p + 1 else p - 1
  }

  /** Decoding a piece built from a side and a kind gives them back. */
  lemma PieceOfRoundTrip(s: Side, k: Kind)
    ensures ColorOf(PieceOf(s, k)) == SideCode(s)
    ensures KindOf(PieceOf(s, k)) == k
  {
    var p := PieceOf(s, k);
    assert p / 2 == KindIndex(k);
  }

  /** `operator!` on `PieceColor`: WHITE becomes BLACK and every other value,
      BLACK and EMPTY alike, becomes WHITE. */
  function Opposite(c: Byte): (r: Byte)
    ensures (c == WHITE) <==> (r == BLACK)
    ensures r == WHITE || r == BLACK
  {
    if c == WHITE then BLACK else WHITE
  }

  lemma OppositeInvolution(c: Byte)
    requires c == WHITE || c == BLACK
    ensures Opposite(Opposite(c)) == c && Opposite(c) != c
  {
  }

  /** `getOppositeColor`: XOR with 1 on the 8-bit colour value, which
      toggles its lowest bit. */
  function OppositeByXor(c: Byte): (r: Byte)
    ensures c == WHITE ==> r == BLACK
    ensures c == BLACK ==> r == WHITE
    ensures c == NO_COLOR ==> r == 254
  {
    if c % 2 == 0 then c + 1 else c - 1
  }

  /** Both colour flips agree on the two real colours, and XOR with 1 is its
      own inverse on every byte. */
  lemma OppositeByXorFacts(c: Byte)
    ensures (c == WHITE || c == BLACK) ==> OppositeByXor(c) == Opposite(c)
    ensures OppositeByXor(OppositeByXor(c)) == c
  {
  }

  /** `pieceColor` as written in src/types.h: the code divided by two. */
  function PieceColorAsWritten(p: Byte): (c: Byte)
    ensures c * 2 <= p < c * 2 + 2
  {
    p / 2
  }

  /** `pieceType` as written in src/types.h: the code modulo two. */
  function PieceTypeAsWritten(p: Byte): (t: Byte)
    ensures t < 2 && (p - t) % 2 == 0
  {
    p % 2
  }

  /** The black pawn is reported white and the white knight black by the
      division, and every kind above knight is reported as pawn or knight by
      the remainder: the two formulas are swapped. */
  lemma PieceColorAsWrittenIsWrong()
    ensures PieceColorAsWritten(BLACK_PAWN) == WHITE
    ensures PieceColorAsWritten(WHITE_KNIGHT) == BLACK
    ensures PieceColorAsWritten(BLACK_KING) == 5
    ensures PieceTypeAsWritten(WHITE_ROOK) == KindIndex(Pawn)
    ensures ColorOf(BLACK_PAWN) == BLACK && KindOf(WHITE_ROOK) == Rook
  {
  }

  /** The corrected pair: the remainder gives the colour and the quotient the
      kind, for every one of the twelve pieces. */
  lemma PieceColorCorrected(s: Side, k: Kind)
    ensures ColorOf(PieceOf(s, k)) == SideCode(s)
    ensures PieceTypeCorrected(PieceOf(s, k)) == KindIndex(k)
  {
    PieceOfRoundTrip(s, k);
  }

  /** The intended `pieceType`: the kind index, the quotient by two. */
  function PieceTypeCorrected(p: Piece): (t: nat)
    ensures t == KindIndex(KindOf(p))
  {
    p / 2
  }

  // ---------------------------------------------------------------------
  // src/utils.h: weights and predicates

  /** `pieceWeights`, indexed by piece code. */
  const PIECE_WEIGHTS: seq<nat> :=
    [100, 100, 350, 350, 350, 350, 525, 525, 1000, 1000, 65535, 65535]

  /** Reference weights per kind. */
  function KindWeight(k: Kind): nat
  {
    match k
    case Pawn => 100
    case Knight => 350
    case Bishop => 350
    case Rook => 525
    case Queen => 1000
    case King => 65535
  }

  /** `getPieceWeight`: the table entry, which is the kind's weight for
      either colour. */
  function PieceWeight(p: Piece): (w: nat)
    ensures w == KindWeight(KindOf(p))
    ensures w < 65536
  {
    PIECE_WEIGHTS[p]
  }

  lemma WeightColourBlind(p: Piece)
    ensures PieceWeight(p) == PieceWeight(Twin(p))
  {
  }

  predicate IsPawn(p: Byte) { p == WHITE_PAWN || p == BLACK_PAWN }
  predicate IsKnight(p: Byte) { p == WHITE_KNIGHT || p == BLACK_KNIGHT }
  predicate IsBishop(p: Byte) { p == WHITE_BISHOP || p == BLACK_BISHOP }
  predicate IsRook(p: Byte) { p == WHITE_ROOK || p == BLACK_ROOK }
  predicate IsQueen(p: Byte) { p == WHITE_QUEEN || p == BLACK_QUEEN }
  predicate IsKing(p: Byte) { p == WHITE_KING || p == BLACK_KING }

  /** `isSlidingPiece`: bishops, rooks and queens. */
  predicate IsSliding(p: Byte) { IsBishop(p) || IsRook(p) || IsQueen(p) }

  /** `isNotPawnOrKing`. */
  predicate IsNotPawnOrKing(p: Byte)
  {
    p != WHITE_PAWN && p != BLACK_PAWN && p != WHITE_KING && p != BLACK_KING
  }

  /** The predicates classify a real piece exactly by its kind. */
  lemma ClassifyByKind(p: Piece)
    ensures IsPawn(p) <==> KindOf(p) == Pawn
    ensures IsKnight(p) <==> KindOf(p) == Knight
    ensures IsBishop(p) <==> KindOf(p) == Bishop
    ensures IsRook(p) <==> KindOf(p) == Rook
    ensures IsQueen(p) <==> KindOf(p) == Queen
    ensures IsKing(p) <==> KindOf(p) == King
    ensures IsSliding(p) <==> KindOf(p) in {Bishop, Rook, Queen}
    ensures IsNotPawnOrKing(p) <==> KindOf(p) in {Knight, Bishop, Rook, Queen}
  {
  }

  /** No predicate holds of the empty code except "not pawn or king". */
  lemma ClassifyEmpty()
    ensures !IsPawn(NO_PIECE) && !IsKing(NO_PIECE) && !IsSliding(NO_PIECE)
    ensures IsNotPawnOrKing(NO_PIECE)
  {
  }

  // ---------------------------------------------------------------------
  // src/utils.cpp: getCharacterForPieceType

  predicate IsUpper(c: char) { 'A' <= c <= 'Z' }
  predicate IsLower(c: char) { 'a' <= c <= 'z' }

  /** The lower-case letter of each kind, in kind order. */
  const KIND_LETTERS: string := "pnbrqk"

  /** `getCharacterForPieceType`: an upper-case letter for a white piece,
      the lower-case letter for its black twin, and a space for EMPTY; the
      switch has no case for other codes. */
  function PieceChar(p: Byte): (c: char)
    requires p < 12 || p == NO_PIECE
    ensures p == NO_PIECE ==> c == ' '
    ensures p < 12 ==> (IsUpper(c) <==> p % 2 == 0) && (IsLower(c) <==> p % 2 == 1)
    ensures p < 12 && p % 2 == 1 ==> c == KIND_LETTERS[p / 2]
    ensures p < 12 && p % 2 == 0 ==> c as int == KIND_LETTERS[p / 2] as int - 32
  {
    match p
    case 0 => 'P'
    case 1 => 'p'
    case 2 => 'N'
    case 3 => 'n'
    case 4 => 'B'
    case 5 => 'b'
    case 6 => 'R'
    case 7 => 'r'
    case 8 => 'Q'
    case 9 => 'q'
    case 10 => 'K'
    case 11 => 'k'
    case _ => ' '
  }

  /** Different codes get different characters. */
  lemma PieceCharInjective(p: Byte, q: Byte)
    requires p < 12 || p == NO_PIECE
    requires q < 12 || q == NO_PIECE
    requires PieceChar(p) == PieceChar(q)
    ensures p == q
  {
  }
}
