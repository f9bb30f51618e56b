/** The position object of src/bitboard.cpp: the twelve piece boards, the
    two colour boards, the occupancy, the square-to-piece mapping, the
    material counts, the four piece-square sums and the Zobrist hash, which
    all describe the same placement of men, together with the clocks, the
    castling rights, the en-passant square and the per-ply history and undo
    stacks.

    Bitboards are modelled as sets of squares. The Zobrist hash is modelled
    as the set of Zobrist constants exclusive-ored into it (`Hash`): XOR-ing
    a constant in twice takes it out again, which is symmetric difference
    on the set, and the 64-bit value is the exclusive or of the constants in
    the set. The piece-square tables are an input. */
module Bitboard {
  import opened Types
  import Pst
  import Bits
  import Attacks

  /** `MAX_PLY` of src/constants.h: the length of the history and undo
      stacks. */
  const MAX_PLY: nat := 750
  /** `NO_SQUARE`: the value of the en-passant square when there is none. */
  const NO_SQUARE: int := -1

  const A1: Square := 0
  const C1: Square := 2
  const D1: Square := 3
  const F1: Square := 5
  const G1: Square := 6
  const H1: Square := 7
  const A8: Square := 56
  const C8: Square := 58
  const D8: Square := 59
  const F8: Square := 61
  const G8: Square := 62
  const H8: Square := 63

  /** What a square of the mapping holds: a piece code or `EMPTY`. */
  type Occupant = o: Byte | o < 12 || o == NO_PIECE
  type File = f: nat | f < 8

  /** The four castling rights and their bits in `castlingRights`. */
  datatype CastleRight = WhiteKingside | WhiteQueenside | BlackKingside | BlackQueenside

  function RightBit(r: CastleRight): (bit: bv8)
    ensures bit == 1 || bit == 2 || bit == 4 || bit == 8
  {
    match r
      case WhiteKingside => 1
      case WhiteQueenside => 2
      case BlackKingside => 4
      case BlackQueenside => 8
  }

  /** The castling rights held. The source keeps them as the bit mask
      `Mask`. */
  type Rights = set<CastleRight>

  /** `castlingRights` as a bit mask. */
  function Mask(c: Rights): bv8
  {
    (if WhiteKingside in c then 1 else 0) | (if WhiteQueenside in c then 2 else 0) |
    (if BlackKingside in c then 4 else 0) | (if BlackQueenside in c then 8 else 0)
  }

  /** A right's bit is set in the mask exactly when the right is held, and
      the mask has no other bits, so the set and the mask determine each
      other. */
  lemma MaskBits(c: Rights, r: CastleRight)
    ensures Mask(c) & RightBit(r) != 0 <==> r in c
    ensures Mask(c) & 0xF0 == 0
  {
  }

  /** One Zobrist constant: per (piece, square), for black to move, per
      castling right and per en-passant file. */
  datatype Token = PieceToken(p: Piece, sq: Square) | SideToken | CastleToken(r: CastleRight) | EnPassantToken(f: File)

  /** A Zobrist hash, as the set of constants exclusive-ored into it. */
  type Hash = set<Token>

  /** `hash ^= constant`. */
  function Toggle(h: Hash, k: Token): (r: Hash)
    ensures k in r <==> k !in h
    ensures forall j :: j != k ==> (j in r <==> j in h)
  {
    if k in h then h - {k} else h + {k}
  }

  /** The tokens on which two hashes differ: `a ^ b`. */
  function Delta(a: Hash, b: Hash): (d: Hash)
    ensures d == {} <==> a == b
  {
    assert a - b == {} && b - a == {} ==> a == b;
    (a - b) + (b - a)
  }

  /** Toggling the same constant into both hashes leaves their difference. */
  lemma ToggleBoth(a: Hash, b: Hash, k: Token)
    ensures Delta(Toggle(a, k), Toggle(b, k)) == Delta(a, b)
  {
  }

  /** The piece-square tables, shaped. */
  type Tables = t: Pst.Tables | Pst.Shaped(t)
    witness Pst.Tables(seq(768, _ => 0), seq(768, _ => 0), seq(768, _ => 0), seq(768, _ => 0))

  /** A move as the board receives it. `captureScore` and `score` are
      ordering data of the move generator. */
  datatype Move = Move(from: int, to: int, piece: Occupant, captureScore: int, promotionPiece: Occupant, score: int)

  /** The move stored as `previousMove` after a null move. */
  const NULL_MOVE: Move := Move(NO_SQUARE, NO_SQUARE, NO_PIECE, 0, NO_PIECE, 0)

  datatype MoveType = Regular | EnPassant | Castling

  /** `UndoData`: what `makeMove` cannot recompute when taking a move back. */
  datatype Undo = Undo(captured: Occupant, halfMoveClock: int, enPassant: int, castling: Rights,
                       moveType: MoveType, hash: Hash, previousMove: Move)

  /** A value-initialised undo record. */
  const CLEARED_UNDO: Undo := Undo(NO_PIECE, 0, NO_SQUARE, {}, Regular, {}, NULL_MOVE)

  type PieceBoards = s: seq<set<Square>> | |s| == 12 witness seq(12, _ => {})
  type ColorBoards = s: seq<set<Square>> | |s| == 2 witness [{}, {}]
  type Mapping = m: seq<Occupant> | |m| == 64 witness seq(64, _ => NO_PIECE)
  type Counts = c: seq<int> | |c| == 12 witness seq(12, _ => 0)
  type PstSums = v: seq<int> | |v| == 4 witness [0, 0, 0, 0]
  type History = h: seq<Hash> | |h| == MAX_PLY witness seq(MAX_PLY, _ => {})
  type UndoStack = u: seq<Undo> | |u| == MAX_PLY witness seq(MAX_PLY, _ => CLEARED_UNDO)

  /** The fields of a `Bitboard` that its move and FEN operations touch.
      `pst` holds white midgame, black midgame, white endgame and black
      endgame sums in that order. */
  datatype Board = Board(
    pieces: PieceBoards,
    colors: ColorBoards,
    occupied: set<Square>,
    mapping: Mapping,
    material: Counts,
    pst: PstSums,
    hash: Hash,
    side: Byte,
    halfMoveClock: int,
    fullmoveClock: int,
    ply: nat,
    enPassant: int,
    castling: Rights,
    history: History,
    undo: UndoStack,
    previousMove: Move)

  // ---------------------------------------------------------------------
  // What the redundant fields must agree on

  /** The piece-square value `o` contributes to the sum of `colour`. */
  function PstOfSquare(t: Tables, o: Occupant, sq: Square, colour: Byte, endgame: bool): int
  {
    if o == NO_PIECE || o % 2 != colour then 0
    else if endgame then Pst.EndgameValue(t, o, sq)
    else Pst.MidgameValue(t, o, sq)
  }

  /** The piece-square sum of `colour` over squares `0 .. n-1`. */
  function PstSum(t: Tables, m: Mapping, colour: Byte, endgame: bool, n: nat): int
    requires n <= 64
  {
    if n == 0 then 0 else PstSum(t, m, colour, endgame, n - 1) + PstOfSquare(t, m[n - 1], n - 1, colour, endgame)
  }

  /** The four piece-square sums of a placement. */
  function PstOf(t: Tables, m: Mapping): PstSums
  {
    [PstSum(t, m, WHITE, false, 64), PstSum(t, m, BLACK, false, 64),
     PstSum(t, m, WHITE, true, 64), PstSum(t, m, BLACK, true, 64)]
  }

  /** Changing one square changes each sum by the difference of the two
      occupants' values there. */
  lemma {:induction false} PstSumUpdate(t: Tables, m: Mapping, sq: Square, o: Occupant, colour: Byte, endgame: bool, n: nat)
    requires n <= 64
    ensures PstSum(t, m[sq := o], colour, endgame, n) ==
      PstSum(t, m, colour, endgame, n) +
      (if sq < n then PstOfSquare(t, o, sq, colour, endgame) - PstOfSquare(t, m[sq], sq, colour, endgame) else 0)
  {
    if n > 0 {
      PstSumUpdate(t, m, sq, o, colour, endgame, n - 1);
    }
  }

  /** The constants of the men of a placement. */
  function PieceTokens(m: Mapping): Hash
  {
    set sq: Square | m[sq] != NO_PIECE :: PieceToken(m[sq], sq)
  }

  /** Putting a man on an empty square adds its constant; emptying a square
      takes the constant of its man out. */
  lemma PieceTokensHas(m: Mapping, k: Token)
    ensures k in PieceTokens(m) <==> k.PieceToken? && m[k.sq] == k.p
  {
    if k.PieceToken? && m[k.sq] == k.p {
      var s := k.sq;
      assert m[s] != NO_PIECE && k == PieceToken(m[s], s);
    }
  }

  lemma PieceTokensUpdate(m: Mapping, sq: Square, o: Occupant)
    requires m[sq] == NO_PIECE || o == NO_PIECE
    ensures m[sq] == NO_PIECE && o != NO_PIECE ==> PieceTokens(m[sq := o]) == Toggle(PieceTokens(m), PieceToken(o, sq))
    ensures m[sq] != NO_PIECE ==> PieceTokens(m[sq := o]) == Toggle(PieceTokens(m), PieceToken(m[sq], sq))
    ensures m[sq] == NO_PIECE && o == NO_PIECE ==> PieceTokens(m[sq := o]) == PieceTokens(m)
  {
    var m2 := m[sq := o];
    if m[sq] == NO_PIECE && o != NO_PIECE {
      forall k: Token
        ensures k in PieceTokens(m2) <==> k in Toggle(PieceTokens(m), PieceToken(o, sq))
      {
        PieceTokensHas(m, k);
        PieceTokensHas(m2, k);
      }
    } else if m[sq] != NO_PIECE {
      forall k: Token
        ensures k in PieceTokens(m2) <==> k in Toggle(PieceTokens(m), PieceToken(m[sq], sq))
      {
        PieceTokensHas(m, k);
        PieceTokensHas(m2, k);
      }
    } else {
      assert m2 == m;
    }
  }

  function SideTokens(side: Byte): Hash
  {
    if side == BLACK then {SideToken} else {}
  }

  function CastleTokens(castling: Rights): Hash
  {
    set r | r in castling :: CastleToken(r)
  }

  function EnPassantTokens(ep: int): Hash
  {
    if 0 <= ep < 64 then {EnPassantToken(ep % 8)} else {}
  }

  /** The hash a position should carry: the constants of its men, of black
      to move, of its castling rights and of its en-passant file. */
  function HashOf(b: Board): Hash
  {
    PieceTokens(b.mapping) + SideTokens(b.side) + CastleTokens(b.castling) + EnPassantTokens(b.enPassant)
  }

  /** How far the incrementally kept hash is from the recomputed one. */
  function Drift(b: Board): Hash
  {
    Delta(b.hash, HashOf(b))
  }

  /** Square `sq` holds a man of colour `c`. */
  predicate HoldsColour(b: Board, sq: Square, c: Byte)
  {
    b.mapping[sq] != NO_PIECE && b.mapping[sq] % 2 == c
  }

  /** Each piece board holds exactly the squares the mapping gives that
      piece. */
  predicate BoardsMatch(b: Board)
  {
    forall p: Piece, sq: Square :: sq in b.pieces[p] <==> b.mapping[sq] == p
  }

  /** Each colour board holds exactly the squares of that colour's men, and
      the occupancy exactly the squares holding a man. */
  predicate ColoursMatch(b: Board)
  {
    (forall sq: Square :: sq in b.colors[WHITE] <==> HoldsColour(b, sq, WHITE)) &&
    (forall sq: Square :: sq in b.colors[BLACK] <==> HoldsColour(b, sq, BLACK)) &&
    (forall sq: Square :: sq in b.occupied <==> b.mapping[sq] != NO_PIECE)
  }

  /** Each material count is the size of its piece board. */
  predicate CountsMatch(b: Board)
  {
    forall p: Piece :: b.material[p] == |b.pieces[p]|
  }

  /** The piece boards, colour boards, occupancy, material counts and
      piece-square sums all describe the placement of the mapping. */
  predicate PiecesAgree(t: Tables, b: Board)
  {
    BoardsMatch(b) && ColoursMatch(b) && CountsMatch(b) && b.pst == PstOf(t, b.mapping)
  }

  predicate ValidEnPassant(ep: int)
  {
    ep == NO_SQUARE || 0 <= ep < 64
  }

  /** The representation invariant of a position. */
  predicate Consistent(t: Tables, b: Board)
  {
    PiecesAgree(t, b) && b.hash == HashOf(b) && ValidEnPassant(b.enPassant)
  }

  /** Two agreeing positions with the same mapping have the same piece
      boards, colour boards, occupancy, counts and sums: the mapping alone
      determines them. */
  lemma AgreementDetermined(t: Tables, a: Board, b: Board)
    requires PiecesAgree(t, a) && PiecesAgree(t, b) && a.mapping == b.mapping
    ensures a.pieces == b.pieces && a.colors == b.colors && a.occupied == b.occupied
    ensures a.material == b.material && a.pst == b.pst
  {
    forall p: Piece
      ensures a.pieces[p] == b.pieces[p]
    {
      forall sq: Square
        ensures sq in a.pieces[p] <==> sq in b.pieces[p]
      {
        assert a.mapping[sq] == b.mapping[sq];
      }
    }
    assert a.colors[WHITE] == b.colors[WHITE];
    assert a.colors[BLACK] == b.colors[BLACK];
  }

  // ---------------------------------------------------------------------
  // setPiece and removePiece (src/bitboard.cpp:87-107)

  /** `setPiece(square, piece)`. */
  function SetPiece(t: Tables, b: Board, sq: Square, p: Piece): (r: Board)
    ensures r.mapping == b.mapping[sq := p]
    ensures r == b.(pieces := r.pieces, colors := r.colors, occupied := r.occupied, mapping := r.mapping,
                    material := r.material, pst := r.pst, hash := r.hash)
  {
    var c := p % 2;
    b.(pieces := b.pieces[p := b.pieces[p] + {sq}],
       occupied := b.occupied + {sq},
       colors := b.colors[c := b.colors[c] + {sq}],
       mapping := b.mapping[sq := p],
       hash := Toggle(b.hash, PieceToken(p, sq)),
       material := b.material[p := b.material[p] + 1],
       pst := b.pst[c := b.pst[c] + Pst.MidgameValue(t, p, sq)]
                   [c + 2 := b.pst[c + 2] + Pst.EndgameValue(t, p, sq)])
  }

  /** `removePiece(square, piece)`. */
  function RemovePiece(t: Tables, b: Board, sq: Square, p: Piece): (r: Board)
    ensures r.mapping == b.mapping[sq := NO_PIECE]
    ensures r == b.(pieces := r.pieces, colors := r.colors, occupied := r.occupied, mapping := r.mapping,
                    material := r.material, pst := r.pst, hash := r.hash)
  {
    var c := p % 2;
    b.(pieces := b.pieces[p := b.pieces[p] - {sq}],
       occupied := b.occupied - {sq},
       colors := b.colors[c := b.colors[c] - {sq}],
       mapping := b.mapping[sq := NO_PIECE],
       hash := Toggle(b.hash, PieceToken(p, sq)),
       material := b.material[p := b.material[p] - 1],
       pst := b.pst[c := b.pst[c] - Pst.MidgameValue(t, p, sq)]
                   [c + 2 := b.pst[c + 2] - Pst.EndgameValue(t, p, sq)])
  }

  /** Placing a man on an empty square keeps every redundant field in
      agreement with the mapping, and moves the stored hash exactly as far
      as the recomputed one. */
  lemma SetPieceAgrees(t: Tables, b: Board, sq: Square, p: Piece)
    requires PiecesAgree(t, b) && b.mapping[sq] == NO_PIECE
    ensures PiecesAgree(t, SetPiece(t, b, sq, p))
    ensures Drift(SetPiece(t, b, sq, p)) == Drift(b)
  {
    var r := SetPiece(t, b, sq, p);
    SetPieceBoards(b, r, sq, p);
    SetPieceColours(b, r, sq, p);
    PstAfterChange(t, b, r, sq, p);
    HashAfterChange(b, r, sq, p);
  }

  lemma SetPieceBoards(b: Board, r: Board, sq: Square, p: Piece)
    requires BoardsMatch(b) && CountsMatch(b) && b.mapping[sq] == NO_PIECE
    requires r.mapping == b.mapping[sq := p] && r.pieces == b.pieces[p := b.pieces[p] + {sq}]
    requires r.material == b.material[p := b.material[p] + 1]
    ensures BoardsMatch(r) && CountsMatch(r)
  {
    assert sq !in b.pieces[p];
    assert r.material[p] == |r.pieces[p]|;
  }

  lemma SetPieceColours(b: Board, r: Board, sq: Square, p: Piece)
    requires ColoursMatch(b) && b.mapping[sq] == NO_PIECE
    requires r.mapping == b.mapping[sq := p] && r.occupied == b.occupied + {sq}
    requires r.colors == b.colors[p % 2 := b.colors[p % 2] + {sq}]
    ensures ColoursMatch(r)
  {
  }

  /** The piece-square sums follow a one-square change of the mapping. */
  lemma PstAfterChange(t: Tables, b: Board, r: Board, sq: Square, p: Piece)
    requires b.pst == PstOf(t, b.mapping)
    requires b.mapping[sq] == NO_PIECE || b.mapping[sq] == p
    requires var o: Occupant := if b.mapping[sq] == NO_PIECE then p else NO_PIECE;
             var sign := if b.mapping[sq] == NO_PIECE then 1 else -1;
             r.mapping == b.mapping[sq := o] &&
             r.pst == b.pst[p % 2 := b.pst[p % 2] + sign * Pst.MidgameValue(t, p, sq)]
                           [p % 2 + 2 := b.pst[p % 2 + 2] + sign * Pst.EndgameValue(t, p, sq)]
    ensures r.pst == PstOf(t, r.mapping)
  {
    var o: Occupant := if b.mapping[sq] == NO_PIECE then p else NO_PIECE;
    PstSumUpdate(t, b.mapping, sq, o, WHITE, false, 64);
    PstSumUpdate(t, b.mapping, sq, o, BLACK, false, 64);
    PstSumUpdate(t, b.mapping, sq, o, WHITE, true, 64);
    PstSumUpdate(t, b.mapping, sq, o, BLACK, true, 64);
  }

  /** A one-square change of the mapping that toggles that man's constant
      into the stored hash keeps the drift. */
  lemma HashAfterChange(b: Board, r: Board, sq: Square, p: Piece)
    requires b.mapping[sq] == NO_PIECE || b.mapping[sq] == p
    requires r.mapping == b.mapping[sq := if b.mapping[sq] == NO_PIECE then p else NO_PIECE]
    requires r.hash == Toggle(b.hash, PieceToken(p, sq))
    requires r.side == b.side && r.castling == b.castling && r.enPassant == b.enPassant
    ensures Drift(r) == Drift(b)
  {
    PieceTokensUpdate(b.mapping, sq, if b.mapping[sq] == NO_PIECE then p else NO_PIECE);
    var rest := SideTokens(b.side) + CastleTokens(b.castling) + EnPassantTokens(b.enPassant);
    assert PieceToken(p, sq) !in rest;
    assert HashOf(r) == Toggle(HashOf(b), PieceToken(p, sq));
    ToggleBoth(b.hash, HashOf(b), PieceToken(p, sq));
  }

  /** Lifting the man that stands on a square keeps every redundant field
      in agreement with the mapping, and moves the stored hash exactly as
      far as the recomputed one. */
  lemma RemovePieceAgrees(t: Tables, b: Board, sq: Square, p: Piece)
    requires PiecesAgree(t, b) && b.mapping[sq] == p
    ensures PiecesAgree(t, RemovePiece(t, b, sq, p))
    ensures Drift(RemovePiece(t, b, sq, p)) == Drift(b)
  {
    var r := RemovePiece(t, b, sq, p);
    RemovePieceBoards(b, r, sq, p);
    RemovePieceColours(b, r, sq, p);
    PstAfterChange(t, b, r, sq, p);
    HashAfterChange(b, r, sq, p);
  }

  lemma RemovePieceBoards(b: Board, r: Board, sq: Square, p: Piece)
    requires BoardsMatch(b) && CountsMatch(b) && b.mapping[sq] == p
    requires r.mapping == b.mapping[sq := NO_PIECE] && r.pieces == b.pieces[p := b.pieces[p] - {sq}]
    requires r.material == b.material[p := b.material[p] - 1]
    ensures BoardsMatch(r) && CountsMatch(r)
  {
    assert sq in b.pieces[p];
    assert b.pieces[p] == r.pieces[p] + {sq};
    assert r.material[p] == |r.pieces[p]|;
  }

  lemma RemovePieceColours(b: Board, r: Board, sq: Square, p: Piece)
    requires ColoursMatch(b) && b.mapping[sq] == p
    requires r.mapping == b.mapping[sq := NO_PIECE] && r.occupied == b.occupied - {sq}
    requires r.colors == b.colors[p % 2 := b.colors[p % 2] - {sq}]
    ensures ColoursMatch(r)
  {
  }

  /** `removePiece` right after `setPiece` on an empty square restores
      every field, the hash by the self-inverse exclusive or. */
  lemma RemoveAfterSet(t: Tables, b: Board, sq: Square, p: Piece)
    requires PiecesAgree(t, b) && b.mapping[sq] == NO_PIECE
    ensures RemovePiece(t, SetPiece(t, b, sq, p), sq, p) == b
  {
    assert sq !in b.pieces[p];
    assert !HoldsColour(b, sq, p % 2);
    UndoPlacement(t, b, sq, p);
  }

  lemma UndoPlacement(t: Tables, b: Board, sq: Square, p: Piece)
    requires b.mapping[sq] == NO_PIECE
    requires sq !in b.pieces[p] && sq !in b.colors[p % 2] && sq !in b.occupied
    ensures RemovePiece(t, SetPiece(t, b, sq, p), sq, p) == b
  {
    var r := RemovePiece(t, SetPiece(t, b, sq, p), sq, p);
    var c := p % 2;
    assert r.pieces[p] == b.pieces[p];
    assert r.pieces == b.pieces;
    assert r.colors[c] == b.colors[c];
    assert r.colors == b.colors;
    assert r.mapping == b.mapping;
    assert r.material == b.material;
    assert r.pst == b.pst;
  }

  /** `setPiece` right after `removePiece` of the man on a square restores
      every field. */
  lemma SetAfterRemove(t: Tables, b: Board, sq: Square, p: Piece)
    requires PiecesAgree(t, b) && b.mapping[sq] == p
    ensures SetPiece(t, RemovePiece(t, b, sq, p), sq, p) == b
  {
    assert sq in b.pieces[p];
    assert HoldsColour(b, sq, p % 2);
    RedoPlacement(t, b, sq, p);
  }

  lemma RedoPlacement(t: Tables, b: Board, sq: Square, p: Piece)
    requires b.mapping[sq] == p
    requires sq in b.pieces[p] && sq in b.colors[p % 2] && sq in b.occupied
    ensures SetPiece(t, RemovePiece(t, b, sq, p), sq, p) == b
  {
    var r := SetPiece(t, RemovePiece(t, b, sq, p), sq, p);
    var c := p % 2;
    assert r.pieces[p] == b.pieces[p];
    assert r.pieces == b.pieces;
    assert r.colors[c] == b.colors[c];
    assert r.colors == b.colors;
    assert r.occupied == b.occupied;
    assert r.mapping == b.mapping;
    assert r.material == b.material;
    assert r.pst == b.pst;
  }

  // ---------------------------------------------------------------------
  // Draw rules (src/bitboard.cpp:660-711)

  /** `isInsufficientMaterial`: no queen, rook or pawn of either colour,
      and at most one man besides the two kings. */
  function IsInsufficientMaterial(b: Board): bool
  {
    var kings := b.pieces[WHITE_KING] + b.pieces[BLACK_KING];
    var sufficient := b.pieces[WHITE_QUEEN] + b.pieces[BLACK_QUEEN] + b.pieces[WHITE_ROOK] +
                      b.pieces[BLACK_ROOK] + b.pieces[WHITE_PAWN] + b.pieces[BLACK_PAWN];
    sufficient == {} && |b.occupied - kings| <= 1
  }

  /** The minor pieces of both colours. */
  function Minors(b: Board): set<Square>
  {
    b.pieces[WHITE_KNIGHT] + b.pieces[BLACK_KNIGHT] + b.pieces[WHITE_BISHOP] + b.pieces[BLACK_BISHOP]
  }

  lemma DisjointCard(a: set<Square>, c: set<Square>)
    requires a * c == {}
    ensures |a + c| == |a| + |c|
  {
  }

  /** On an agreeing position the rule reads off the material counts:
      no pawns, rooks or queens, and at most one knight or bishop. */
  lemma InsufficientByCounts(t: Tables, b: Board)
    requires PiecesAgree(t, b)
    ensures IsInsufficientMaterial(b) <==>
      b.material[WHITE_PAWN] == 0 && b.material[BLACK_PAWN] == 0 &&
      b.material[WHITE_ROOK] == 0 && b.material[BLACK_ROOK] == 0 &&
      b.material[WHITE_QUEEN] == 0 && b.material[BLACK_QUEEN] == 0 &&
      b.material[WHITE_KNIGHT] + b.material[BLACK_KNIGHT] + b.material[WHITE_BISHOP] + b.material[BLACK_BISHOP] <= 1
  {
    var kings := b.pieces[WHITE_KING] + b.pieces[BLACK_KING];
    var sufficient := b.pieces[WHITE_QUEEN] + b.pieces[BLACK_QUEEN] + b.pieces[WHITE_ROOK] +
                      b.pieces[BLACK_ROOK] + b.pieces[WHITE_PAWN] + b.pieces[BLACK_PAWN];
    if sufficient == {} {
      assert b.pieces[WHITE_PAWN] == {} && b.pieces[BLACK_PAWN] == {};
      assert b.pieces[WHITE_ROOK] == {} && b.pieces[BLACK_ROOK] == {};
      assert b.pieces[WHITE_QUEEN] == {} && b.pieces[BLACK_QUEEN] == {};
      forall sq: Square
        ensures sq in b.occupied - kings <==> sq in Minors(b)
      {
        assert b.mapping[sq] != WHITE_PAWN && b.mapping[sq] != BLACK_PAWN;
        assert b.mapping[sq] != WHITE_ROOK && b.mapping[sq] != BLACK_ROOK;
        assert b.mapping[sq] != WHITE_QUEEN && b.mapping[sq] != BLACK_QUEEN;
      }
      assert b.occupied - kings == Minors(b);
      var wn, bn, wb, bb := b.pieces[WHITE_KNIGHT], b.pieces[BLACK_KNIGHT], b.pieces[WHITE_BISHOP], b.pieces[BLACK_BISHOP];
      assert wn * bn == {};
      DisjointCard(wn, bn);
      assert (wn + bn) * wb == {};
      DisjointCard(wn + bn, wb);
      assert (wn + bn + wb) * bb == {};
      DisjointCard(wn + bn + wb, bb);
    } else {
      var sq :| sq in sufficient;
      assert b.mapping[sq] in {WHITE_QUEEN, BLACK_QUEEN, WHITE_ROOK, BLACK_ROOK, WHITE_PAWN, BLACK_PAWN};
      assert b.material[b.mapping[sq]] > 0;
    }
  }

  /** How often `h` occurs among `history[lo .. hi-1]`. */
  function Occurrences(history: seq<Hash>, h: Hash, lo: nat, hi: nat): nat
    requires lo <= hi <= |history|
    decreases hi - lo
  {
    if lo == hi then 0 else (if history[lo] == h then 1 else 0) + Occurrences(history, h, lo + 1, hi)
  }

  /** A longer window never holds fewer occurrences. */
  lemma {:induction false} OccurrencesGrow(history: seq<Hash>, h: Hash, lo: nat, hi: nat)
    requires lo <= hi <= |history|
    ensures Occurrences(history, h, 0, hi) >= Occurrences(history, h, lo, hi)
    decreases lo
  {
    if lo > 0 {
      OccurrencesGrow(history, h, lo - 1, hi);
    }
  }

  /** `isDraw`: the fifty-move rule, insufficient material, or the current
      hash found at least three times in the history of plies `0 .. ply`.
      The history scan runs downwards from the current ply and stops as soon
      as the third occurrence is seen. */
  method IsDraw(b: Board) returns (r: bool)
    requires b.ply < MAX_PLY
    ensures r <==> b.halfMoveClock >= 100 || IsInsufficientMaterial(b) ||
                   Occurrences(b.history, b.hash, 0, b.ply + 1) >= 3
  {
    if b.halfMoveClock >= 100 {
      return true;
    }
    if IsInsufficientMaterial(b) {
      return true;
    }
    var count := 0;
    var i := b.ply as int;
    while i >= 0
      invariant -1 <= i <= b.ply
      invariant count == Occurrences(b.history, b.hash, i + 1, b.ply + 1)
      invariant count < 3
      decreases i
    {
      if b.history[i] == b.hash {
        count := count + 1;
      }
      if count >= 3 {
        OccurrencesGrow(b.history, b.hash, i, b.ply + 1);
        return true;
      }
      i := i - 1;
    }
    return false;
  }

  // ---------------------------------------------------------------------
  // Files (src/bitboard.cpp:786-788, 830-835)

  /** The squares of the file of `sq`. */
  function FileSquares(sq: Square): (f: set<Square>)
    ensures forall t: Square :: t in f <==> t % 8 == sq % 8
  {
    set t: Square | t % 8 == sq % 8
  }

  /** `getFile` as a bitboard, the north and south rays and the square
      itself, holds exactly the squares of `FileSquares`. */
  lemma GetFileIsFile(s: Bits.Index, j: Bits.Index)
    ensures Bits.Has(Attacks.FileBoard(s), j) <==> j as int in FileSquares(s as int)
  {
    Attacks.FileBoardHas(s, j);
    Attacks.FileOfValue(s);
    Attacks.FileOfValue(j);
  }

  /** `isOpenFile`: the file mask is unchanged by removing the pawns of
      both colours from it. */
  function IsOpenFile(b: Board, sq: Square): bool
  {
    var fileMask := FileSquares(sq);
    fileMask == fileMask - (b.pieces[WHITE_PAWN] + b.pieces[BLACK_PAWN])
  }

  /** A file is open exactly when no pawn of either colour stands on it. */
  lemma OpenFileHasNoPawn(t: Tables, b: Board, sq: Square)
    requires PiecesAgree(t, b)
    ensures IsOpenFile(b, sq) <==>
      forall u: Square :: u % 8 == sq % 8 ==> b.mapping[u] != WHITE_PAWN && b.mapping[u] != BLACK_PAWN
  {
    var fileMask := FileSquares(sq);
    if !IsOpenFile(b, sq) {
      var u :| u in fileMask && u !in fileMask - (b.pieces[WHITE_PAWN] + b.pieces[BLACK_PAWN]);
      assert b.mapping[u] == WHITE_PAWN || b.mapping[u] == BLACK_PAWN;
    }
  }
}
