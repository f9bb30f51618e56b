/** `makeMove`, `unmakeMove`, `makeNullMove` and `unmakeNullMove` of
    src/bitboard.cpp:109-322, each written as the composition of the steps
    the source performs in order. */
module Moves {
  import opened Types
  import opened Bitboard

  // ---------------------------------------------------------------------
  // Classifying a move

  /** The man that stands on the destination after the move. */
  function Placed(m: Move): Piece
    requires m.piece != NO_PIECE
  {
    if m.promotionPiece != NO_PIECE then m.promotionPiece else m.piece
  }

  /** A pawn moving two ranks. */
  predicate IsDoublePush(m: Move)
  {
    IsPawn(m.piece) && (m.to - m.from == 16 || m.to - m.from == -16)
  }

  /** A pawn moving diagonally onto the en-passant square. */
  predicate IsEnPassantCapture(b: Board, m: Move)
  {
    IsPawn(m.piece) && m.to == b.enPassant &&
    (m.to - m.from == 7 || m.to - m.from == -7 || m.to - m.from == 9 || m.to - m.from == -9)
  }

  /** The square of the pawn taken en passant: behind the destination as
      seen from the side to move. */
  function VictimSquare(side: Byte, m: Move): int
  {
    m.to - (if side == WHITE then 8 else -8)
  }

  /** A king moving two files. */
  predicate IsCastling(m: Move)
  {
    IsKing(m.piece) && (m.to - m.from == 2 || m.to - m.from == -2)
  }

  /** What `makeMove` needs to be well defined: squares on the board, a
      moving man, room on the stacks, and a man to take en passant. */
  predicate Playable(b: Board, m: Move)
  {
    0 <= m.from < 64 && 0 <= m.to < 64 && m.piece != NO_PIECE && b.ply + 1 < MAX_PLY &&
    (IsEnPassantCapture(b, m) ==>
       0 <= VictimSquare(b.side, m) < 64 && b.mapping[VictimSquare(b.side, m)] != NO_PIECE)
  }

  /** The rook a castling king jumps over stands in its corner and the
      square it lands on is empty. */
  predicate RookReady(b: Board, to: int)
  {
    RookCorner(to) != NO_SQUARE ==>
      b.mapping[RookCorner(to)] == CastlingRook(to) && b.mapping[RookLanding(to)] == NO_PIECE
  }

  /** A move as the move generator produces it: the mover stands on its
      origin, a real colour is to move, the castling rook is in place and
      the man taken en passant is the opponent's pawn. */
  predicate Sound(b: Board, m: Move)
  {
    Playable(b, m) && m.from != m.to && b.mapping[m.from] == m.piece &&
    (b.side == WHITE || b.side == BLACK) &&
    (IsCastling(m) ==> RookReady(b, m.to)) &&
    (IsEnPassantCapture(b, m) ==>
       b.mapping[VictimSquare(b.side, m)] == (if b.side == WHITE then BLACK_PAWN else WHITE_PAWN))
  }

  // ---------------------------------------------------------------------
  // The steps of makeMove

  /** Fills the undo record of the current ply. */
  function SaveUndo(b: Board, m: Move): (r: Board)
    requires Playable(b, m)
    ensures r.undo[b.ply] == Undo(b.mapping[m.to], b.halfMoveClock, b.enPassant, b.castling,
                                  Regular, b.hash, b.previousMove)
    ensures r == b.(undo := r.undo)
  {
    b.(undo := b.undo[b.ply := Undo(b.mapping[m.to], b.halfMoveClock, b.enPassant, b.castling,
                                   Regular, b.hash, b.previousMove)])
  }

  /** Overwrites the move type of the current ply's undo record. */
  function MarkUndo(b: Board, kind: MoveType): (r: Board)
    requires b.ply < MAX_PLY
    ensures r.undo == b.undo[b.ply := b.undo[b.ply].(moveType := kind)]
    ensures r == b.(undo := r.undo)
  {
    b.(undo := b.undo[b.ply := b.undo[b.ply].(moveType := kind)])
  }

  /** Takes the captured man off the destination and runs the halfmove
      clock. */
  function TakeCaptured(t: Tables, b: Board, m: Move): (r: Board)
    requires 0 <= m.to < 64
    ensures r.mapping == b.mapping[m.to := NO_PIECE]
    ensures r.halfMoveClock == if b.mapping[m.to] != NO_PIECE || IsPawn(m.piece) then 0 else b.halfMoveClock + 1
    ensures r == b.(pieces := r.pieces, colors := r.colors, occupied := r.occupied, mapping := r.mapping,
                    material := r.material, pst := r.pst, hash := r.hash, halfMoveClock := r.halfMoveClock)
  {
    var captured := b.mapping[m.to];
    var counted := b.(halfMoveClock := b.halfMoveClock + 1);
    var taken := if captured != NO_PIECE then RemovePiece(t, counted.(halfMoveClock := 0), m.to, captured) else counted;
    if IsPawn(m.piece) then taken.(halfMoveClock := 0) else taken
  }

  /** Takes the old en-passant file out of the hash, works out the new
      en-passant square, removes a pawn taken en passant, and puts the new
      file into the hash. */
  function UpdateEnPassant(t: Tables, b: Board, m: Move): (r: Board)
    requires Playable(b, m)
    ensures r.mapping == if IsEnPassantCapture(b, m) then b.mapping[VictimSquare(b.side, m) := NO_PIECE] else b.mapping
    ensures r.enPassant == if IsDoublePush(m) then (m.from + m.to) / 2 else NO_SQUARE
    ensures r.undo == if IsEnPassantCapture(b, m) then b.undo[b.ply := b.undo[b.ply].(moveType := EnPassant)] else b.undo
    ensures r == b.(pieces := r.pieces, colors := r.colors, occupied := r.occupied, mapping := r.mapping,
                    material := r.material, pst := r.pst, hash := r.hash, enPassant := r.enPassant, undo := r.undo)
  {
    var cleared := if b.enPassant != NO_SQUARE then b.(hash := Toggle(b.hash, EnPassantToken(b.enPassant % 8))) else b;
    var moved :=
      if IsPawn(m.piece) then
        if m.to - m.from == 16 then cleared.(enPassant := m.to - 8)
        else if m.to - m.from == -16 then cleared.(enPassant := m.to + 8)
        else if IsEnPassantCapture(b, m) then
          var victim := VictimSquare(b.side, m);
          MarkUndo(RemovePiece(t, cleared, victim, cleared.mapping[victim]), EnPassant).(enPassant := NO_SQUARE)
        else cleared.(enPassant := NO_SQUARE)
      else cleared.(enPassant := NO_SQUARE);
    if moved.enPassant != NO_SQUARE then moved.(hash := Toggle(moved.hash, EnPassantToken(moved.enPassant % 8))) else moved
  }

  /** The corner and the landing square of the rook of a castling move. */
  function RookCorner(to: int): int
  {
    if to == G1 then H1 else if to == C1 then A1 else if to == G8 then H8 else if to == C8 then A8 else NO_SQUARE
  }

  function RookLanding(to: int): int
  {
    if to == G1 then F1 else if to == C1 then D1 else if to == G8 then F8 else if to == C8 then D8 else NO_SQUARE
  }

  /** The rook that castles onto a destination rank. */
  function CastlingRook(to: int): Piece
  {
    if to < 8 then WHITE_ROOK else BLACK_ROOK
  }

  /** The mapping after the rook of a castling move onto `to` jumps. */
  function RookJumped(mp: Mapping, to: int): Mapping
  {
    if RookCorner(to) == NO_SQUARE then mp
    else mp[RookCorner(to) := NO_PIECE][RookLanding(to) := CastlingRook(to)]
  }

  /** Moves the rook of a castling move by the king's destination. */
  function JumpRook(t: Tables, b: Board, to: int): (r: Board)
    ensures r.mapping == RookJumped(b.mapping, to)
    ensures r == b.(pieces := r.pieces, colors := r.colors, occupied := r.occupied, mapping := r.mapping,
                    material := r.material, pst := r.pst, hash := r.hash)
  {
    if to == G1 then SetPiece(t, RemovePiece(t, b, H1, WHITE_ROOK), F1, WHITE_ROOK)
    else if to == C1 then SetPiece(t, RemovePiece(t, b, A1, WHITE_ROOK), D1, WHITE_ROOK)
    else if to == G8 then SetPiece(t, RemovePiece(t, b, H8, BLACK_ROOK), F8, BLACK_ROOK)
    else if to == C8 then SetPiece(t, RemovePiece(t, b, A8, BLACK_ROOK), D8, BLACK_ROOK)
    else b
  }

  /** Gives up one castling right, with its hash constant, if it is held. */
  function ClearRight(b: Board, right: CastleRight): (r: Board)
    ensures r.castling == b.castling - {right}
    ensures r == b.(hash := r.hash, castling := r.castling)
  {
    if right in b.castling then
      b.(hash := Toggle(b.hash, CastleToken(right)), castling := b.castling - {right})
    else b
  }

  /** A king gives up both castling rights of its colour. */
  function KingRights(b: Board, king: Piece): (r: Board)
    ensures r.castling == b.castling - if king == WHITE_KING then {WhiteKingside, WhiteQueenside}
                                       else {BlackKingside, BlackQueenside}
    ensures r == b.(hash := r.hash, castling := r.castling)
  {
    if king == WHITE_KING then ClearRight(ClearRight(b, WhiteKingside), WhiteQueenside)
    else ClearRight(ClearRight(b, BlackKingside), BlackQueenside)
  }

  /** The rook of a castling move jumps and the undo record says so. */
  function CastleRook(t: Tables, b: Board, m: Move): (r: Board)
    requires b.ply < MAX_PLY && IsKing(m.piece)
    ensures r.mapping == if IsCastling(m) then RookJumped(b.mapping, m.to) else b.mapping
    ensures r.undo == if IsCastling(m) then b.undo[b.ply := b.undo[b.ply].(moveType := Castling)] else b.undo
    ensures r == b.(pieces := r.pieces, colors := r.colors, occupied := r.occupied, mapping := r.mapping,
                    material := r.material, pst := r.pst, hash := r.hash, undo := r.undo)
  {
    if m.to - m.from == 2 || m.to - m.from == -2 then MarkUndo(JumpRook(t, b, m.to), Castling) else b
  }

  /** A king move: the rook of a castling move jumps, and the mover gives
      up both its castling rights. */
  function KingStep(t: Tables, b: Board, m: Move): (r: Board)
    requires b.ply < MAX_PLY
    ensures r.mapping == if IsCastling(m) then RookJumped(b.mapping, m.to) else b.mapping
    ensures r.undo == if IsCastling(m) then b.undo[b.ply := b.undo[b.ply].(moveType := Castling)] else b.undo
    ensures r.castling == b.castling - if m.piece == WHITE_KING then {WhiteKingside, WhiteQueenside}
                                       else if m.piece == BLACK_KING then {BlackKingside, BlackQueenside}
                                       else {}
    ensures r == b.(pieces := r.pieces, colors := r.colors, occupied := r.occupied, mapping := r.mapping,
                    material := r.material, pst := r.pst, hash := r.hash, castling := r.castling, undo := r.undo)
  {
    if IsKing(m.piece) then KingRights(CastleRook(t, b, m), m.piece) else b
  }

  /** A rook leaving its corner gives up the castling right of that
      corner. */
  function RookStep(b: Board, m: Move): (r: Board)
    ensures r.castling == b.castling - if m.piece == WHITE_ROOK && m.from == A1 then {WhiteQueenside}
                                       else if m.piece == WHITE_ROOK && m.from == H1 then {WhiteKingside}
                                       else if m.piece == BLACK_ROOK && m.from == A8 then {BlackQueenside}
                                       else if m.piece == BLACK_ROOK && m.from == H8 then {BlackKingside}
                                       else {}
    ensures r == b.(hash := r.hash, castling := r.castling)
  {
    if m.piece == WHITE_ROOK then
      if m.from == A1 && WhiteQueenside in b.castling then ClearRight(b, WhiteQueenside)
      else if m.from == H1 && WhiteKingside in b.castling then ClearRight(b, WhiteKingside)
      else b
    else if m.piece == BLACK_ROOK then
      if m.from == A8 && BlackQueenside in b.castling then ClearRight(b, BlackQueenside)
      else if m.from == H8 && BlackKingside in b.castling then ClearRight(b, BlackKingside)
      else b
    else b
  }

  /** Passes the turn: the fullmove clock after black's move, the colour
      and its hash constant, the ply, the history entry and the previous
      move. */
  function PassTurn(b: Board, m: Move): (r: Board)
    requires b.ply + 1 < MAX_PLY
  {
    var hash := Toggle(b.hash, SideToken);
    b.(fullmoveClock := if b.side == BLACK then b.fullmoveClock + 1 else b.fullmoveClock,
       side := OppositeByXor(b.side),
       hash := hash,
       ply := b.ply + 1,
       history := b.history[b.ply + 1 := hash],
       previousMove := m)
  }

  /** `makeMove(move)`. It passes the turn: one ply later, the other
      colour to move, the move remembered as the previous one, and the new
      key entered in the history after the earlier plies' keys. */
  function MakeMove(t: Tables, b: Board, m: Move): (r: Board)
    requires Playable(b, m)
    ensures r.ply == b.ply + 1 && r.side == OppositeByXor(b.side) && r.previousMove == m
    ensures r.history[r.ply] == r.hash && r.history[..r.ply] == b.history[..r.ply]
  {
    var saved := SaveUndo(b, m);
    var taken := TakeCaptured(t, saved, m);
    var lifted := RemovePiece(t, taken, m.from, m.piece);
    var passed := UpdateEnPassant(t, lifted, m);
    var castled := KingStep(t, passed, m);
    var rooked := RookStep(castled, m);
    var placed := SetPiece(t, rooked, m.to, Placed(m));
    PassTurn(placed, m)
  }
  // ---------------------------------------------------------------------
  // What makeMove does

  /** The kind of move the undo record remembers. */
  function MoveTypeOf(b: Board, m: Move): MoveType
  {
    if IsEnPassantCapture(b, m) then EnPassant
    else if IsCastling(m) then Castling
    else Regular
  }

  /** The squares whose occupant a move may change. */
  function Touched(b: Board, m: Move): set<int>
  {
    {m.from, m.to} +
    (if IsEnPassantCapture(b, m) then {VictimSquare(b.side, m)} else {}) +
    (if IsCastling(m) then {RookCorner(m.to), RookLanding(m.to)} else {})
  }

  /** The men after a move: the origin is empty, the destination holds the
      mover or its promotion, a pawn taken en passant is gone, a castling
      rook has jumped from its corner, and no other square changes. */
  predicate MovedMen(b: Board, m: Move, after: Mapping)
    requires Playable(b, m)
  {
    after[m.to] == Placed(m) && after[m.from] == NO_PIECE &&
    (IsEnPassantCapture(b, m) ==> after[VictimSquare(b.side, m)] == NO_PIECE) &&
    (IsCastling(m) && RookCorner(m.to) != NO_SQUARE ==>
       after[RookCorner(m.to)] == NO_PIECE && after[RookLanding(m.to)] == CastlingRook(m.to)) &&
    forall sq: Square :: sq !in Touched(b, m) ==> after[sq] == b.mapping[sq]
  }

  lemma MakeMoveMapping(t: Tables, b: Board, m: Move)
    requires Playable(b, m) && m.from != m.to
    ensures MovedMen(b, m, MakeMove(t, b, m).mapping)
  {
    var saved := SaveUndo(b, m);
    var taken := TakeCaptured(t, saved, m);
    var lifted := RemovePiece(t, taken, m.from, m.piece);
    var passed := UpdateEnPassant(t, lifted, m);
    var castled := KingStep(t, passed, m);
    var rooked := RookStep(castled, m);
    var placed := SetPiece(t, rooked, m.to, Placed(m));
    assert MakeMove(t, b, m) == PassTurn(placed, m);
    assert IsEnPassantCapture(lifted, m) == IsEnPassantCapture(b, m);
    MappingChain(b, m, taken.mapping, lifted.mapping, passed.mapping, castled.mapping, placed.mapping);
  }

  /** The mapping steps of `makeMove` compose to `MovedMen`. */
  lemma MappingChain(b: Board, m: Move, taken: Mapping, lifted: Mapping, passed: Mapping, castled: Mapping, after: Mapping)
    requires Playable(b, m) && m.from != m.to
    requires taken == b.mapping[m.to := NO_PIECE] && lifted == taken[m.from := NO_PIECE]
    requires passed == if IsEnPassantCapture(b, m) then lifted[VictimSquare(b.side, m) := NO_PIECE] else lifted
    requires castled == if IsCastling(m) then RookJumped(passed, m.to) else passed
    requires after == castled[m.to := Placed(m)]
    ensures MovedMen(b, m, after)
  {
  }

  /** The counters after a move: the halfmove clock restarts on a capture or
      a pawn move and otherwise counts on, the fullmove clock counts black's
      moves, the colour flips, the ply advances and the new hash is recorded
      in the history. */
  predicate CountersAdvanced(b: Board, m: Move, r: Board)
    requires Playable(b, m)
  {
    r.halfMoveClock == (if b.mapping[m.to] != NO_PIECE || IsPawn(m.piece) then 0 else b.halfMoveClock + 1) &&
    r.fullmoveClock == (if b.side == BLACK then b.fullmoveClock + 1 else b.fullmoveClock) &&
    r.side == OppositeByXor(b.side) && r.ply == b.ply + 1 && r.previousMove == m &&
    r.history == b.history[b.ply + 1 := r.hash]
  }

  lemma MakeMoveCounters(t: Tables, b: Board, m: Move)
    requires Playable(b, m)
    ensures CountersAdvanced(b, m, MakeMove(t, b, m))
  {
    var saved := SaveUndo(b, m);
    var taken := TakeCaptured(t, saved, m);
    var lifted := RemovePiece(t, taken, m.from, m.piece);
    var passed := UpdateEnPassant(t, lifted, m);
    var castled := KingStep(t, passed, m);
    var rooked := RookStep(castled, m);
    var placed := SetPiece(t, rooked, m.to, Placed(m));
    assert MakeMove(t, b, m) == PassTurn(placed, m);
    assert placed.halfMoveClock == taken.halfMoveClock && placed.fullmoveClock == b.fullmoveClock;
    assert placed.side == b.side && placed.ply == b.ply && placed.history == b.history;
  }

  /** The undo record of the old ply keeps what the move destroys: the
      captured man, the clocks, the en-passant square, the rights, the hash
      and the previous move, with the kind of move; no other record
      changes. */
  lemma MakeMoveUndo(t: Tables, b: Board, m: Move)
    requires Playable(b, m)
    ensures MakeMove(t, b, m).undo ==
              b.undo[b.ply := Undo(b.mapping[m.to], b.halfMoveClock, b.enPassant, b.castling,
                                   MoveTypeOf(b, m), b.hash, b.previousMove)]
  {
    var saved := SaveUndo(b, m);
    var taken := TakeCaptured(t, saved, m);
    var lifted := RemovePiece(t, taken, m.from, m.piece);
    var passed := UpdateEnPassant(t, lifted, m);
    var castled := KingStep(t, passed, m);
    var rooked := RookStep(castled, m);
    var placed := SetPiece(t, rooked, m.to, Placed(m));
    assert MakeMove(t, b, m) == PassTurn(placed, m);
    assert IsEnPassantCapture(lifted, m) == IsEnPassantCapture(b, m);
    UndoChain(b.undo, b.ply, Undo(b.mapping[m.to], b.halfMoveClock, b.enPassant, b.castling,
                                  Regular, b.hash, b.previousMove),
              IsEnPassantCapture(b, m), IsCastling(m), passed.undo, castled.undo);
  }

  /** Marking the saved record as an en-passant capture or a castling move
      gives the record of `MoveTypeOf`. */
  lemma UndoChain(u: UndoStack, ply: nat, saved: Undo, ep: bool, castle: bool, passed: UndoStack, castled: UndoStack)
    requires ply < MAX_PLY && !(ep && castle)
    requires passed == if ep then u[ply := saved.(moveType := EnPassant)] else u[ply := saved]
    requires castled == if castle then passed[ply := passed[ply].(moveType := Castling)] else passed
    ensures castled == u[ply := saved.(moveType := if ep then EnPassant else if castle then Castling else saved.moveType)]
  {
  }

  /** The en-passant square after a move is the square a double pawn push
      passed over, and there is none after any other move. */
  lemma MakeMoveEnPassant(t: Tables, b: Board, m: Move)
    requires Playable(b, m)
    ensures MakeMove(t, b, m).enPassant == if IsDoublePush(m) then (m.from + m.to) / 2 else NO_SQUARE
  {
  }

  /** The castling rights a move gives up: both of the mover's when a king
      moves, the corner's when a rook leaves it. */
  function LostRights(m: Move): Rights
  {
    if m.piece == WHITE_KING then {WhiteKingside, WhiteQueenside}
    else if m.piece == BLACK_KING then {BlackKingside, BlackQueenside}
    else if m.piece == WHITE_ROOK && m.from == A1 then {WhiteQueenside}
    else if m.piece == WHITE_ROOK && m.from == H1 then {WhiteKingside}
    else if m.piece == BLACK_ROOK && m.from == A8 then {BlackQueenside}
    else if m.piece == BLACK_ROOK && m.from == H8 then {BlackKingside}
    else {}
  }

  /** A move keeps exactly the castling rights it does not give up, so it
      never grants one. */
  lemma MakeMoveRights(t: Tables, b: Board, m: Move)
    requires Playable(b, m)
    ensures MakeMove(t, b, m).castling == b.castling - LostRights(m)
    ensures MakeMove(t, b, m).castling <= b.castling
  {
    var saved := SaveUndo(b, m);
    var taken := TakeCaptured(t, saved, m);
    var lifted := RemovePiece(t, taken, m.from, m.piece);
    var passed := UpdateEnPassant(t, lifted, m);
    var castled := KingStep(t, passed, m);
    var rooked := RookStep(castled, m);
    var placed := SetPiece(t, rooked, m.to, Placed(m));
    assert MakeMove(t, b, m) == PassTurn(placed, m);
    assert passed.castling == b.castling;
  }

  // ---------------------------------------------------------------------
  // unmakeMove (src/bitboard.cpp:242-290)

  /** The mapping after the rook of a castling move onto `to` returns. */
  function RookReturned(mp: Mapping, to: int): Mapping
  {
    if RookCorner(to) == NO_SQUARE then mp
    else mp[RookLanding(to) := NO_PIECE][RookCorner(to) := CastlingRook(to)]
  }

  /** Moves the rook of a castling move back to its corner. */
  function ReturnRook(t: Tables, b: Board, to: int): (r: Board)
    ensures r.mapping == RookReturned(b.mapping, to)
    ensures r == b.(pieces := r.pieces, colors := r.colors, occupied := r.occupied, mapping := r.mapping,
                    material := r.material, pst := r.pst, hash := r.hash)
  {
    if to == G1 then SetPiece(t, RemovePiece(t, b, F1, WHITE_ROOK), H1, WHITE_ROOK)
    else if to == C1 then SetPiece(t, RemovePiece(t, b, D1, WHITE_ROOK), A1, WHITE_ROOK)
    else if to == G8 then SetPiece(t, RemovePiece(t, b, F8, BLACK_ROOK), H8, BLACK_ROOK)
    else if to == C8 then SetPiece(t, RemovePiece(t, b, D8, BLACK_ROOK), A8, BLACK_ROOK)
    else b
  }

  /** What `unmakeMove` needs to be well defined: squares on the board, a
      moving man, a previous ply, and a square for the pawn taken en
      passant. */
  predicate Unmakeable(b: Board, m: Move)
  {
    0 <= m.from < 64 && 0 <= m.to < 64 && m.piece != NO_PIECE && 1 <= b.ply < MAX_PLY &&
    (b.undo[b.ply - 1].moveType == EnPassant ==> 0 <= VictimSquare(OppositeByXor(b.side), m) < 64)
  }

  /** The first men steps of `unmakeMove`: the destination gives back the
      mover and the captured man, and the mover returns to its origin. */
  function PutBack(t: Tables, b: Board, m: Move, u: Undo): (r: Board)
    requires 0 <= m.from < 64 && 0 <= m.to < 64 && m.piece != NO_PIECE
    ensures r == b.(pieces := r.pieces, colors := r.colors, occupied := r.occupied, mapping := r.mapping,
                    material := r.material, pst := r.pst, hash := r.hash)
  {
    var lifted := RemovePiece(t, b, m.to, Placed(m));
    var restored := if u.captured != NO_PIECE then SetPiece(t, lifted, m.to, u.captured) else lifted;
    SetPiece(t, restored, m.from, m.piece)
  }

  /** The last men steps of `unmakeMove`: a pawn taken en passant and a
      castling rook return. */
  function ReturnExtras(t: Tables, b: Board, m: Move, u: Undo, mover: Byte): (r: Board)
    requires u.moveType == EnPassant ==> 0 <= VictimSquare(mover, m) < 64
    ensures r == b.(pieces := r.pieces, colors := r.colors, occupied := r.occupied, mapping := r.mapping,
                    material := r.material, pst := r.pst, hash := r.hash)
  {
    var unpassed :=
      if u.moveType == EnPassant then
        SetPiece(t, b, VictimSquare(mover, m), if mover == WHITE then BLACK_PAWN else WHITE_PAWN)
      else b;
    if u.moveType == Castling then ReturnRook(t, unpassed, m.to) else unpassed
  }

  /** The men steps of `unmakeMove`. */
  function RestoreMen(t: Tables, b: Board, m: Move, u: Undo, mover: Byte): (r: Board)
    requires 0 <= m.from < 64 && 0 <= m.to < 64 && m.piece != NO_PIECE
    requires u.moveType == EnPassant ==> 0 <= VictimSquare(mover, m) < 64
    ensures r == b.(pieces := r.pieces, colors := r.colors, occupied := r.occupied, mapping := r.mapping,
                    material := r.material, pst := r.pst, hash := r.hash)
  {
    ReturnExtras(t, PutBack(t, b, m, u), m, u, mover)
  }

  /** Everything but the men after taking a move back: the history entry
      of the current ply is cleared, the undo stack is kept, and the rest
      comes from the undo record of the ply before or flips back. */
  predicate RestoredFrom(b: Board, r: Board)
    requires 1 <= b.ply < MAX_PLY
  {
    var u := b.undo[b.ply - 1];
    r.ply == b.ply - 1 && r.halfMoveClock == u.halfMoveClock && r.enPassant == u.enPassant &&
    r.castling == u.castling && r.side == OppositeByXor(b.side) && r.hash == u.hash &&
    r.previousMove == u.previousMove &&
    r.fullmoveClock == (if r.side == BLACK then b.fullmoveClock - 1 else b.fullmoveClock) &&
    r.undo == b.undo && r.history == b.history[b.ply := {}]
  }

  /** `unmakeMove(move)`: clears the history entry of the current ply, puts
      the men back, and restores the clocks, the en-passant square, the
      rights, the colour, the hash and the previous move from the undo
      record of the ply before. */
  function UnmakeMove(t: Tables, b: Board, m: Move): (r: Board)
    requires Unmakeable(b, m)
    ensures RestoredFrom(b, r)
  {
    var u := b.undo[b.ply - 1];
    var mover := OppositeByXor(b.side);
    var cleared := b.(history := b.history[b.ply := {}]);
    var restored := RestoreMen(t, cleared, m, u, mover);
    restored.(ply := b.ply - 1,
              halfMoveClock := u.halfMoveClock,
              enPassant := u.enPassant,
              castling := u.castling,
              side := mover,
              hash := u.hash,
              previousMove := u.previousMove,
              fullmoveClock := if mover == BLACK then b.fullmoveClock - 1 else b.fullmoveClock)
  }

  // ---------------------------------------------------------------------
  // Null moves (src/bitboard.cpp:293-322)

  /** `makeNullMove`: records the undo data, clears the en-passant square
      and passes the turn without moving a man. */
  function MakeNullMove(b: Board): (r: Board)
    requires b.ply < MAX_PLY
    ensures r == b.(undo := r.undo, hash := r.hash, enPassant := NO_SQUARE, side := OppositeByXor(b.side),
                    ply := b.ply + 1, previousMove := NULL_MOVE)
    ensures r.undo == b.undo[b.ply := Undo(NO_PIECE, b.halfMoveClock, b.enPassant, b.castling,
                                           Regular, b.hash, b.previousMove)]
  {
    var saved := b.(undo := b.undo[b.ply := Undo(NO_PIECE, b.halfMoveClock, b.enPassant, b.castling,
                                                 Regular, b.hash, b.previousMove)]);
    var cleared :=
      if saved.enPassant != NO_SQUARE then
        saved.(hash := Toggle(saved.hash, EnPassantToken(saved.enPassant % 8)), enPassant := NO_SQUARE)
      else saved;
    cleared.(side := OppositeByXor(cleared.side),
             hash := Toggle(cleared.hash, SideToken),
             previousMove := NULL_MOVE,
             ply := cleared.ply + 1)
  }

  /** `unmakeNullMove`: restores the en-passant square, the rights, the
      colour, the hash and the previous move. */
  function UnmakeNullMove(b: Board): (r: Board)
    requires 1 <= b.ply <= MAX_PLY
  {
    var u := b.undo[b.ply - 1];
    b.(ply := b.ply - 1,
       enPassant := u.enPassant,
       castling := u.castling,
       side := OppositeByXor(b.side),
       hash := u.hash,
       previousMove := u.previousMove)
  }

  /** A null move moves no man and keeps the clocks, the rights and the
      history; it clears the en-passant square, flips the colour, advances
      the ply and leaves the null move as the previous move. */
  lemma NullMoveEffects(b: Board)
    requires b.ply < MAX_PLY
    ensures MakeNullMove(b) == b.(undo := MakeNullMove(b).undo, hash := MakeNullMove(b).hash,
                                  enPassant := NO_SQUARE, side := OppositeByXor(b.side),
                                  ply := b.ply + 1, previousMove := NULL_MOVE)
  {
  }

  /** Taking a null move back restores the position; only the undo record
      written for it remains. */
  lemma NullMoveRoundTrip(b: Board)
    requires b.ply < MAX_PLY
    ensures UnmakeNullMove(MakeNullMove(b)) == b.(undo := MakeNullMove(b).undo)
  {
    OppositeByXorFacts(b.side);
  }
}
