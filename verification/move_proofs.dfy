/** The representation invariant survives `makeMove` and `makeNullMove`,
    and `unmakeMove` takes a move back exactly. */
module MoveProofs {
  import opened Types
  import opened Bitboard
  import opened Moves

  // ---------------------------------------------------------------------
  // How the hash drift moves

  /** `hash ^= key` for the en-passant file of `ep`, when there is one. */
  function ToggleEnPassant(h: Hash, ep: int): Hash
  {
    if 0 <= ep < 64 then Toggle(h, EnPassantToken(ep % 8)) else h
  }

  /** Exclusive-oring a constant into the stored hash moves the drift by
      that constant. */
  lemma HashToggleDrift(x: Board, k: Token)
    ensures Drift(x.(hash := Toggle(x.hash, k))) == Toggle(Drift(x), k)
  {
  }

  /** Changing the en-passant square moves the recomputed hash by the keys
      of the old and the new file. */
  lemma EnPassantFieldDrift(x: Board, e: int)
    ensures Drift(x.(enPassant := e)) == ToggleEnPassant(ToggleEnPassant(Drift(x), x.enPassant), e)
  {
    var y := x.(enPassant := e);
    forall k: Token
      ensures k in Drift(y) <==> k in ToggleEnPassant(ToggleEnPassant(Drift(x), x.enPassant), e)
    {
      if k.EnPassantToken? {
        assert k in HashOf(y) <==> k in EnPassantTokens(e);
        assert k in HashOf(x) <==> k in EnPassantTokens(x.enPassant);
      } else {
        assert k in HashOf(y) <==> k in HashOf(x);
      }
    }
  }

  /** Toggling the same en-passant key twice cancels. */
  lemma ToggleEnPassantTwice(h: Hash, ep: int)
    ensures ToggleEnPassant(ToggleEnPassant(h, ep), ep) == h
  {
  }

  /** Giving up a held right takes its constant out of the recomputed hash
      as well as the stored one. */
  lemma ClearRightDrift(x: Board, right: CastleRight)
    ensures Drift(ClearRight(x, right)) == Drift(x)
  {
    if right in x.castling {
      var y := ClearRight(x, right);
      assert CastleTokens(y.castling) == CastleTokens(x.castling) - {CastleToken(right)};
      assert HashOf(y) == Toggle(HashOf(x), CastleToken(right));
      ToggleBoth(x.hash, HashOf(x), CastleToken(right));
    }
  }

  /** Passing the turn between the two real colours toggles the colour
      constant in both hashes. */
  lemma PassTurnDrift(x: Board, m: Move)
    requires x.ply + 1 < MAX_PLY && (x.side == WHITE || x.side == BLACK)
    ensures Drift(PassTurn(x, m)) == Drift(x)
  {
    var y := PassTurn(x, m);
    assert SideTokens(y.side) == Toggle(SideTokens(x.side), SideToken);
    assert HashOf(y) == Toggle(HashOf(x), SideToken);
    ToggleBoth(x.hash, HashOf(x), SideToken);
  }

  // ---------------------------------------------------------------------
  // Each step of makeMove keeps the men in agreement and the drift

  lemma TakeCapturedKeeps(t: Tables, b: Board, m: Move)
    requires PiecesAgree(t, b) && 0 <= m.to < 64
    ensures PiecesAgree(t, TakeCaptured(t, b, m)) && Drift(TakeCaptured(t, b, m)) == Drift(b)
  {
    var captured := b.mapping[m.to];
    if captured != NO_PIECE {
      var counted := b.(halfMoveClock := 0);
      RemovePieceAgrees(t, counted, m.to, captured);
    }
  }

  lemma UpdateEnPassantKeeps(t: Tables, b: Board, m: Move)
    requires PiecesAgree(t, b) && ValidEnPassant(b.enPassant) && Playable(b, m)
    ensures PiecesAgree(t, UpdateEnPassant(t, b, m)) && ValidEnPassant(UpdateEnPassant(t, b, m).enPassant)
    ensures Drift(UpdateEnPassant(t, b, m)) == Drift(b)
  {
    var cleared := if b.enPassant != NO_SQUARE then b.(hash := Toggle(b.hash, EnPassantToken(b.enPassant % 8))) else b;
    if b.enPassant != NO_SQUARE {
      HashToggleDrift(b, EnPassantToken(b.enPassant % 8));
    }
    ToggleEnPassantTwice(Drift(b), b.enPassant);
    if IsEnPassantCapture(b, m) {
      EnPassantCaptureKeeps(t, b, cleared, m);
    } else {
      EnPassantPlainKeeps(t, b, cleared, m);
    }
  }

  /** The en-passant step of a move that takes a pawn en passant. */
  lemma EnPassantCaptureKeeps(t: Tables, b: Board, cleared: Board, m: Move)
    requires PiecesAgree(t, b) && ValidEnPassant(b.enPassant) && Playable(b, m) && IsEnPassantCapture(b, m)
    requires cleared == if b.enPassant != NO_SQUARE then b.(hash := Toggle(b.hash, EnPassantToken(b.enPassant % 8))) else b
    requires ToggleEnPassant(Drift(cleared), b.enPassant) == Drift(b)
    ensures PiecesAgree(t, UpdateEnPassant(t, b, m)) && ValidEnPassant(UpdateEnPassant(t, b, m).enPassant)
    ensures Drift(UpdateEnPassant(t, b, m)) == Drift(b)
  {
    var victim := VictimSquare(b.side, m);
    var removed := RemovePiece(t, cleared, victim, cleared.mapping[victim]);
    RemovePieceAgrees(t, cleared, victim, cleared.mapping[victim]);
    var r := MarkUndo(removed, EnPassant).(enPassant := NO_SQUARE);
    assert UpdateEnPassant(t, b, m) == r;
    SameMenAgree(t, removed, r);
    EnPassantFieldDrift(MarkUndo(removed, EnPassant), NO_SQUARE);
  }

  /** The en-passant step of any other move. */
  lemma EnPassantPlainKeeps(t: Tables, b: Board, cleared: Board, m: Move)
    requires PiecesAgree(t, b) && ValidEnPassant(b.enPassant) && Playable(b, m) && !IsEnPassantCapture(b, m)
    requires cleared == if b.enPassant != NO_SQUARE then b.(hash := Toggle(b.hash, EnPassantToken(b.enPassant % 8))) else b
    requires ToggleEnPassant(Drift(cleared), b.enPassant) == Drift(b)
    ensures PiecesAgree(t, UpdateEnPassant(t, b, m)) && ValidEnPassant(UpdateEnPassant(t, b, m).enPassant)
    ensures Drift(UpdateEnPassant(t, b, m)) == Drift(b)
  {
    var e := if IsDoublePush(m) then (m.from + m.to) / 2 else NO_SQUARE;
    var moved := cleared.(enPassant := e);
    var r := if e != NO_SQUARE then moved.(hash := Toggle(moved.hash, EnPassantToken(e % 8))) else moved;
    assert UpdateEnPassant(t, b, m) == r;
    SameMenAgree(t, b, r);
    EnPassantFieldDrift(cleared, e);
    if e != NO_SQUARE {
      HashToggleDrift(moved, EnPassantToken(e % 8));
    }
    ToggleEnPassantTwice(Drift(cleared), e);
  }

  /** Agreement depends on the men fields only. */
  lemma SameMenAgree(t: Tables, a: Board, x: Board)
    requires PiecesAgree(t, a)
    requires x.pieces == a.pieces && x.colors == a.colors && x.occupied == a.occupied
    requires x.mapping == a.mapping && x.material == a.material && x.pst == a.pst
    ensures PiecesAgree(t, x)
  {
  }

  lemma JumpRookKeeps(t: Tables, b: Board, to: int)
    requires PiecesAgree(t, b) && RookReady(b, to)
    ensures PiecesAgree(t, JumpRook(t, b, to)) && Drift(JumpRook(t, b, to)) == Drift(b)
  {
    if to == G1 {
      RookHops(t, b, H1, F1, WHITE_ROOK);
    } else if to == C1 {
      RookHops(t, b, A1, D1, WHITE_ROOK);
    } else if to == G8 {
      RookHops(t, b, H8, F8, BLACK_ROOK);
    } else if to == C8 {
      RookHops(t, b, A8, D8, BLACK_ROOK);
    }
  }

  /** A rook hopping from one square to an empty one keeps the men part and
      the drift. */
  lemma RookHops(t: Tables, b: Board, from: Square, to: Square, rook: Piece)
    requires PiecesAgree(t, b) && b.mapping[from] == rook && b.mapping[to] == NO_PIECE
    ensures PiecesAgree(t, SetPiece(t, RemovePiece(t, b, from, rook), to, rook))
    ensures Drift(SetPiece(t, RemovePiece(t, b, from, rook), to, rook)) == Drift(b)
  {
    RemovePieceAgrees(t, b, from, rook);
    SetPieceAgrees(t, RemovePiece(t, b, from, rook), to, rook);
  }

  lemma ReturnRookKeeps(t: Tables, b: Board, to: int)
    requires PiecesAgree(t, b)
    requires RookCorner(to) != NO_SQUARE ==>
               b.mapping[RookLanding(to)] == CastlingRook(to) && b.mapping[RookCorner(to)] == NO_PIECE
    ensures PiecesAgree(t, ReturnRook(t, b, to))
  {
    if to == G1 {
      RookHops(t, b, F1, H1, WHITE_ROOK);
    } else if to == C1 {
      RookHops(t, b, D1, A1, WHITE_ROOK);
    } else if to == G8 {
      RookHops(t, b, F8, H8, BLACK_ROOK);
    } else if to == C8 {
      RookHops(t, b, D8, A8, BLACK_ROOK);
    }
  }

  lemma KingStepKeeps(t: Tables, b: Board, m: Move)
    requires PiecesAgree(t, b) && b.ply < MAX_PLY && (IsCastling(m) ==> RookReady(b, m.to))
    ensures PiecesAgree(t, KingStep(t, b, m)) && Drift(KingStep(t, b, m)) == Drift(b)
  {
    if IsKing(m.piece) {
      var castled := CastleRook(t, b, m);
      if IsCastling(m) {
        JumpRookKeeps(t, b, m.to);
        SameMenAgree(t, JumpRook(t, b, m.to), castled);
      }
      assert PiecesAgree(t, castled) && Drift(castled) == Drift(b);
      if m.piece == WHITE_KING {
        ClearRightDrift(castled, WhiteKingside);
        ClearRightDrift(ClearRight(castled, WhiteKingside), WhiteQueenside);
      } else {
        ClearRightDrift(castled, BlackKingside);
        ClearRightDrift(ClearRight(castled, BlackKingside), BlackQueenside);
      }
    }
  }

  lemma RookStepKeeps(t: Tables, b: Board, m: Move)
    requires PiecesAgree(t, b)
    ensures PiecesAgree(t, RookStep(b, m)) && Drift(RookStep(b, m)) == Drift(b)
  {
    ClearRightDrift(b, WhiteQueenside);
    ClearRightDrift(b, WhiteKingside);
    ClearRightDrift(b, BlackQueenside);
    ClearRightDrift(b, BlackKingside);
  }

  // ---------------------------------------------------------------------
  // makeNullMove keeps the representation invariant

  /** After a null move by either real colour the men still agree, the
      kept hash still equals the recomputed one (the en-passant key and the
      colour key having gone out of both) and the en-passant square is
      empty. */
  lemma NullKeepsConsistent(t: Tables, b: Board)
    requires Consistent(t, b) && b.ply < MAX_PLY && (b.side == WHITE || b.side == BLACK)
    ensures Consistent(t, MakeNullMove(b))
  {
    var r := MakeNullMove(b);
    var kept := b.(undo := r.undo, hash := ToggleEnPassant(b.hash, b.enPassant));
    if b.enPassant != NO_SQUARE {
      HashToggleDrift(b.(undo := r.undo), EnPassantToken(b.enPassant % 8));
    }
    var cleared := kept.(enPassant := NO_SQUARE);
    EnPassantFieldDrift(kept, NO_SQUARE);
    assert Drift(cleared) == {};
    assert r == cleared.(side := OppositeByXor(b.side), hash := Toggle(cleared.hash, SideToken),
                         previousMove := NULL_MOVE, ply := b.ply + 1);
    assert SideTokens(r.side) == Toggle(SideTokens(b.side), SideToken);
    assert HashOf(r) == Toggle(HashOf(cleared), SideToken);
    ToggleBoth(cleared.hash, HashOf(cleared), SideToken);
    SameMenAgree(t, b, r);
  }

  // ---------------------------------------------------------------------
  // makeMove keeps the representation invariant

  /** After a sound move every redundant field still describes the men,
      the incrementally kept hash equals the recomputed one, and the
      en-passant square is empty or on the board. */
  lemma MakeKeepsConsistent(t: Tables, b: Board, m: Move)
    requires Consistent(t, b) && Sound(b, m)
    ensures Consistent(t, MakeMove(t, b, m))
  {
    var lifted := RemovePiece(t, TakeCaptured(t, SaveUndo(b, m), m), m.from, m.piece);
    LiftKeeps(t, b, m);
    var placed := SetPiece(t, RookStep(KingStep(t, UpdateEnPassant(t, lifted, m), m), m), m.to, Placed(m));
    assert MakeMove(t, b, m) == PassTurn(placed, m);
    PlaceKeeps(t, b, lifted, m);
    PassTurnKeeps(t, placed, m);
  }

  /** Passing the turn keeps the invariant of a position whose hash has
      not drifted. */
  lemma PassTurnKeeps(t: Tables, placed: Board, m: Move)
    requires PiecesAgree(t, placed) && Drift(placed) == {} && ValidEnPassant(placed.enPassant)
    requires placed.ply + 1 < MAX_PLY && (placed.side == WHITE || placed.side == BLACK)
    ensures Consistent(t, PassTurn(placed, m))
  {
    PassTurnDrift(placed, m);
    SameMenAgree(t, placed, PassTurn(placed, m));
  }

  /** The capture and the lifting of the mover keep the invariant's men
      part and leave the origin and the destination empty. */
  lemma LiftKeeps(t: Tables, b: Board, m: Move)
    requires Consistent(t, b) && Sound(b, m)
    ensures var lifted := RemovePiece(t, TakeCaptured(t, SaveUndo(b, m), m), m.from, m.piece);
            PiecesAgree(t, lifted) && Drift(lifted) == {} &&
            lifted.mapping == b.mapping[m.to := NO_PIECE][m.from := NO_PIECE] &&
            lifted.enPassant == b.enPassant && lifted.side == b.side && lifted.ply == b.ply
  {
    var saved := SaveUndo(b, m);
    var taken := TakeCaptured(t, saved, m);
    SameMenAgree(t, b, saved);
    TakeCapturedKeeps(t, saved, m);
    RemovePieceAgrees(t, taken, m.from, m.piece);
  }

  /** The en-passant, king, rook and placing steps keep the men part and
      the drift. */
  lemma PlaceKeeps(t: Tables, b: Board, lifted: Board, m: Move)
    requires Consistent(t, b) && Sound(b, m)
    requires PiecesAgree(t, lifted) && Drift(lifted) == {}
    requires lifted.mapping == b.mapping[m.to := NO_PIECE][m.from := NO_PIECE]
    requires lifted.enPassant == b.enPassant && lifted.side == b.side && lifted.ply == b.ply
    ensures var placed := SetPiece(t, RookStep(KingStep(t, UpdateEnPassant(t, lifted, m), m), m), m.to, Placed(m));
            PiecesAgree(t, placed) && Drift(placed) == {} && ValidEnPassant(placed.enPassant) &&
            placed.side == b.side && placed.ply == b.ply
  {
    assert IsEnPassantCapture(lifted, m) == IsEnPassantCapture(b, m);
    var passed := UpdateEnPassant(t, lifted, m);
    UpdateEnPassantKeeps(t, lifted, m);
    assert passed.side == b.side && passed.ply == b.ply;
    CastleKeeps(t, b, passed, m);
  }

  /** The king, rook and placing steps keep the men part and the drift. */
  lemma CastleKeeps(t: Tables, b: Board, passed: Board, m: Move)
    requires Sound(b, m)
    requires PiecesAgree(t, passed) && Drift(passed) == {} && passed.ply == b.ply
    requires passed.mapping[m.to] == NO_PIECE
    requires IsCastling(m) ==> passed.mapping == b.mapping[m.to := NO_PIECE][m.from := NO_PIECE]
    ensures var placed := SetPiece(t, RookStep(KingStep(t, passed, m), m), m.to, Placed(m));
            PiecesAgree(t, placed) && Drift(placed) == {} &&
            placed.enPassant == passed.enPassant && placed.side == passed.side && placed.ply == passed.ply
  {
    var castled := KingStep(t, passed, m);
    KingStepKeeps(t, passed, m);
    var rooked := RookStep(castled, m);
    RookStepKeeps(t, castled, m);
    SetPieceAgrees(t, rooked, m.to, Placed(m));
  }

  // ---------------------------------------------------------------------
  // unmakeMove takes makeMove back

  /** The undo record `makeMove` leaves for a move. */
  function SavedUndo(b: Board, m: Move): Undo
    requires 0 <= m.to < 64
  {
    Undo(b.mapping[m.to], b.halfMoveClock, b.enPassant, b.castling, MoveTypeOf(b, m), b.hash, b.previousMove)
  }

  /** The first men steps of `unmakeMove` keep the redundant fields in
      agreement: the destination gets back what stood there, and the
      origin the mover. */
  lemma PutBackKeeps(t: Tables, x: Board, m: Move, u: Undo)
    requires 0 <= m.from < 64 && 0 <= m.to < 64 && m.piece != NO_PIECE && m.from != m.to
    requires PiecesAgree(t, x) && x.mapping[m.to] == Placed(m) && x.mapping[m.from] == NO_PIECE
    ensures PiecesAgree(t, PutBack(t, x, m, u))
    ensures PutBack(t, x, m, u).mapping == x.mapping[m.to := u.captured][m.from := m.piece]
  {
    var lifted := RemovePiece(t, x, m.to, Placed(m));
    RemovePieceAgrees(t, x, m.to, Placed(m));
    var restored := if u.captured != NO_PIECE then SetPiece(t, lifted, m.to, u.captured) else lifted;
    if u.captured != NO_PIECE {
      SetPieceAgrees(t, lifted, m.to, u.captured);
    }
    assert restored.mapping == x.mapping[m.to := u.captured];
    SetPieceAgrees(t, restored, m.from, m.piece);
  }

  /** Putting the men back from the position after a sound move restores
      the placement before it, with every redundant field in agreement. */
  lemma RestoreMenKeeps(t: Tables, b: Board, m: Move, x: Board)
    requires Consistent(t, b) && Sound(b, m)
    requires PiecesAgree(t, x) && MovedMen(b, m, x.mapping)
    ensures PiecesAgree(t, RestoreMen(t, x, m, SavedUndo(b, m), b.side))
    ensures RestoreMen(t, x, m, SavedUndo(b, m), b.side).mapping == b.mapping
  {
    var u := SavedUndo(b, m);
    PutBackKeeps(t, x, m, u);
    UnpassKeeps(t, b, m, x.mapping, PutBack(t, x, m, u));
  }

  lemma UnpassKeeps(t: Tables, b: Board, m: Move, moved: Mapping, returned: Board)
    requires Consistent(t, b) && Sound(b, m)
    requires PiecesAgree(t, returned) && MovedMen(b, m, moved)
    requires returned.mapping == moved[m.to := b.mapping[m.to]][m.from := m.piece]
    ensures PiecesAgree(t, ReturnExtras(t, returned, m, SavedUndo(b, m), b.side))
    ensures ReturnExtras(t, returned, m, SavedUndo(b, m), b.side).mapping == b.mapping
  {
    var u := SavedUndo(b, m);
    var pawn := if b.side == WHITE then BLACK_PAWN else WHITE_PAWN;
    var unpassed := if u.moveType == EnPassant then SetPiece(t, returned, VictimSquare(b.side, m), pawn) else returned;
    if u.moveType == EnPassant {
      SetPieceAgrees(t, returned, VictimSquare(b.side, m), pawn);
    }
    assert unpassed.mapping == if IsEnPassantCapture(b, m) then returned.mapping[VictimSquare(b.side, m) := pawn] else returned.mapping;
    if u.moveType == Castling {
      ReturnRookKeeps(t, unpassed, m.to);
    }
    RestoreChain(b, m, moved, returned.mapping, unpassed.mapping);
  }

  /** The mapping steps of `unmakeMove` undo `MovedMen`. */
  lemma RestoreChain(b: Board, m: Move, moved: Mapping, returned: Mapping, unpassed: Mapping)
    requires Sound(b, m) && MovedMen(b, m, moved)
    requires returned == moved[m.to := b.mapping[m.to]][m.from := m.piece]
    requires unpassed == if IsEnPassantCapture(b, m) then returned[VictimSquare(b.side, m) := if b.side == WHITE then BLACK_PAWN else WHITE_PAWN] else returned
    ensures (if MoveTypeOf(b, m) == Castling then RookReturned(unpassed, m.to) else unpassed) == b.mapping
    ensures MoveTypeOf(b, m) == Castling && RookCorner(m.to) != NO_SQUARE ==>
              unpassed[RookLanding(m.to)] == CastlingRook(m.to) && unpassed[RookCorner(m.to)] == NO_PIECE
  {
    var last := if MoveTypeOf(b, m) == Castling then RookReturned(unpassed, m.to) else unpassed;
    forall sq: Square
      ensures last[sq] == b.mapping[sq]
    {
    }
  }

  /** `unmakeMove` applied to `r` gives back `b`, except that the undo
      record written for the move stays and the history entry of the ply
      after is cleared. */
  predicate TakesBack(t: Tables, b: Board, m: Move, r: Board)
  {
    b.ply + 1 < MAX_PLY && Unmakeable(r, m) && UnmakeMove(t, r, m) == b.(undo := r.undo, history := b.history[b.ply + 1 := {}])
  }

  /** Taking back a sound move restores the position. */
  lemma MakeUnmakeRoundTrip(t: Tables, b: Board, m: Move)
    requires Consistent(t, b) && Sound(b, m)
    ensures TakesBack(t, b, m, MakeMove(t, b, m))
  {
    MakeMoveCounters(t, b, m);
    MakeMoveUndo(t, b, m);
    MakeMoveMapping(t, b, m);
    MakeKeepsConsistent(t, b, m);
    UnmakeAfter(t, b, m, MakeMove(t, b, m));
  }

  /** The round trip from what `makeMove` is known to do. */
  lemma UnmakeAfter(t: Tables, b: Board, m: Move, r: Board)
    requires Consistent(t, b) && Sound(b, m)
    requires CountersAdvanced(b, m, r) && MovedMen(b, m, r.mapping) && PiecesAgree(t, r)
    requires r.undo == b.undo[b.ply := SavedUndo(b, m)]
    ensures TakesBack(t, b, m, r)
  {
    UnmakeMen(t, b, m, r);
    UnmakeState(b, m, r, UnmakeMove(t, r, m));
  }

  /** The men after taking the move back are the men before it. */
  lemma UnmakeMen(t: Tables, b: Board, m: Move, r: Board)
    requires Consistent(t, b) && Sound(b, m)
    requires CountersAdvanced(b, m, r) && MovedMen(b, m, r.mapping) && PiecesAgree(t, r)
    requires r.undo == b.undo[b.ply := SavedUndo(b, m)]
    ensures Unmakeable(r, m)
    ensures var x := UnmakeMove(t, r, m);
            x.pieces == b.pieces && x.colors == b.colors && x.occupied == b.occupied &&
            x.mapping == b.mapping && x.material == b.material && x.pst == b.pst
  {
    OppositeByXorFacts(b.side);
    var u := r.undo[r.ply - 1];
    assert u == SavedUndo(b, m);
    var cleared := r.(history := r.history[r.ply := {}]);
    SameMenAgree(t, r, cleared);
    RestoreMenKeeps(t, b, m, cleared);
    AgreementDetermined(t, RestoreMen(t, cleared, m, u, b.side), b);
  }

  /** The rest of the position after taking the move back comes from the
      undo record. */
  lemma UnmakeState(b: Board, m: Move, r: Board, x: Board)
    requires Sound(b, m) && CountersAdvanced(b, m, r)
    requires r.undo == b.undo[b.ply := SavedUndo(b, m)]
    requires x.pieces == b.pieces && x.colors == b.colors && x.occupied == b.occupied
    requires x.mapping == b.mapping && x.material == b.material && x.pst == b.pst
    requires RestoredFrom(r, x)
    ensures x == b.(undo := r.undo, history := b.history[b.ply + 1 := {}])
  {
    OppositeByXorFacts(b.side);
  }
}
