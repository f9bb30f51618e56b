/** `Bitboard::setFromFen` (src/bitboard.cpp:378-521): loading a position
    from Forsyth–Edwards Notation (section 16.1.3 of the PGN standard).

    The engine clears its state and then reads the text one character at a
    time, counting spaces to know which field it is in. Placement letters
    go through `setPieceFromFENChar` (src/bitboard.cpp:713-754) and so
    through `setPiece`; the side, castling and en-passant characters toggle
    their hash constants as they are read; each clock keeps only the value
    of its last character. A comma ends the reading early. */
module FenLoad {
  import opened Wrappers
  import opened Types
  import opened Bitboard
  import MoveProofs

  /** Why the loader gives up. `OffBoard` is a piece letter read while the
      square index is outside the board: the engine then writes past its
      arrays, and the model stops there instead. */
  datatype Reason = BadPiece | BadSide | BadCastling | OffBoard

  /** The loop state: the position so far, the square the next placement
      letter lands on, and the number of spaces read. */
  datatype Cursor = Cursor(board: Board, index: int, spaces: nat)

  /** The result of reading characters: the state reached, or the state at
      the character that was refused and why. */
  datatype Outcome = Ok(cursor: Cursor) | Fail(cursor: Cursor, reason: Reason)

  /** What `setFromFen` returns: true with the loaded position, or false
      with the position as far as it got. */
  datatype Loaded = Loaded(board: Board) | Rejected(board: Board, reason: Reason)

  // ---------------------------------------------------------------------
  // Characters

  /** `tolower` on ASCII letters. */
  function Lower(c: char): (r: char)
    ensures IsUpper(c) ==> r as int == c as int + 32 && IsLower(r)
    ensures !IsUpper(c) ==> r == c
  {
    if IsUpper(c) then (c as int + 32) as char else c
  }

  /** The switch of `setPieceFromFENChar`: the piece a letter names, or
      EMPTY for a character that names none (nothing is placed then). It
      is the inverse of `getCharacterForPieceType` on the twelve pieces. */
  function PieceOfChar(c: char): (o: Occupant)
    ensures o != NO_PIECE ==> PieceChar(o) == c
    ensures o == NO_PIECE ==> forall p: Piece :: PieceChar(p) != c
  {
    match c
    case 'P' => WHITE_PAWN
    case 'p' => BLACK_PAWN
    case 'N' => WHITE_KNIGHT
    case 'n' => BLACK_KNIGHT
    case 'B' => WHITE_BISHOP
    case 'b' => BLACK_BISHOP
    case 'R' => WHITE_ROOK
    case 'r' => BLACK_ROOK
    case 'Q' => WHITE_QUEEN
    case 'q' => BLACK_QUEEN
    case 'K' => WHITE_KING
    case 'k' => BLACK_KING
    case _ => NO_PIECE
  }

  /** The castling right a letter of the castling field grants. */
  function RightOfChar(c: char): (r: Option<CastleRight>)
    ensures r.Some? <==> c in "KQkq"
    ensures r == Some(WhiteKingside) <==> c == 'K'
    ensures r == Some(BlackQueenside) <==> c == 'q'
  {
    match c
    case 'K' => Some(WhiteKingside)
    case 'Q' => Some(WhiteQueenside)
    case 'k' => Some(BlackKingside)
    case 'q' => Some(BlackQueenside)
    case _ => None
  }

  /** A clock character's value, `character - '0'`. */
  function ClockValue(c: char): int
  {
    c as int - '0' as int
  }

  // ---------------------------------------------------------------------
  // The cleared state

  /** The state `setFromFen` clears before reading: no men, colour NONE,
      clocks 0 and 1, no en-passant square, no rights, hash 0, and cleared
      history and undo records. `previousMove` is not touched. */
  function Cleared(b: Board): (r: Board)
    ensures forall sq: Square :: r.mapping[sq] == NO_PIECE
    ensures r.occupied == {} && r.hash == {} && r.castling == {} && r.enPassant == NO_SQUARE
    ensures r.side == NO_COLOR && r.ply == 0 && r.halfMoveClock == 0 && r.fullmoveClock == 1
    ensures r.previousMove == b.previousMove
  {
    Board(
      pieces := seq(12, _ => {}),
      colors := [{}, {}],
      occupied := {},
      mapping := seq(64, _ => NO_PIECE),
      material := seq(12, _ => 0),
      pst := [0, 0, 0, 0],
      hash := {},
      side := NO_COLOR,
      halfMoveClock := 0,
      fullmoveClock := 1,
      ply := 0,
      enPassant := NO_SQUARE,
      castling := {},
      history := seq(MAX_PLY, _ => {}),
      undo := seq(MAX_PLY, _ => CLEARED_UNDO),
      previousMove := b.previousMove)
  }

  /** The piece-square sum of an empty placement is zero. */
  lemma {:induction false} EmptyPstSum(t: Tables, m: Mapping, colour: Byte, endgame: bool, n: nat)
    requires n <= 64
    requires forall sq: Square :: m[sq] == NO_PIECE
    ensures PstSum(t, m, colour, endgame, n) == 0
  {
    if n > 0 {
      EmptyPstSum(t, m, colour, endgame, n - 1);
    }
  }

  /** Whatever position the engine held, the cleared one satisfies the
      representation invariant. */
  lemma ClearedConsistent(t: Tables, b: Board)
    ensures Consistent(t, Cleared(b))
  {
    var r := Cleared(b);
    EmptyPstSum(t, r.mapping, WHITE, false, 64);
    EmptyPstSum(t, r.mapping, BLACK, false, 64);
    EmptyPstSum(t, r.mapping, WHITE, true, 64);
    EmptyPstSum(t, r.mapping, BLACK, true, 64);
    assert PieceTokens(r.mapping) == {};
    assert CastleTokens(r.castling) == {};
  }

  /** The loop state before the first character: the cleared position and
      the index at A8, the first square of the eighth rank. */
  function Start(b: Board): Cursor
  {
    Cursor(Cleared(b), A8, 0)
  }

  // ---------------------------------------------------------------------
  // One character of each field

  /** A character of the placement field: `/` steps back to the start of
      the rank below, a digit skips that many squares, a letter places its
      piece (if it names one) and moves on one square. */
  function PlaceChar(t: Tables, s: Cursor, c: char): (r: Outcome)
    ensures r.cursor.spaces == s.spaces && r.cursor.board.ply == s.board.ply
    ensures r.cursor.board == s.board.(pieces := r.cursor.board.pieces, colors := r.cursor.board.colors,
      occupied := r.cursor.board.occupied, mapping := r.cursor.board.mapping, material := r.cursor.board.material,
      pst := r.cursor.board.pst, hash := r.cursor.board.hash)
  {
    if c == '/' then Ok(s.(index := s.index - 16))
    else if '1' <= c <= '8' then Ok(s.(index := s.index + ClockValue(c)))
    else if 'A' <= c <= 'z' then
      var o := PieceOfChar(c);
      if o == NO_PIECE then Ok(s.(index := s.index + 1))
      else if 0 <= s.index < 64 then Ok(Cursor(SetPiece(t, s.board, s.index, o), s.index + 1, s.spaces))
      else Fail(s, OffBoard)
    else Fail(s, BadPiece)
  }

  /** A character of the side-to-move field, compared case-insensitively;
      black to move toggles the side constant into the hash. */
  function SideChar(s: Cursor, c: char): (r: Outcome)
  {
    if Lower(c) == 'w' then Ok(s.(board := s.board.(side := WHITE)))
    else if Lower(c) == 'b' then Ok(s.(board := s.board.(side := BLACK, hash := Toggle(s.board.hash, SideToken))))
    else Fail(s, BadSide)
  }

  /** A character of the castling field: `-` is skipped, each of `KQkq`
      adds its right and toggles its constant. */
  function CastleChar(s: Cursor, c: char): (r: Outcome)
  {
    if c == '-' then Ok(s)
    else match RightOfChar(c)
      case Some(right) =>
        Ok(s.(board := s.board.(castling := s.board.castling + {right}, hash := Toggle(s.board.hash, CastleToken(right)))))
      case None => Fail(s, BadCastling)
  }

  /** A character of the en-passant field. Only the file letter is read:
      the rank is the third when white is the colour opposite the side to
      move and the sixth otherwise. Every other character is skipped. The
      engine's later test that the file lies in 0..7 cannot fail after the
      letter test and has no counterpart here. */
  function EnPassantChar(s: Cursor, c: char): (r: Cursor)
  {
    if c == '-' || !('a' <= Lower(c) <= 'h') then s
    else
      var file := Lower(c) as int - 'a' as int;
      var rank := if OppositeByXor(s.board.side) == WHITE then 2 else 5;
      var ep := rank * 8 + file;
      s.(board := s.board.(enPassant := ep, hash := Toggle(s.board.hash, EnPassantToken(ep % 8))), index := s.index + 2)
  }

  /** The clock a character of field `spaces` (4 or 5) writes. */
  function SetClock(s: Cursor, c: char): (r: Cursor)
    requires s.spaces == 4 || s.spaces == 5
  {
    if s.spaces == 4 then s.(board := s.board.(halfMoveClock := ClockValue(c)))
    else s.(board := s.board.(fullmoveClock := ClockValue(c)))
  }

  /** The characters the loader refuses: outside `1-8`, `/` and `'A'..'z'`
      in the placement field (and a piece letter off the board), anything
      but w or b in either case in the side field, and anything but
      `KQkq-` in the castling field. */
  predicate Refused(s: Cursor, c: char)
  {
    (s.spaces == 0 && !(c == '/' || '1' <= c <= '8' || 'A' <= c <= 'z')) ||
    (s.spaces == 0 && PieceOfChar(c) != NO_PIECE && !(0 <= s.index < 64)) ||
    (s.spaces == 1 && c !in "wWbB") ||
    (s.spaces == 2 && c !in "KQkq-")
  }

  /** One character other than a space or a comma, read in the field the
      space count names. Fields past the sixth are ignored. */
  function Step(t: Tables, s: Cursor, c: char): (r: Outcome)
    ensures r.Fail? <==> Refused(s, c)
    ensures r.Fail? ==> r.cursor == s
    ensures r.cursor.spaces == s.spaces && r.cursor.board.ply == s.board.ply
    ensures r.cursor.board.previousMove == s.board.previousMove
  {
    if s.spaces == 0 then PlaceChar(t, s, c)
    else if s.spaces == 1 then SideChar(s, c)
    else if s.spaces == 2 then CastleChar(s, c)
    else if s.spaces == 3 then Ok(EnPassantChar(s, c))
    else if s.spaces <= 5 then Ok(SetClock(s, c))
    else Ok(s)
  }

  // ---------------------------------------------------------------------
  // The whole text

  /** The loop over the text: a space moves to the next field, a comma
      stops the reading, and a refused character stops it with an error. */
  function Scan(t: Tables, s: Cursor, fen: string): (r: Outcome)
    ensures r.cursor.board.ply == s.board.ply && r.cursor.board.previousMove == s.board.previousMove
    decreases |fen|
  {
    if |fen| == 0 then Ok(s)
    else if fen[0] == ' ' then Scan(t, s.(spaces := s.spaces + 1), fen[1..])
    else if fen[0] == ',' then Ok(s)
    else match Step(t, s, fen[0])
      case Fail(x, why) => Fail(x, why)
      case Ok(next) => Scan(t, next, fen[1..])
  }

  /** `setFromFen`: clear, read, and on success record the loaded hash as
      the history entry of the current ply. */
  function SetFromFen(t: Tables, b: Board, fen: string): (r: Loaded)
    ensures r.board.ply == 0 && r.board.previousMove == b.previousMove
  {
    match Scan(t, Start(b), fen)
    case Ok(s) => Loaded(s.board.(history := s.board.history[0 := s.board.hash]))
    case Fail(s, why) => Rejected(s.board, why)
  }

  // ---------------------------------------------------------------------
  // Reading stops at the first comma

  /** Nothing after the first comma is read. */
  lemma {:induction false} ScanStopsAtComma(t: Tables, s: Cursor, a: string, rest: string)
    requires ',' !in a
    ensures Scan(t, s, a + [','] + rest) == Scan(t, s, a)
    decreases |a|
  {
    if |a| == 0 {
      assert (a + [','] + rest)[0] == ',';
    } else {
      assert (a + [','] + rest)[0] == a[0];
      assert (a + [','] + rest)[1..] == a[1..] + [','] + rest;
      if a[0] == ' ' {
        ScanStopsAtComma(t, s.(spaces := s.spaces + 1), a[1..], rest);
      } else if Step(t, s, a[0]).Ok? {
        ScanStopsAtComma(t, Step(t, s, a[0]).cursor, a[1..], rest);
      }
    }
  }

  // ---------------------------------------------------------------------
  // Clocks keep their last character

  /** A word of the halfmove or fullmove field: characters other than
      spaces and commas. */
  predicate IsWord(w: string)
  {
    forall i :: 0 <= i < |w| ==> w[i] != ' ' && w[i] != ','
  }

  /** Reading a whole clock field leaves that clock at the value of the
      field's last character, whatever came before it. */
  lemma {:induction false} ClockKeepsLast(t: Tables, s: Cursor, w: string, rest: string)
    requires s.spaces == 4 || s.spaces == 5
    requires |w| > 0 && IsWord(w)
    ensures Scan(t, s, w + rest) == Scan(t, SetClock(s, w[|w| - 1]), rest)
    decreases |w|
  {
    assert (w + rest)[0] == w[0];
    assert (w + rest)[1..] == w[1..] + rest;
    var next := SetClock(s, w[0]);
    assert Step(t, s, w[0]) == Ok(next);
    if |w| == 1 {
      assert w[1..] + rest == rest;
    } else {
      ClockKeepsLast(t, next, w[1..], rest);
      assert SetClock(next, w[|w| - 1]) == SetClock(s, w[|w| - 1]);
    }
  }

  // ---------------------------------------------------------------------
  // A clean text loads a consistent position

  /** A character whose effect the hash can follow: a piece letter lands on
      an empty square, a side letter comes while black is not yet to move,
      a castling letter grants a right not yet held, and a file letter
      comes while no en-passant square is set. Repeating any of these
      would toggle a constant out of the hash again, or leave a stale one
      in it. */
  predicate CleanStep(s: Cursor, c: char)
  {
    (s.spaces == 0 && PieceOfChar(c) != NO_PIECE && 0 <= s.index < 64 ==> s.board.mapping[s.index] == NO_PIECE) &&
    (s.spaces == 1 ==> s.board.side != BLACK) &&
    (s.spaces == 2 && RightOfChar(c).Some? ==> RightOfChar(c).value !in s.board.castling) &&
    (s.spaces == 3 && 'a' <= Lower(c) <= 'h' ==> s.board.enPassant == NO_SQUARE)
  }

  /** Every character the loop reads is clean. */
  predicate CleanRun(t: Tables, s: Cursor, fen: string)
    decreases |fen|
  {
    if |fen| == 0 then true
    else if fen[0] == ' ' then CleanRun(t, s.(spaces := s.spaces + 1), fen[1..])
    else if fen[0] == ',' then true
    else CleanStep(s, fen[0]) && (Step(t, s, fen[0]).Ok? ==> CleanRun(t, Step(t, s, fen[0]).cursor, fen[1..]))
  }

  /** The part of the invariant each step keeps: the men agree, the
      en-passant square is valid, and the hash is as far from the
      recomputed one as before. */
  predicate Keeps(t: Tables, a: Board, b: Board)
  {
    PiecesAgree(t, b) && ValidEnPassant(b.enPassant) && Drift(b) == Drift(a)
  }

  lemma PlaceKeeps(t: Tables, s: Cursor, c: char)
    requires PiecesAgree(t, s.board) && ValidEnPassant(s.board.enPassant)
    requires s.spaces == 0 && CleanStep(s, c)
    ensures PlaceChar(t, s, c).Ok? ==> Keeps(t, s.board, PlaceChar(t, s, c).cursor.board)
  {
    var o := PieceOfChar(c);
    if c != '/' && !('1' <= c <= '8') && 'A' <= c <= 'z' && o != NO_PIECE && 0 <= s.index < 64 {
      SetPieceAgrees(t, s.board, s.index, o);
    }
  }

  lemma SideKeeps(s: Cursor, c: char)
    requires s.board.side != BLACK
    ensures SideChar(s, c).Ok? ==> Drift(SideChar(s, c).cursor.board) == Drift(s.board)
  {
    var x := s.board;
    if Lower(c) == 'w' {
      assert SideTokens(WHITE) == SideTokens(x.side);
      assert HashOf(x.(side := WHITE)) == HashOf(x);
    } else if Lower(c) == 'b' {
      var y := x.(side := BLACK);
      assert SideTokens(BLACK) == Toggle(SideTokens(x.side), SideToken);
      assert HashOf(y) == Toggle(HashOf(x), SideToken);
      MoveProofs.HashToggleDrift(y, SideToken);
      ToggleBoth(x.hash, HashOf(x), SideToken);
    }
  }

  lemma CastleKeeps(s: Cursor, c: char)
    requires s.spaces == 2 && CleanStep(s, c)
    ensures CastleChar(s, c).Ok? ==> Drift(CastleChar(s, c).cursor.board) == Drift(s.board)
  {
    var x := s.board;
    if c != '-' && RightOfChar(c).Some? {
      var right := RightOfChar(c).value;
      var y := x.(castling := x.castling + {right});
      assert CastleTokens(y.castling) == CastleTokens(x.castling) + {CastleToken(right)};
      assert HashOf(y) == Toggle(HashOf(x), CastleToken(right));
      MoveProofs.HashToggleDrift(y, CastleToken(right));
      ToggleBoth(x.hash, HashOf(x), CastleToken(right));
    }
  }

  lemma EnPassantKeeps(s: Cursor, c: char)
    requires s.spaces == 3 && CleanStep(s, c)
    ensures ValidEnPassant(s.board.enPassant) ==> ValidEnPassant(EnPassantChar(s, c).board.enPassant)
    ensures ValidEnPassant(s.board.enPassant) ==> Drift(EnPassantChar(s, c).board) == Drift(s.board)
  {
    var x := s.board;
    if !(c == '-' || !('a' <= Lower(c) <= 'h')) {
      var file := Lower(c) as int - 'a' as int;
      var ep := EnPassantChar(s, c).board.enPassant;
      assert ep % 8 == file;
      var y := x.(enPassant := ep);
      assert EnPassantTokens(ep) == {EnPassantToken(file)};
      assert EnPassantTokens(x.enPassant) == {};
      assert HashOf(y) == Toggle(HashOf(x), EnPassantToken(file));
      MoveProofs.HashToggleDrift(y, EnPassantToken(file));
      ToggleBoth(x.hash, HashOf(x), EnPassantToken(file));
    }
  }

  /** Each clean character keeps the men in agreement, the en-passant
      square valid and the hash drift unchanged. */
  lemma StepKeeps(t: Tables, s: Cursor, c: char)
    requires PiecesAgree(t, s.board) && ValidEnPassant(s.board.enPassant) && CleanStep(s, c)
    ensures Step(t, s, c).Ok? ==> Keeps(t, s.board, Step(t, s, c).cursor.board)
  {
    var x := s.board;
    var r := Step(t, s, c);
    if r.Ok? {
      var y := r.cursor.board;
      if s.spaces == 0 {
        PlaceKeeps(t, s, c);
      } else if s.spaces == 1 {
        SideKeeps(s, c);
        MoveProofs.SameMenAgree(t, x, y);
      } else if s.spaces == 2 {
        CastleKeeps(s, c);
        MoveProofs.SameMenAgree(t, x, y);
      } else if s.spaces == 3 {
        EnPassantKeeps(s, c);
        MoveProofs.SameMenAgree(t, x, y);
      } else {
        MoveProofs.SameMenAgree(t, x, y);
        assert HashOf(y) == HashOf(x);
      }
    }
  }

  /** A clean run of characters keeps the invariant's parts. */
  lemma {:induction false} ScanKeeps(t: Tables, s: Cursor, fen: string)
    requires PiecesAgree(t, s.board) && ValidEnPassant(s.board.enPassant) && CleanRun(t, s, fen)
    ensures Scan(t, s, fen).Ok? ==> Keeps(t, s.board, Scan(t, s, fen).cursor.board)
    decreases |fen|
  {
    if |fen| > 0 && fen[0] != ',' {
      if fen[0] == ' ' {
        ScanKeeps(t, s.(spaces := s.spaces + 1), fen[1..]);
      } else {
        StepKeeps(t, s, fen[0]);
        var r := Step(t, s, fen[0]);
        if r.Ok? {
          ScanKeeps(t, r.cursor, fen[1..]);
        }
      }
    }
  }

  /** A text read cleanly to the end loads a position that satisfies the
      representation invariant, and its hash is the history entry of ply 0. */
  lemma LoadConsistent(t: Tables, b: Board, fen: string)
    requires CleanRun(t, Start(b), fen)
    ensures SetFromFen(t, b, fen).Loaded? ==> Consistent(t, SetFromFen(t, b, fen).board)
    ensures SetFromFen(t, b, fen).Loaded? ==> SetFromFen(t, b, fen).board.history[0] == SetFromFen(t, b, fen).board.hash
  {
    var s := Start(b);
    ClearedConsistent(t, b);
    ScanKeeps(t, s, fen);
    var r := Scan(t, s, fen);
    if r.Ok? {
      var x := r.cursor.board;
      var y := x.(history := x.history[0 := x.hash]);
      assert HashOf(y) == HashOf(x);
      MoveProofs.SameMenAgree(t, x, y);
    }
  }
}
