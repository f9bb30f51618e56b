/** Pseudo-legal move generation of src/movegen.cpp: the list writer, the
    ordering ladder of `scoreMove`, the target filters of the six piece
    generators for each generation type, promotions, and the castling
    conditions.

    The attack tables, pawn pushes, attacker sets, exchange evaluation and
    MVV-LVA table that the generators consult are board accessors whose
    code is not part of this model; they enter as the functions of a
    `Geometry`. Bitboards are sets of squares, and iterating a bitboard with
    `popLsb` is iterating its squares in ascending order. */
module MoveGen {
  import opened Types
  import opened Bitboard
  import Moves

  /** `MAX_MOVES`, the capacity of a move list (src/constants.h). */
  const MAX_MOVES: nat := 255

  /** The capture score of a move that captures nothing. */
  const NO_CAPTURE_SCORE: int := -1

  /** `PROMOTION_SQUARES`: the first and the eighth rank. */
  const PROMOTION_SQUARES: set<Square> := set sq: Square | sq < 8 || sq >= 56

  const B1: Square := 1
  const E1: Square := 4
  const B8: Square := 57
  const E8: Square := 60

  /** The generation types of this generator. */
  datatype GenType = Normal | QSearch | Evasions

  /** The accessors the generators consult. `attacks(p, sq)` is the
      attack set of piece `p` on `sq` at the current occupancy,
      `pushes(c, sq)` the single and double pushes of a pawn of colour `c`,
      `attackers(c, sq)` the squares of the men of colour `c` attacking
      `sq`, and `attacked(c, sq)` whether colour `c` attacks `sq`. */
  datatype Geometry = Geometry(
    attacks: (Piece, Square) -> set<Square>,
    pushes: (Byte, Square) -> set<Square>,
    pawnAttacks: (Byte, Square) -> set<Square>,
    kingAttacks: Square -> set<Square>,
    attackers: (Byte, Square) -> set<Square>,
    attacked: (Byte, Square) -> bool,
    between: (Square, Square) -> set<Square>,
    see: (Square, Square) -> int,
    mvvlva: (Piece, Piece) -> int)

  // ---------------------------------------------------------------------
  // The move list (src/movegen.cpp:33-42)

  /** A move list: a fixed array of `MAX_MOVES` slots and the number in use. */
  datatype MoveList = MoveList(moves: seq<Move>, size: nat)

  predicate Valid(l: MoveList)
  {
    |l.moves| == MAX_MOVES && l.size <= MAX_MOVES
  }

  /** The moves in use, in order. */
  function Contents(l: MoveList): seq<Move>
    requires Valid(l)
  {
    l.moves[..l.size]
  }

  /** `addMoveToList`: writes the slot at `size` and counts it. */
  function AddMoveToList(l: MoveList, m: Move): (r: MoveList)
    requires Valid(l) && l.size < MAX_MOVES
    ensures Valid(r) && r.size == l.size + 1
    ensures forall i :: 0 <= i < MAX_MOVES && i != l.size ==> r.moves[i] == l.moves[i]
  {
    MoveList(l.moves[l.size := m], l.size + 1)
  }

  /** Adding a move appends it to the moves in use and leaves the earlier
      ones as they were. */
  lemma AddAppends(l: MoveList, m: Move)
    requires Valid(l) && l.size < MAX_MOVES
    ensures Contents(AddMoveToList(l, m)) == Contents(l) + [m]
  {
    var r := AddMoveToList(l, m);
    assert forall i :: 0 <= i < l.size ==> r.moves[i] == l.moves[i];
  }

  /** Writing a generated sequence move by move. */
  function AddAll(l: MoveList, ms: seq<Move>): (r: MoveList)
    requires Valid(l) && l.size + |ms| <= MAX_MOVES
    ensures Valid(r) && Contents(r) == Contents(l) + ms
    decreases |ms|
  {
    if |ms| == 0 then l
    else
      AddAppends(l, ms[0]);
      var r := AddAll(AddMoveToList(l, ms[0]), ms[1..]);
      assert Contents(l) + [ms[0]] + ms[1..] == Contents(l) + ms;
      r
  }

  // ---------------------------------------------------------------------
  // scoreMove (src/movegen.cpp:44-82)

  /** The killer, counter-move and history tables the ladder reads:
      `killers(k, ply)` is `killerMoves[k][ply]`. */
  datatype Ordering = Ordering(killers: (nat, int) -> int, counters: (int, int) -> int, history: (int, int) -> int)

  /** `scoreMove`: a ladder of early returns. */
  function ScoreMove(ply: int, pvCode: int, m: Move, previous: Move, code: int, bestCode: int, o: Ordering): int
  {
    if code == pvCode then 500000
    else if code == bestCode then 250000
    else if m.captureScore >= 0 then 100000 + m.captureScore
    else if o.killers(0, ply) == code then 50000
    else if o.killers(1, ply) == code then 40000
    else if o.killers(2, ply) == code then 30000
    else if previous.piece != NO_PIECE && previous.to != NO_SQUARE && o.counters(previous.piece, previous.to) == code then 20000
    else if m.captureScore < -1 then m.captureScore - 5000
    else o.history(m.piece, m.to)
  }

  /** The rungs of the ladder, best first. */
  datatype Tier = PvMove | BestMove | Capture | Killer(k: nat) | CounterMove | BadCapture | Quiet

  /** The first rung a move reaches. */
  function TierOf(ply: int, pvCode: int, m: Move, previous: Move, code: int, bestCode: int, o: Ordering): Tier
  {
    if code == pvCode then PvMove
    else if code == bestCode then BestMove
    else if m.captureScore >= 0 then Capture
    else if exists k :: 0 <= k < 3 && o.killers(k, ply) == code then
      Killer(if o.killers(0, ply) == code then 0 else if o.killers(1, ply) == code then 1 else 2)
    else if previous.piece != NO_PIECE && previous.to != NO_SQUARE && o.counters(previous.piece, previous.to) == code then CounterMove
    else if m.captureScore < -1 then BadCapture
    else Quiet
  }

  /** The rank of a rung by the scores it gets, best first. Bad captures
      are recognised before quiet moves but score below all of them. */
  function Rank(t: Tier): nat
  {
    match t
    case PvMove => 0
    case BestMove => 1
    case Capture => 2
    case Killer(k) => 3 + k
    case CounterMove => 6
    case Quiet => 7
    case BadCapture => 8
  }

  /** Bounds under which the rungs cannot overlap: capture scores below
      150000 and history values in 0 .. 19999. */
  predicate Bounded(m: Move, o: Ordering)
  {
    m.captureScore < 150000 && 0 <= o.history(m.piece, m.to) < 20000
  }

  /** Where each rung lands: the fixed scores, captures in 100000 .. 249999,
      bad captures below -5001 and quiet moves in 0 .. 19999. */
  lemma ScoreOfTier(ply: int, pvCode: int, m: Move, previous: Move, code: int, bestCode: int, o: Ordering)
    requires Bounded(m, o)
    ensures var s := ScoreMove(ply, pvCode, m, previous, code, bestCode, o);
      match TierOf(ply, pvCode, m, previous, code, bestCode, o)
      case PvMove => s == 500000
      case BestMove => s == 250000
      case Capture => 100000 <= s < 250000
      case Killer(k) => s == 50000 - 10000 * k && k < 3
      case CounterMove => s == 20000
      case BadCapture => s < -5001
      case Quiet => 0 <= s < 20000
  {
    if code != pvCode && code != bestCode && m.captureScore < 0 {
      if o.killers(0, ply) == code || o.killers(1, ply) == code || o.killers(2, ply) == code {
        assert exists k :: 0 <= k < 3 && o.killers(k, ply) == code;
      } else {
        assert !exists k :: 0 <= k < 3 && o.killers(k, ply) == code by {
          forall k | 0 <= k < 3 ensures o.killers(k, ply) != code {
            assert k == 0 || k == 1 || k == 2;
          }
        }
      }
    }
  }

  /** The ladder is strict: a move of a better rank scores strictly more
      than a move of a worse rank, in the same position. */
  lemma LadderOrder(ply: int, pvCode: int, previous: Move, bestCode: int, o: Ordering,
                    a: Move, codeA: int, b: Move, codeB: int)
    requires Bounded(a, o) && Bounded(b, o)
    requires Rank(TierOf(ply, pvCode, a, previous, codeA, bestCode, o)) < Rank(TierOf(ply, pvCode, b, previous, codeB, bestCode, o))
    ensures ScoreMove(ply, pvCode, a, previous, codeA, bestCode, o) > ScoreMove(ply, pvCode, b, previous, codeB, bestCode, o)
  {
    ScoreOfTier(ply, pvCode, a, previous, codeA, bestCode, o);
    ScoreOfTier(ply, pvCode, b, previous, codeB, bestCode, o);
  }

  /** The scoring pass at the end of `generateMoves`: every move gets its
      ladder score and keeps everything else. `encode` is `encodeMove`. */
  function ScoreAll(ms: seq<Move>, ply: int, pvCode: int, previous: Move, bestCode: int, o: Ordering,
                    encode: Move -> int): (r: seq<Move>)
    ensures |r| == |ms|
    ensures forall i :: 0 <= i < |ms| ==> r[i].(score := 0) == ms[i].(score := 0)
    ensures forall i :: 0 <= i < |ms| ==> r[i].score == ScoreMove(ply, pvCode, ms[i], previous, encode(ms[i]), bestCode, o)
  {
    seq(|ms|, i requires 0 <= i < |ms| =>
      ms[i].(score := ScoreMove(ply, pvCode, ms[i], previous, encode(ms[i]), bestCode, o)))
  }

  // ---------------------------------------------------------------------
  // Iterating bitboards

  /** The squares of `s` from `n` upwards, in increasing order: the order
      in which `popLsb` yields them. */
  function AscendingFrom(s: set<Square>, n: nat): (r: seq<Square>)
    requires n <= 64
    ensures forall x :: x in r <==> x in s && x >= n
    ensures forall i, j :: 0 <= i < j < |r| ==> r[i] < r[j]
    ensures forall i :: 0 <= i < |r| ==> r[i] >= n
    decreases 64 - n
  {
    if n == 64 then []
    else (if n in s then [n as Square] else []) + AscendingFrom(s, n + 1)
  }

  function Ascending(s: set<Square>): (r: seq<Square>)
    ensures forall x :: x in r <==> x in s
    ensures forall i, j :: 0 <= i < j < |r| ==> r[i] < r[j]
  {
    AscendingFrom(s, 0)
  }

  /** `bitscanForward` of a non-empty bitboard: its lowest square. */
  function Lowest(s: set<Square>): (sq: Square)
    requires s != {}
    ensures sq in s && forall x :: x in s ==> sq <= x
  {
    var r := Ascending(s);
    assert exists x :: x in s;
    assert forall x :: x in s ==> exists i :: 0 <= i < |r| && r[i] == x;
    r[0]
  }

  // ---------------------------------------------------------------------
  // Targets of each generator

  /** What the generators read of the position, for the side `c` to
      generate for. */
  function Own(b: Board, c: Byte): set<Square> requires c == WHITE || c == BLACK { b.colors[c] }
  function Opp(b: Board, c: Byte): set<Square> requires c == WHITE || c == BLACK { b.colors[Opposite(c)] }
  function Kings(b: Board): set<Square> { b.pieces[WHITE_KING] + b.pieces[BLACK_KING] }

  function KingOf(c: Byte): Piece { if c == WHITE then WHITE_KING else BLACK_KING }

  /** Both kings are on the board, as `bitscanForward` on their boards
      requires. */
  predicate HasKings(b: Board)
  {
    b.pieces[WHITE_KING] != {} && b.pieces[BLACK_KING] != {}
  }

  /** The evasion squares of `generateMoves`: with exactly one checker, its
      square and, for a sliding checker, the squares between it and the
      king; with none or several, no square at all. */
  function EvasionSquares(c: Byte, g: Geometry, b: Board): (r: set<Square>)
    requires (c == WHITE || c == BLACK) && HasKings(b)
    ensures |g.attackers(Opposite(c), Lowest(b.pieces[KingOf(c)]))| != 1 ==> r == {}
    ensures |g.attackers(Opposite(c), Lowest(b.pieces[KingOf(c)]))| == 1 ==>
      g.attackers(Opposite(c), Lowest(b.pieces[KingOf(c)])) <= r
  {
    var king := Lowest(b.pieces[KingOf(c)]);
    var checkers := g.attackers(Opposite(c), king);
    if |checkers| == 1 then
      var a := Lowest(checkers);
      OnlyMember(checkers, a);
      {a} + (if IsSliding(b.mapping[a]) then g.between(a, king) else {})
    else {}
  }

  /** With a single checker `a`, the evasion squares are exactly its
      square and, when it slides, the squares between it and the king. */
  lemma SingleCheckerEvasions(c: Byte, g: Geometry, b: Board, a: Square)
    requires (c == WHITE || c == BLACK) && HasKings(b)
    requires var checkers := g.attackers(Opposite(c), Lowest(b.pieces[KingOf(c)]));
      |checkers| == 1 && a in checkers
    ensures EvasionSquares(c, g, b) ==
      {a} + (if IsSliding(b.mapping[a]) then g.between(a, Lowest(b.pieces[KingOf(c)])) else {})
  {
    var king := Lowest(b.pieces[KingOf(c)]);
    var checkers := g.attackers(Opposite(c), king);
    OnlyMember(checkers, a);
    SingletonLowest(checkers, a);
    SingleCheckerUnfolds(c, g, b);
  }

  lemma SingleCheckerUnfolds(c: Byte, g: Geometry, b: Board)
    requires (c == WHITE || c == BLACK) && HasKings(b)
    requires |g.attackers(Opposite(c), Lowest(b.pieces[KingOf(c)]))| == 1
    ensures var king := Lowest(b.pieces[KingOf(c)]);
      var a := Lowest(g.attackers(Opposite(c), king));
      EvasionSquares(c, g, b) == {a} + (if IsSliding(b.mapping[a]) then g.between(a, king) else {})
  {
  }

  /** The lowest square of a singleton is its member. */
  lemma SingletonLowest(s: set<Square>, a: Square)
    requires s == {a}
    ensures Lowest(s) == a
  {
  }

  /** A one-element set is its member's singleton. */
  lemma OnlyMember(s: set<Square>, a: Square)
    requires |s| == 1 && a in s
    ensures s == {a}
  {
    assert |s - {a}| == 0;
  }

  /** The common filters: never the mover's own men or either king, only
      opponent men in quiescence (and, for pawns, promotion squares), and
      only evasion squares when evading. */
  function Filter(c: Byte, t: GenType, b: Board, gen: set<Square>, extra: set<Square>, evasion: set<Square>): (r: set<Square>)
    requires c == WHITE || c == BLACK
    ensures r <= gen && r * (Own(b, c) + Kings(b)) == {}
    ensures t == QSearch ==> r <= Opp(b, c) + extra
    ensures t == Evasions ==> r <= evasion
  {
    var kept := gen - (Own(b, c) + Kings(b));
    var q := if t == QSearch then kept * (Opp(b, c) + extra) else kept;
    if t == Evasions then q * evasion else q
  }

  /** The squares a knight, bishop, rook or queen on `from` may move to. */
  function PieceTargets(c: Byte, t: GenType, g: Geometry, b: Board, p: Piece, from: Square, evasion: set<Square>): set<Square>
    requires c == WHITE || c == BLACK
  {
    Filter(c, t, b, g.attacks(p, from), {}, evasion)
  }

  /** The squares a pawn on `from` may move to: its pushes, and its
      captures of opponent men or onto the en-passant square. */
  function PawnTargets(c: Byte, t: GenType, g: Geometry, b: Board, from: Square, evasion: set<Square>): set<Square>
    requires c == WHITE || c == BLACK
  {
    var attackable := Opp(b, c) + (if 0 <= b.enPassant < 64 then {b.enPassant as Square} else {});
    Filter(c, t, b, g.pushes(c, from) + g.pawnAttacks(c, from) * attackable, PROMOTION_SQUARES, evasion)
  }

  /** The squares the king may step to: never a man of its own colour nor
      a square next to the opponent king, and only captures in
      quiescence. */
  function KingTargets(c: Byte, t: GenType, g: Geometry, b: Board): (r: set<Square>)
    requires (c == WHITE || c == BLACK) && HasKings(b)
    ensures r <= g.kingAttacks(Lowest(b.pieces[KingOf(c)]))
    ensures r * g.kingAttacks(Lowest(b.pieces[KingOf(Opposite(c))])) == {} && r * Own(b, c) == {}
    ensures t == QSearch ==> r <= Opp(b, c)
  {
    var from := Lowest(b.pieces[KingOf(c)]);
    var opponentKing := Lowest(b.pieces[KingOf(Opposite(c))]);
    var kept := g.kingAttacks(from) - (Own(b, c) + g.kingAttacks(opponentKing));
    if t == QSearch then kept * Opp(b, c) else kept
  }

  // ---------------------------------------------------------------------
  // Moves of each generator

  /** The capture score of a move: nothing captured gives
      `NO_CAPTURE_SCORE`; otherwise the exchange evaluation in quiescence
      and the MVV-LVA value elsewhere. */
  function CaptureScore(t: GenType, g: Geometry, b: Board, p: Piece, from: Square, to: Square): int
  {
    var captured := b.mapping[to];
    if captured == NO_PIECE then NO_CAPTURE_SCORE
    else if t == QSearch then g.see(from, to)
    else g.mvvlva(p, captured as Piece)
  }

  /** The move `addMoveToList(moveList, from, to, p, captureScore)` writes. */
  function Plain(t: GenType, g: Geometry, b: Board, p: Piece, from: Square, to: Square): Move
  {
    Move(from, to, p, CaptureScore(t, g, b, p, from, to), NO_PIECE, 0)
  }

  /** A pawn landing on the last rank. */
  predicate LastRank(c: Byte, to: Square)
  {
    if c == WHITE then to >= A8 else to <= H1
  }

  function PawnOf(c: Byte): Piece { if c == WHITE then WHITE_PAWN else BLACK_PAWN }

  /** The moves of a pawn from `from` to `to`: four promotions (queen,
      rook, bishop, knight) on the last rank in normal generation, only the
      queen promotion in the other types, and one plain move elsewhere. */
  function PawnMovesTo(c: Byte, t: GenType, g: Geometry, b: Board, from: Square, to: Square): (r: seq<Move>)
    ensures forall m :: m in r ==> m.from == from && m.to == to && m.piece == PawnOf(c)
  {
    var pawn := PawnOf(c);
    var cs := CaptureScore(t, g, b, pawn, from, to);
    if LastRank(c, to) then
      [Move(from, to, pawn, cs, pawn + 8, 0)] +
      (if t == Normal then [Move(from, to, pawn, cs, pawn + 6, 0), Move(from, to, pawn, cs, pawn + 4, 0),
                            Move(from, to, pawn, cs, pawn + 2, 0)]
       else [])
    else [Move(from, to, pawn, cs, NO_PIECE, 0)]
  }

  /** The side whose codes are those of colour `c`. */
  function SideOf(c: Byte): Side
  {
    if c == WHITE then WhiteSide else BlackSide
  }

  /** The promotions of a pawn reaching the last rank are exactly the
      queen, rook, bishop and knight of its colour in normal generation,
      and only the queen otherwise; a pawn elsewhere never promotes. */
  lemma PromotionChoices(c: Byte, t: GenType, g: Geometry, b: Board, from: Square, to: Square)
    requires c == WHITE || c == BLACK
    ensures var ms := PawnMovesTo(c, t, g, b, from, to);
      var promos := set m | m in ms :: m.promotionPiece;
      (LastRank(c, to) && t == Normal ==> promos == {PieceOf(SideOf(c), Queen), PieceOf(SideOf(c), Rook),
                                                     PieceOf(SideOf(c), Bishop), PieceOf(SideOf(c), Knight)} && |ms| == 4) &&
      (LastRank(c, to) && t != Normal ==> promos == {PieceOf(SideOf(c), Queen)} && |ms| == 1) &&
      (!LastRank(c, to) ==> promos == {NO_PIECE} && |ms| == 1)
  {
    var ms := PawnMovesTo(c, t, g, b, from, to);
    if LastRank(c, to) && t == Normal {
      assert ms[0] in ms && ms[1] in ms && ms[2] in ms && ms[3] in ms;
    } else {
      assert ms[0] in ms;
    }
  }

  /** What every generated move of a man other than the king obeys: it
      lands on the board, never on a man of the mover's colour nor on
      either king; in quiescence only on an opponent man (a pawn also on a
      promotion square); when evading only on an evasion square. */
  predicate TargetOk(c: Byte, t: GenType, b: Board, evasion: set<Square>, m: Move)
    requires c == WHITE || c == BLACK
  {
    0 <= m.to < 64 && m.to !in Own(b, c) && m.to !in Kings(b) &&
    (t == QSearch && !IsPawn(m.piece) ==> m.to in Opp(b, c)) &&
    (t == QSearch && IsPawn(m.piece) ==> m.to in Opp(b, c) + PROMOTION_SQUARES) &&
    (t == Evasions ==> m.to in evasion)
  }

  /** The pawn moves from one square to each of the targets `tos`. */
  function PawnMovesFrom(c: Byte, t: GenType, g: Geometry, b: Board, from: Square, tos: seq<Square>): (r: seq<Move>)
    ensures forall m :: m in r ==> m.from == from && m.to in tos && m.piece == PawnOf(c)
  {
    if |tos| == 0 then [] else PawnMovesTo(c, t, g, b, from, tos[0]) + PawnMovesFrom(c, t, g, b, from, tos[1..])
  }

  /** The pawn moves of the pawns on `froms`, each to its targets in
      increasing order. */
  function PawnMovesOf(c: Byte, t: GenType, g: Geometry, b: Board, froms: seq<Square>, evasion: set<Square>): (r: seq<Move>)
    requires c == WHITE || c == BLACK
    ensures forall m :: m in r ==> m.from in froms && m.piece == PawnOf(c) && TargetOk(c, t, b, evasion, m)
  {
    if |froms| == 0 then []
    else
      var ts := PawnTargets(c, t, g, b, froms[0], evasion);
      PawnMovesFrom(c, t, g, b, froms[0], Ascending(ts)) + PawnMovesOf(c, t, g, b, froms[1..], evasion)
  }

  /** `generatePawnMoves`. */
  function PawnMoves(c: Byte, t: GenType, g: Geometry, b: Board, evasion: set<Square>): (r: seq<Move>)
    requires c == WHITE || c == BLACK
    ensures forall m :: m in r ==> m.from in b.pieces[PawnOf(c)] && m.piece == PawnOf(c) && TargetOk(c, t, b, evasion, m)
  {
    PawnMovesOf(c, t, g, b, Ascending(b.pieces[PawnOf(c)]), evasion)
  }

  /** One plain move of piece `p` from `from` to each of `tos`. */
  function StepMoves(t: GenType, g: Geometry, b: Board, p: Piece, from: Square, tos: seq<Square>): (r: seq<Move>)
    ensures forall m :: m in r ==> m.from == from && m.to in tos && m.piece == p
    ensures forall to :: to in tos ==> Plain(t, g, b, p, from, to) in r
  {
    if |tos| == 0 then [] else [Plain(t, g, b, p, from, tos[0])] + StepMoves(t, g, b, p, from, tos[1..])
  }

  /** The moves of the men of piece `p` on `froms`. */
  function PieceMovesOf(c: Byte, t: GenType, g: Geometry, b: Board, p: Piece, froms: seq<Square>, evasion: set<Square>): (r: seq<Move>)
    requires c == WHITE || c == BLACK
    ensures forall m :: m in r ==> m.from in froms && m.piece == p && TargetOk(c, t, b, evasion, m)
  {
    if |froms| == 0 then []
    else
      var ts := PieceTargets(c, t, g, b, p, froms[0], evasion);
      StepMoves(t, g, b, p, froms[0], Ascending(ts)) + PieceMovesOf(c, t, g, b, p, froms[1..], evasion)
  }

  /** `generateKnightMoves`, `generateBishopMoves`, `generateRookMoves` and
      `generateQueenMoves`: one plain move to each target of each man of
      piece `p`. */
  function PieceMoves(c: Byte, t: GenType, g: Geometry, b: Board, p: Piece, evasion: set<Square>): (r: seq<Move>)
    requires c == WHITE || c == BLACK
    ensures forall m :: m in r ==> m.from in b.pieces[p] && m.piece == p && TargetOk(c, t, b, evasion, m)
  {
    PieceMovesOf(c, t, g, b, p, Ascending(b.pieces[p]), evasion)
  }

  // ---------------------------------------------------------------------
  // Castling (src/movegen.cpp:475-561)

  /** The squares between king and rook, which must be empty. */
  function BetweenOf(right: CastleRight): set<Square>
  {
    match right
    case WhiteKingside => {F1, G1}
    case WhiteQueenside => {B1, C1, D1}
    case BlackKingside => {F8, G8}
    case BlackQueenside => {B8, C8, D8}
  }

  /** The squares the king passes or lands on: the between squares without
      B1 and B8, which only the rook crosses. */
  function TransitOf(right: CastleRight): set<Square>
  {
    BetweenOf(right) - {B1, B8}
  }

  function CornerOf(right: CastleRight): Square
  {
    match right
    case WhiteKingside => H1
    case WhiteQueenside => A1
    case BlackKingside => H8
    case BlackQueenside => A8
  }

  function KingTargetOf(right: CastleRight): Square
  {
    match right
    case WhiteKingside => G1
    case WhiteQueenside => C1
    case BlackKingside => G8
    case BlackQueenside => C8
  }

  predicate IsWhiteRight(right: CastleRight)
  {
    right == WhiteKingside || right == WhiteQueenside
  }

  /** The conditions for adding a castling move: the right is held, the
      between squares are empty, the own rook stands in the corner and the
      opponent attacks none of the transit squares. */
  predicate CanCastle(g: Geometry, b: Board, right: CastleRight)
  {
    var c := if IsWhiteRight(right) then WHITE else BLACK;
    right in b.castling && b.occupied * BetweenOf(right) == {} &&
    b.mapping[CornerOf(right)] == (if c == WHITE then WHITE_ROOK else BLACK_ROOK) &&
    forall sq :: sq in TransitOf(right) ==> !g.attacked(Opposite(c), sq)
  }

  /** The `tilesToCheck` loop: pops squares until one is attacked. */
  method TransitSafe(g: Geometry, c: Byte, tiles: set<Square>) returns (safe: bool)
    ensures safe <==> forall sq :: sq in tiles ==> !g.attacked(c, sq)
  {
    var rest := tiles;
    safe := true;
    while rest != {}
      invariant rest <= tiles
      invariant forall sq :: sq in tiles - rest ==> !g.attacked(c, sq)
      decreases |rest|
    {
      var sq := Lowest(rest);
      if g.attacked(c, sq) {
        safe := false;
        break;
      }
      rest := rest - {sq};
    }
  }

  /** The castling moves of colour `c` for a king on `from`: kingside
      first, then queenside, each with capture score -1. Each is made only
      when its conditions hold. */
  function CastlingMoves(c: Byte, g: Geometry, b: Board, from: Square): (r: seq<Move>)
    ensures forall m :: m in r ==>
      m.from == from && m.piece == KingOf(c) && m.captureScore == -1 &&
      exists right :: IsWhiteRight(right) == (c == WHITE) && CanCastle(g, b, right) && m.to == KingTargetOf(right)
  {
    var kingside := if c == WHITE then WhiteKingside else BlackKingside;
    var queenside := if c == WHITE then WhiteQueenside else BlackQueenside;
    (if CanCastle(g, b, kingside) then [Move(from, KingTargetOf(kingside), KingOf(c), -1, NO_PIECE, 0)] else []) +
    (if CanCastle(g, b, queenside) then [Move(from, KingTargetOf(queenside), KingOf(c), -1, NO_PIECE, 0)] else [])
  }

  /** `generateKingMoves`: the king's steps, then the castling moves in
      normal generation only. A step never lands next to the opponent
      king nor on an own man, and in quiescence only on an opponent man. */
  function KingMoves(c: Byte, t: GenType, g: Geometry, b: Board): (r: seq<Move>)
    requires (c == WHITE || c == BLACK) && HasKings(b)
    ensures forall m :: m in r ==> m.piece == KingOf(c) && m.from == Lowest(b.pieces[KingOf(c)])
    ensures forall m :: m in r ==>
      m.to in KingTargets(c, t, g, b) ||
      (t == Normal && m.captureScore == -1 &&
       exists right :: IsWhiteRight(right) == (c == WHITE) && CanCastle(g, b, right) && m.to == KingTargetOf(right))
  {
    var from := Lowest(b.pieces[KingOf(c)]);
    StepMoves(t, g, b, KingOf(c), from, Ascending(KingTargets(c, t, g, b))) +
    (if t == Normal then CastlingMoves(c, g, b, from) else [])
  }

  /** The moves of the men other than the king, in the generator's order:
      pawns, knights, bishops, rooks, queens. */
  function MenMoves(c: Byte, t: GenType, g: Geometry, b: Board, evasion: set<Square>): (r: seq<Move>)
    requires c == WHITE || c == BLACK
    ensures forall m :: m in r ==> TargetOk(c, t, b, evasion, m)
  {
    var off := if c == WHITE then 0 else 1;
    var pawns := PawnMoves(c, t, g, b, evasion);
    var knights := PieceMoves(c, t, g, b, WHITE_KNIGHT + off, evasion);
    var bishops := PieceMoves(c, t, g, b, WHITE_BISHOP + off, evasion);
    var rooks := PieceMoves(c, t, g, b, WHITE_ROOK + off, evasion);
    var queens := PieceMoves(c, t, g, b, WHITE_QUEEN + off, evasion);
    pawns + knights + bishops + rooks + queens
  }

  /** `generateMoves` before scoring: the men's moves, then the king's.
      Every move not of the king obeys the target filters. */
  function Generate(c: Byte, t: GenType, g: Geometry, b: Board): (r: seq<Move>)
    requires (c == WHITE || c == BLACK) && HasKings(b)
    ensures forall m :: m in r && m.piece != KingOf(c) ==>
      TargetOk(c, t, b, if t == Evasions then EvasionSquares(c, g, b) else {}, m)
  {
    var evasion := if t == Evasions then EvasionSquares(c, g, b) else {};
    MenMoves(c, t, g, b, evasion) + KingMoves(c, t, g, b)
  }

  /** The end of `generateMoves`: writes `ms` after the moves already in
      the list, then gives every move in the list its ladder score.
      `pvCode` and `bestCode` are the codes of the principal-variation move
      and of the transposition-table move, which the caller looks up. */
  function ScoredFill(l: MoveList, ms: seq<Move>, ply: int, pvCode: int, previous: Move, bestCode: int,
                      o: Ordering, encode: Move -> int): (r: MoveList)
    requires Valid(l) && l.size + |ms| <= MAX_MOVES
    ensures Valid(r) && r.size == l.size + |ms|
    ensures forall i :: 0 <= i < r.size ==> Contents(r)[i].(score := 0) == (Contents(l) + ms)[i].(score := 0)
    ensures forall i :: 0 <= i < r.size ==>
      Contents(r)[i].score == ScoreMove(ply, pvCode, (Contents(l) + ms)[i], previous, encode((Contents(l) + ms)[i]), bestCode, o)
  {
    var filled := AddAll(l, ms);
    var scored := ScoreAll(Contents(filled), ply, pvCode, previous, bestCode, o, encode);
    var r := MoveList(scored + filled.moves[filled.size..], filled.size);
    assert Contents(r) == scored;
    r
  }

  /** `generateMoves`: the generated moves, written and scored. */
  function GenerateMoves(c: Byte, t: GenType, g: Geometry, b: Board, l: MoveList,
                         ply: int, pvCode: int, previous: Move, bestCode: int, o: Ordering,
                         encode: Move -> int): (r: MoveList)
    requires (c == WHITE || c == BLACK) && HasKings(b)
    requires Valid(l) && l.size + |Generate(c, t, g, b)| <= MAX_MOVES
  {
    ScoredFill(l, Generate(c, t, g, b), ply, pvCode, previous, bestCode, o, encode)
  }

  // ---------------------------------------------------------------------
  // Properties of the generated moves

  /** With no evasion square, every evasion is a king move. */
  lemma EvasionsOnlyKing(c: Byte, g: Geometry, b: Board)
    requires (c == WHITE || c == BLACK) && HasKings(b)
    requires EvasionSquares(c, g, b) == {}
    ensures forall m :: m in Generate(c, Evasions, g, b) ==> m.piece == KingOf(c)
  {
  }

  /** With two or more checkers, evading leaves only king moves. */
  lemma DoubleCheckOnlyKing(c: Byte, g: Geometry, b: Board)
    requires (c == WHITE || c == BLACK) && HasKings(b)
    requires |g.attackers(Opposite(c), Lowest(b.pieces[KingOf(c)]))| >= 2
    ensures forall m :: m in Generate(c, Evasions, g, b) ==> m.piece == KingOf(c)
  {
    EvasionsOnlyKing(c, g, b);
  }

  /** A generated castling move of a king standing on its home square is
      one `makeMove` handles as castling, and it finds its rook in the
      corner and the rook's landing square empty. */
  lemma CastlingMoveReady(g: Geometry, b: Board, right: CastleRight)
    requires forall sq: Square :: sq in b.occupied <==> b.mapping[sq] != NO_PIECE
    requires CanCastle(g, b, right)
    ensures var m := Move(if IsWhiteRight(right) then E1 else E8, KingTargetOf(right),
                          if IsWhiteRight(right) then WHITE_KING else BLACK_KING, -1, NO_PIECE, 0);
      Moves.IsCastling(m) && Moves.RookReady(b, m.to)
  {
    var landing: Square := match right
      case WhiteKingside => F1 case WhiteQueenside => D1 case BlackKingside => F8 case BlackQueenside => D8;
    assert landing in BetweenOf(right);
    assert landing !in b.occupied * BetweenOf(right);
    assert b.mapping[landing] == NO_PIECE;
    assert Moves.RookLanding(KingTargetOf(right)) == landing;
  }
}
