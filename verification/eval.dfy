/** The material-only evaluator of src/eval.cpp: the game phase computed
    from the officers left on the board, the material scores of both
    colours, and the tapered blend of the midgame and the endgame score
    from the point of view of the side to move. */
module Eval {
  import opened Types
  import opened Machine

  /** How many men of each piece code stand on the board (`getPieceCount`),
      indexed by piece code. */
  type Counts = c: seq<nat> | |c| == 12 witness [0, 0, 0, 0, 0, 0, 0, 0, 0, 0, 0, 0]

  /** The counts of the starting position. */
  const START_COUNTS: Counts := [8, 8, 2, 2, 2, 2, 2, 2, 1, 1, 1, 1]

  /** The four score accumulators of an `Evaluation` object. */
  datatype Scores = Scores(whiteMidgame: int, whiteEndgame: int, blackMidgame: int, blackEndgame: int)

  const ZERO: Scores := Scores(0, 0, 0, 0)

  /** The midgame accumulator of colour `side`: white's for WHITE and
      black's for any other colour value, as every `color == WHITE`
      branch of the evaluator chooses. */
  function Midgame(s: Scores, side: Byte): int
  {
    if side == WHITE then s.whiteMidgame else s.blackMidgame
  }

  function Endgame(s: Scores, side: Byte): int
  {
    if side == WHITE then s.whiteEndgame else s.blackEndgame
  }

  /** The scores with the two colours exchanged. */
  function Swapped(s: Scores): (r: Scores)
    ensures forall side: Byte | side == WHITE || side == BLACK ::
      Midgame(r, side) == Midgame(s, Opposite(side)) && Endgame(r, side) == Endgame(s, Opposite(side))
  {
    Scores(s.blackMidgame, s.blackEndgame, s.whiteMidgame, s.whiteEndgame)
  }

  /** The counts with every piece replaced by its twin of the other colour. */
  function SwapColours(c: Counts): (d: Counts)
    ensures forall p: Piece :: d[p] == c[Twin(p)]
  {
    seq(12, p requires 0 <= p < 12 => c[Twin(p)])
  }

  // ---------------------------------------------------------------------
  // Game phase

  const KNIGHT_PHASE: int := 1
  const BISHOP_PHASE: int := 1
  const ROOK_PHASE: int := 2
  const QUEEN_PHASE: int := 4
  /** 4 knights, 4 bishops, 4 rooks and 2 queens: 24 phase units. */
  const TOTAL_PHASE: int := KNIGHT_PHASE * 4 + BISHOP_PHASE * 4 + ROOK_PHASE * 4 + QUEEN_PHASE * 2

  /** The phase units not yet traded off: 24 less the weight of the knights,
      bishops, rooks and queens of both colours. Negative once promotions
      leave more officers than the starting set. */
  function PhaseUnits(c: Counts): int
  {
    TOTAL_PHASE
    - (c[WHITE_KNIGHT] + c[BLACK_KNIGHT]) * KNIGHT_PHASE
    - (c[WHITE_BISHOP] + c[BLACK_BISHOP]) * BISHOP_PHASE
    - (c[WHITE_ROOK] + c[BLACK_ROOK]) * ROOK_PHASE
    - (c[WHITE_QUEEN] + c[BLACK_QUEEN]) * QUEEN_PHASE
  }

  /** The units scaled to 0..256 with rounding, by the C++ truncating
      division of `(phase * 256 + 12) / 24`. */
  function PhaseOf(units: int): (ph: int)
    ensures units <= TOTAL_PHASE ==> ph <= 256
    ensures units <= TOTAL_PHASE ==> (ph == 256 <==> units == TOTAL_PHASE)
    ensures ph >= 0 <==> units >= 0
    ensures ph == 0 <==> units == 0
  {
    TruncDiv(units * 256 + TOTAL_PHASE / 2, TOTAL_PHASE)
  }

  /** Fewer phase units never give a larger phase. */
  lemma PhaseOfMonotone(u: int, v: int)
    requires u <= v
    ensures PhaseOf(u) <= PhaseOf(v)
  {
    var a, b := u * 256 + 12, v * 256 + 12;
    if a < 0 && b >= 0 {
    } else if a >= 0 {
      DivMonotone(a, b, 24);
    } else {
      DivMonotone(-b, -a, 24);
    }
  }

  /** Division by the two divisors the evaluator uses is monotone. */
  lemma DivMonotone(a: int, b: int, d: int)
    requires 0 <= a <= b && (d == 24 || d == 256)
    ensures a / d <= b / d
  {
    if d == 24 {
      assert a / 24 <= b / 24;
    } else {
      assert a / 256 <= b / 256;
    }
  }

  /** No knight, bishop, rook or queen of either colour on the board. */
  predicate NoOfficers(c: Counts)
  {
    forall p: Piece | WHITE_KNIGHT <= p <= BLACK_QUEEN :: c[p] == 0
  }

  /** `calculatePhase`: 0 in the opening, 256 in a pawn ending. */
  function Phase(c: Counts): (ph: int)
    ensures ph <= 256
    ensures ph == 256 <==> NoOfficers(c)
    ensures ph >= 0 <==> PhaseUnits(c) >= 0
    ensures ph == 0 <==> PhaseUnits(c) == 0
  {
    PhaseOf(PhaseUnits(c))
  }

  /** The starting position is pure midgame. */
  lemma PhaseStart()
    ensures Phase(START_COUNTS) == 0
  {
  }

  /** Taking any knights, bishops, rooks or queens off the board never
      lowers the phase. */
  lemma PhaseMonotone(c: Counts, d: Counts)
    requires forall p: Piece :: d[p] <= c[p]
    ensures Phase(c) <= Phase(d)
  {
    assert PhaseUnits(c) <= PhaseUnits(d) by {
      assert d[WHITE_KNIGHT] <= c[WHITE_KNIGHT] && d[BLACK_KNIGHT] <= c[BLACK_KNIGHT];
      assert d[WHITE_BISHOP] <= c[WHITE_BISHOP] && d[BLACK_BISHOP] <= c[BLACK_BISHOP];
      assert d[WHITE_ROOK] <= c[WHITE_ROOK] && d[BLACK_ROOK] <= c[BLACK_ROOK];
      assert d[WHITE_QUEEN] <= c[WHITE_QUEEN] && d[BLACK_QUEEN] <= c[BLACK_QUEEN];
    }
    PhaseOfMonotone(PhaseUnits(c), PhaseUnits(d));
  }

  /** The phase does not depend on which colour owns which pieces. */
  lemma PhaseColourBlind(c: Counts)
    ensures Phase(SwapColours(c)) == Phase(c)
  {
    var d := SwapColours(c);
    assert d[WHITE_KNIGHT] == c[BLACK_KNIGHT] && d[BLACK_KNIGHT] == c[WHITE_KNIGHT];
    assert d[WHITE_BISHOP] == c[BLACK_BISHOP] && d[BLACK_BISHOP] == c[WHITE_BISHOP];
    assert d[WHITE_ROOK] == c[BLACK_ROOK] && d[BLACK_ROOK] == c[WHITE_ROOK];
    assert d[WHITE_QUEEN] == c[BLACK_QUEEN] && d[BLACK_QUEEN] == c[WHITE_QUEEN];
  }

  // ---------------------------------------------------------------------
  // Material

  const MATERIAL_MIDGAME_PAWN_VALUE: int := 100
  const MATERIAL_MIDGAME_KNIGHT_VALUE: int := 350
  const MATERIAL_MIDGAME_BISHOP_VALUE: int := 350
  const MATERIAL_MIDGAME_ROOK_VALUE: int := 525
  const MATERIAL_MIDGAME_QUEEN_VALUE: int := 1000
  const MATERIAL_ENDGAME_PAWN_VALUE: int := 100
  const MATERIAL_ENDGAME_KNIGHT_VALUE: int := 350
  const MATERIAL_ENDGAME_BISHOP_VALUE: int := 350
  const MATERIAL_ENDGAME_ROOK_VALUE: int := 525
  const MATERIAL_ENDGAME_QUEEN_VALUE: int := 1000

  /** The material value of a man of kind `k`; kings carry none. */
  function MaterialValue(k: Kind, endgame: bool): int
  {
    match k
    case Pawn => if endgame then MATERIAL_ENDGAME_PAWN_VALUE else MATERIAL_MIDGAME_PAWN_VALUE
    case Knight => if endgame then MATERIAL_ENDGAME_KNIGHT_VALUE else MATERIAL_MIDGAME_KNIGHT_VALUE
    case Bishop => if endgame then MATERIAL_ENDGAME_BISHOP_VALUE else MATERIAL_MIDGAME_BISHOP_VALUE
    case Rook => if endgame then MATERIAL_ENDGAME_ROOK_VALUE else MATERIAL_MIDGAME_ROOK_VALUE
    case Queen => if endgame then MATERIAL_ENDGAME_QUEEN_VALUE else MATERIAL_MIDGAME_QUEEN_VALUE
    case King => 0
  }

  /** One arm of the `switch` in `evaluateMaterial`: `count` men of piece
      `p` are credited to the accumulators of the piece's own colour. */
  function AddPieceMaterial(s: Scores, p: Piece, count: int): (r: Scores)
    ensures KindOf(p) == King ==> r == s
    ensures Midgame(r, ColorOf(p)) == Midgame(s, ColorOf(p)) + count * MaterialValue(KindOf(p), false)
    ensures Endgame(r, ColorOf(p)) == Endgame(s, ColorOf(p)) + count * MaterialValue(KindOf(p), true)
    ensures Midgame(r, Opposite(ColorOf(p))) == Midgame(s, Opposite(ColorOf(p)))
    ensures Endgame(r, Opposite(ColorOf(p))) == Endgame(s, Opposite(ColorOf(p)))
  {
    match p
    case 0 => s.(whiteMidgame := s.whiteMidgame + count * MATERIAL_MIDGAME_PAWN_VALUE,
                 whiteEndgame := s.whiteEndgame + count * MATERIAL_ENDGAME_PAWN_VALUE)
    case 1 => s.(blackMidgame := s.blackMidgame + count * MATERIAL_MIDGAME_PAWN_VALUE,
                 blackEndgame := s.blackEndgame + count * MATERIAL_ENDGAME_PAWN_VALUE)
    case 2 => s.(whiteMidgame := s.whiteMidgame + count * MATERIAL_MIDGAME_KNIGHT_VALUE,
                 whiteEndgame := s.whiteEndgame + count * MATERIAL_ENDGAME_KNIGHT_VALUE)
    case 3 => s.(blackMidgame := s.blackMidgame + count * MATERIAL_MIDGAME_KNIGHT_VALUE,
                 blackEndgame := s.blackEndgame + count * MATERIAL_ENDGAME_KNIGHT_VALUE)
    case 4 => s.(whiteMidgame := s.whiteMidgame + count * MATERIAL_MIDGAME_BISHOP_VALUE,
                 whiteEndgame := s.whiteEndgame + count * MATERIAL_ENDGAME_BISHOP_VALUE)
    case 5 => s.(blackMidgame := s.blackMidgame + count * MATERIAL_MIDGAME_BISHOP_VALUE,
                 blackEndgame := s.blackEndgame + count * MATERIAL_ENDGAME_BISHOP_VALUE)
    case 6 => s.(whiteMidgame := s.whiteMidgame + count * MATERIAL_MIDGAME_ROOK_VALUE,
                 whiteEndgame := s.whiteEndgame + count * MATERIAL_ENDGAME_ROOK_VALUE)
    case 7 => s.(blackMidgame := s.blackMidgame + count * MATERIAL_MIDGAME_ROOK_VALUE,
                 blackEndgame := s.blackEndgame + count * MATERIAL_ENDGAME_ROOK_VALUE)
    case 8 => s.(whiteMidgame := s.whiteMidgame + count * MATERIAL_MIDGAME_QUEEN_VALUE,
                 whiteEndgame := s.whiteEndgame + count * MATERIAL_ENDGAME_QUEEN_VALUE)
    case 9 => s.(blackMidgame := s.blackMidgame + count * MATERIAL_MIDGAME_QUEEN_VALUE,
                 blackEndgame := s.blackEndgame + count * MATERIAL_ENDGAME_QUEEN_VALUE)
    case _ => s
  }

  /** The material of colour `side` in one stage: every non-king man
      counted at its kind's value. */
  function SideMaterial(c: Counts, side: Side, endgame: bool): int
  {
    c[PieceOf(side, Pawn)] * MaterialValue(Pawn, endgame)
    + c[PieceOf(side, Knight)] * MaterialValue(Knight, endgame)
    + c[PieceOf(side, Bishop)] * MaterialValue(Bishop, endgame)
    + c[PieceOf(side, Rook)] * MaterialValue(Rook, endgame)
    + c[PieceOf(side, Queen)] * MaterialValue(Queen, endgame)
  }

  /** The reference result of `evaluateMaterial`: each colour's material
      added to its own two accumulators. */
  function Material(s: Scores, c: Counts): Scores
  {
    Scores(s.whiteMidgame + SideMaterial(c, WhiteSide, false),
           s.whiteEndgame + SideMaterial(c, WhiteSide, true),
           s.blackMidgame + SideMaterial(c, BlackSide, false),
           s.blackEndgame + SideMaterial(c, BlackSide, true))
  }

  /** The material of the pieces with codes below `i`, in the order the
      loop of `evaluateMaterial` visits them. */
  function MaterialBelow(s: Scores, c: Counts, i: nat): Scores
    requires i <= 12
  {
    if i == 0 then s else AddPieceMaterial(MaterialBelow(s, c, i - 1), i - 1, c[i - 1])
  }

  /** `evaluateMaterial`: the loop over all twelve piece codes. */
  method EvaluateMaterial(s: Scores, c: Counts) returns (r: Scores)
    ensures r == Material(s, c)
  {
    r := s;
    var i := 0;
    while i < 12
      invariant 0 <= i <= 12
      invariant r == MaterialBelow(s, c, i)
    {
      r := AddPieceMaterial(r, i, c[i]);
      i := i + 1;
    }
    MaterialOfAll(s, c);
  }

  /** Visiting every piece code adds up to the reference material. */
  lemma MaterialOfAll(s: Scores, c: Counts)
    ensures MaterialBelow(s, c, 12) == Material(s, c)
  {
    assert MaterialBelow(s, c, 1) == AddPieceMaterial(s, 0, c[0]);
    assert MaterialBelow(s, c, 2) == AddPieceMaterial(MaterialBelow(s, c, 1), 1, c[1]);
    assert MaterialBelow(s, c, 3) == AddPieceMaterial(MaterialBelow(s, c, 2), 2, c[2]);
    assert MaterialBelow(s, c, 4) == AddPieceMaterial(MaterialBelow(s, c, 3), 3, c[3]);
    assert MaterialBelow(s, c, 5) == AddPieceMaterial(MaterialBelow(s, c, 4), 4, c[4]);
    assert MaterialBelow(s, c, 6) == AddPieceMaterial(MaterialBelow(s, c, 5), 5, c[5]);
    assert MaterialBelow(s, c, 7) == AddPieceMaterial(MaterialBelow(s, c, 6), 6, c[6]);
    assert MaterialBelow(s, c, 8) == AddPieceMaterial(MaterialBelow(s, c, 7), 7, c[7]);
    assert MaterialBelow(s, c, 9) == AddPieceMaterial(MaterialBelow(s, c, 8), 8, c[8]);
    assert MaterialBelow(s, c, 10) == AddPieceMaterial(MaterialBelow(s, c, 9), 9, c[9]);
    assert MaterialBelow(s, c, 11) == AddPieceMaterial(MaterialBelow(s, c, 10), 10, c[10]);
    assert MaterialBelow(s, c, 12) == AddPieceMaterial(MaterialBelow(s, c, 11), 11, c[11]);
  }

  /** Exchanging the colours of all pieces exchanges the material scores. */
  lemma MaterialColourSwap(c: Counts)
    ensures Material(ZERO, SwapColours(c)) == Swapped(Material(ZERO, c))
  {
    var d := SwapColours(c);
    assert forall k: Kind :: d[PieceOf(WhiteSide, k)] == c[PieceOf(BlackSide, k)]
                          && d[PieceOf(BlackSide, k)] == c[PieceOf(WhiteSide, k)];
  }

  // ---------------------------------------------------------------------
  // Taper and the final score

  /** The blend `(mg * (256 - phase) + eg * phase) / 256` with C++
      truncation. */
  function Taper(mg: int, eg: int, phase: int): (v: int)
    ensures phase == 0 ==> v == mg
    ensures phase == 256 ==> v == eg
    ensures mg == eg ==> v == mg
  {
    TruncDiv(mg * (256 - phase) + eg * phase, 256)
  }

  /** Truncation toward zero makes the blend odd: negating both scores
      negates the result (a flooring division would not). */
  lemma TaperNegate(mg: int, eg: int, phase: int)
    ensures Taper(-mg, -eg, phase) == -Taper(mg, eg, phase)
  {
    assert (-mg) * (256 - phase) + (-eg) * phase == -(mg * (256 - phase) + eg * phase);
  }

  /** Within the phase range the blend is monotone in both scores. */
  lemma TaperMonotone(mg: int, eg: int, mg2: int, eg2: int, phase: int)
    requires 0 <= phase <= 256 && mg <= mg2 && eg <= eg2
    ensures Taper(mg, eg, phase) <= Taper(mg2, eg2, phase)
  {
    var a, b := mg * (256 - phase) + eg * phase, mg2 * (256 - phase) + eg2 * phase;
    assert a <= b by {
      MulNonNegative(mg2 - mg, 256 - phase);
      MulNonNegative(eg2 - eg, phase);
      assert b - a == (mg2 - mg) * (256 - phase) + (eg2 - eg) * phase;
    }
    if a < 0 && b >= 0 {
    } else if a >= 0 {
      DivMonotone(a, b, 256);
    } else {
      DivMonotone(-b, -a, 256);
    }
  }

  lemma MulNonNegative(x: int, y: int)
    requires x >= 0 && y >= 0
    ensures x * y >= 0
  {
  }

  /** The final step of `evaluate`: the white blend less the black blend,
      negated when black is to move. */
  function Evaluate(s: Scores, phase: int, side: Byte): (v: int)
    ensures s.whiteMidgame == s.blackMidgame && s.whiteEndgame == s.blackEndgame ==> v == 0
    ensures 0 <= phase <= 256 && s.whiteMidgame >= s.blackMidgame && s.whiteEndgame >= s.blackEndgame ==>
      (if side == WHITE then v >= 0 else v <= 0)
  {
    var modifier := if side == WHITE then 1 else -1;
    var whiteScore := Taper(s.whiteMidgame, s.whiteEndgame, phase);
    var blackScore := Taper(s.blackMidgame, s.blackEndgame, phase);
    TaperMonotoneWhenAhead(s, phase);
    (whiteScore - blackScore) * modifier
  }

  lemma TaperMonotoneWhenAhead(s: Scores, phase: int)
    ensures 0 <= phase <= 256 && s.whiteMidgame >= s.blackMidgame && s.whiteEndgame >= s.blackEndgame ==>
      Taper(s.whiteMidgame, s.whiteEndgame, phase) >= Taper(s.blackMidgame, s.blackEndgame, phase)
  {
    if 0 <= phase <= 256 && s.whiteMidgame >= s.blackMidgame && s.whiteEndgame >= s.blackEndgame {
      TaperMonotone(s.blackMidgame, s.blackEndgame, s.whiteMidgame, s.whiteEndgame, phase);
    }
  }

  /** The score is from the mover's point of view: black to move sees the
      negation of what white to move sees. */
  lemma EvaluateSideSign(s: Scores, phase: int)
    ensures Evaluate(s, phase, BLACK) == -Evaluate(s, phase, WHITE)
  {
  }

  /** Exchanging the colours of the scores together with the side to move
      leaves the score unchanged. */
  lemma EvaluateColourSwap(s: Scores, phase: int, side: Byte)
    requires side == WHITE || side == BLACK
    ensures Evaluate(Swapped(s), phase, Opposite(side)) == Evaluate(s, phase, side)
  {
  }

  /** `Evaluation::evaluate` of src/eval.cpp: material only, tapered by the
      phase, from the mover's side. */
  function EvaluatePosition(c: Counts, side: Byte): int
  {
    Evaluate(Material(ZERO, c), Phase(c), side)
  }

  /** A position and its colour-reversed twin, each with its own side to
      move, score the same. */
  lemma PositionColourSwap(c: Counts, side: Byte)
    requires side == WHITE || side == BLACK
    ensures EvaluatePosition(SwapColours(c), Opposite(side)) == EvaluatePosition(c, side)
  {
    PhaseColourBlind(c);
    MaterialColourSwap(c);
    EvaluateColourSwap(Material(ZERO, c), Phase(c), side);
  }

  /** Equal material for both colours scores zero, whoever is to move. */
  lemma EqualMaterialIsLevel(c: Counts, side: Byte)
    requires forall p: Piece :: c[p] == c[Twin(p)]
    ensures EvaluatePosition(c, side) == 0
  {
    assert forall k: Kind :: c[PieceOf(WhiteSide, k)] == c[PieceOf(BlackSide, k)] by {
      forall k: Kind ensures c[PieceOf(WhiteSide, k)] == c[PieceOf(BlackSide, k)] {
        assert Twin(PieceOf(WhiteSide, k)) == PieceOf(BlackSide, k);
      }
    }
  }
}
