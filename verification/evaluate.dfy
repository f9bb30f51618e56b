/** The arithmetic of the full evaluator of src/evaluate.cpp: the phase
    from the piece boards, and the score terms `evaluatePieces` adds for
    each man. The board geometry that decides each term (attack sets,
    passed and isolated pawns, open files) arrives as a `Context` of
    counts and flags; how those are computed from the bitboards is not
    part of this module. Weights are read from the feature vector of
    `Features`. */
module Evaluate {
  import opened Types
  import opened Machine
  import opened Eval
  import Features

  /** The 70 feature weights of `Features.Params.eval`:
      `getEvalValue(f) == w[f]`. */
  type Weights = w: seq<int> | |w| == Features.EVAL_FEATURES witness Features.EVAL_VALUES

  // ---------------------------------------------------------------------
  // Phase from the piece boards

  /** The men of each piece code, as sets of squares (`getPieceBoard`). */
  type Boards = b: seq<set<Square>> | |b| == 12 witness [{}, {}, {}, {}, {}, {}, {}, {}, {}, {}, {}, {}]

  /** `getPhase`: the 24-unit formula of `calculatePhase` where the count
      of a kind is the population of the union of the white and the black
      board of that kind. */
  function GetPhase(b: Boards): (ph: int)
    ensures ph <= 256
  {
    PhaseOf(TOTAL_PHASE
            - |b[WHITE_KNIGHT] + b[BLACK_KNIGHT]| * KNIGHT_PHASE
            - |b[WHITE_BISHOP] + b[BLACK_BISHOP]| * BISHOP_PHASE
            - |b[WHITE_ROOK] + b[BLACK_ROOK]| * ROOK_PHASE
            - |b[WHITE_QUEEN] + b[BLACK_QUEEN]| * QUEEN_PHASE)
  }

  /** The population of every board. */
  function CountsOf(b: Boards): (c: Counts)
    ensures forall p: Piece :: c[p] == |b[p]|
  {
    seq(12, p requires 0 <= p < 12 => |b[p]|)
  }

  /** No square holds a white and a black man of the same kind. */
  predicate ColoursApart(b: Boards)
  {
    forall p: Piece :: b[p] * b[Twin(p)] == {}
  }

  /** On a board where colours never share a square, `getPhase` and
      `calculatePhase` agree. */
  lemma GetPhaseAgrees(b: Boards)
    requires ColoursApart(b)
    ensures GetPhase(b) == Phase(CountsOf(b))
  {
    assert b[WHITE_KNIGHT] * b[Twin(WHITE_KNIGHT)] == {};
    assert b[WHITE_BISHOP] * b[Twin(WHITE_BISHOP)] == {};
    assert b[WHITE_ROOK] * b[Twin(WHITE_ROOK)] == {};
    assert b[WHITE_QUEEN] * b[Twin(WHITE_QUEEN)] == {};
  }

  // ---------------------------------------------------------------------
  // Feature weights: each feature is a midgame weight at an even index
  // followed by its endgame weight.

  const PAWN_MATERIAL: nat := 0
  const KNIGHT_MATERIAL: nat := 2
  const BISHOP_MATERIAL: nat := 4
  const ROOK_MATERIAL: nat := 6
  const QUEEN_MATERIAL: nat := 8
  const KNIGHT_MOBILITY: nat := 10
  const BISHOP_MOBILITY: nat := 12
  const ROOK_MOBILITY: nat := 14
  const QUEEN_MOBILITY: nat := 16
  const PAWN_SHIELD: nat := 18
  const KING_VIRTUAL_MOBILITY_PENALTY: nat := 20
  const KING_ATTACK_PAWN_PENALTY: nat := 22
  const KING_ATTACK_KNIGHT_PENALTY: nat := 24
  const KING_ATTACK_BISHOP_PENALTY: nat := 26
  const KING_ATTACK_ROOK_PENALTY: nat := 28
  const KING_ATTACK_QUEEN_PENALTY: nat := 30
  const DOUBLED_PAWN_PENALTY: nat := 32
  const PASSED_PAWN: nat := 34
  const ISOLATED_SEMI_OPEN_PAWN_PENALTY: nat := 36
  const ISOLATED_PAWN_PENALTY: nat := 38
  const ISOLATED_CENTRAL_PAWN_PENALTY: nat := 40
  const KNIGHT_MISSING_PAWN_PENALTY: nat := 42
  const KNIGHT_DEFENDED_BY_PAWN: nat := 44
  const MINOR_PIECE_NOT_DEFENDED_PENALTY: nat := 46
  const BAD_BISHOP_PENALTY: nat := 48
  const MISSING_BISHOP_PAIR_PENALTY: nat := 50
  const BISHOP_FIANCHETTO: nat := 52
  const ROOK_PAWN_COUNT: nat := 54
  const ROOK_ON_OPEN_FILE: nat := 56
  const ROOK_ON_SEMI_OPEN_FILE: nat := 58
  const ROOK_ON_7TH_RANK: nat := 60
  const TARRASCH_OWN_ROOK_PENALTY: nat := 62
  const TARRASCH_OWN_ROOK_DEFEND: nat := 64
  const TARRASCH_OPPONENT_ROOK_PENALTY: nat := 66
  const ROOK_ON_QUEEN_FILE: nat := 68

  /** A feature: the index of its midgame weight. */
  type Feature = f: nat | f % 2 == 0 && f < Features.EVAL_FEATURES

  /** `n` times feature `f`, credited to colour `side`: its midgame weight
      to the midgame accumulator and its endgame weight to the endgame
      one. The other colour is untouched. */
  function Credit(w: Weights, s: Scores, side: Byte, f: Feature, n: int): (r: Scores)
    ensures Midgame(r, side) == Midgame(s, side) + n * w[f]
    ensures Endgame(r, side) == Endgame(s, side) + n * w[f + 1]
    ensures Midgame(r, Opposite(side)) == Midgame(s, Opposite(side))
    ensures Endgame(r, Opposite(side)) == Endgame(s, Opposite(side))
  {
    if side == WHITE then
      s.(whiteMidgame := s.whiteMidgame + n * w[f], whiteEndgame := s.whiteEndgame + n * w[f + 1])
    else
      s.(blackMidgame := s.blackMidgame + n * w[f], blackEndgame := s.blackEndgame + n * w[f + 1])
  }

  /** Crediting commutes with exchanging the colours. */
  lemma CreditSwap(w: Weights, s: Scores, side: Byte, f: Feature, n: int)
    requires side == WHITE || side == BLACK
    ensures Swapped(Credit(w, s, side, f, n)) == Credit(w, Swapped(s), Opposite(side), f, n)
  {
  }

  // ---------------------------------------------------------------------
  // Mobility and king attacks

  /** The mobility feature of a knight, bishop, rook or queen. */
  function MobilityFeature(k: Kind): Feature
    requires k in {Knight, Bishop, Rook, Queen}
  {
    10 + 2 * (KindIndex(k) - 1)
  }

  /** `addMobilityScoreForPiece`: the piece's own colour gains mobility
      times the mobility weight of its kind; pawns and kings add nothing. */
  function AddMobility(w: Weights, s: Scores, p: Piece, mobility: int): (r: Scores)
    ensures KindOf(p) in {Pawn, King} ==> r == s
    ensures KindOf(p) in {Knight, Bishop, Rook, Queen} ==>
      Midgame(r, ColorOf(p)) == Midgame(s, ColorOf(p)) + mobility * w[MobilityFeature(KindOf(p))]
      && Endgame(r, ColorOf(p)) == Endgame(s, ColorOf(p)) + mobility * w[MobilityFeature(KindOf(p)) + 1]
      && Midgame(r, Opposite(ColorOf(p))) == Midgame(s, Opposite(ColorOf(p)))
      && Endgame(r, Opposite(ColorOf(p))) == Endgame(s, Opposite(ColorOf(p)))
  {
    match p
    case 2 => Credit(w, s, WHITE, KNIGHT_MOBILITY, mobility)
    case 3 => Credit(w, s, BLACK, KNIGHT_MOBILITY, mobility)
    case 4 => Credit(w, s, WHITE, BISHOP_MOBILITY, mobility)
    case 5 => Credit(w, s, BLACK, BISHOP_MOBILITY, mobility)
    case 6 => Credit(w, s, WHITE, ROOK_MOBILITY, mobility)
    case 7 => Credit(w, s, BLACK, ROOK_MOBILITY, mobility)
    case 8 => Credit(w, s, WHITE, QUEEN_MOBILITY, mobility)
    case 9 => Credit(w, s, BLACK, QUEEN_MOBILITY, mobility)
    case _ => s
  }

  /** The king-attack penalty of a pawn, knight, bishop, rook or queen. */
  function KingAttackFeature(k: Kind): Feature
    requires k != King
  {
    22 + 2 * KindIndex(k)
  }

  /** `addKingAttackScore`: every attack on a square next to the enemy king
      is charged to the scores of the colour being attacked, at the
      attacker's kind's weight; kings charge nothing. */
  function AddKingAttack(w: Weights, s: Scores, p: Piece, attacks: int): (r: Scores)
    ensures KindOf(p) == King ==> r == s
    ensures KindOf(p) != King ==>
      Midgame(r, Opposite(ColorOf(p))) == Midgame(s, Opposite(ColorOf(p))) + attacks * w[KingAttackFeature(KindOf(p))]
      && Endgame(r, Opposite(ColorOf(p))) == Endgame(s, Opposite(ColorOf(p))) + attacks * w[KingAttackFeature(KindOf(p)) + 1]
      && Midgame(r, ColorOf(p)) == Midgame(s, ColorOf(p))
      && Endgame(r, ColorOf(p)) == Endgame(s, ColorOf(p))
  {
    match p
    case 0 => Credit(w, s, BLACK, KING_ATTACK_PAWN_PENALTY, attacks)
    case 1 => Credit(w, s, WHITE, KING_ATTACK_PAWN_PENALTY, attacks)
    case 2 => Credit(w, s, BLACK, KING_ATTACK_KNIGHT_PENALTY, attacks)
    case 3 => Credit(w, s, WHITE, KING_ATTACK_KNIGHT_PENALTY, attacks)
    case 4 => Credit(w, s, BLACK, KING_ATTACK_BISHOP_PENALTY, attacks)
    case 5 => Credit(w, s, WHITE, KING_ATTACK_BISHOP_PENALTY, attacks)
    case 6 => Credit(w, s, BLACK, KING_ATTACK_ROOK_PENALTY, attacks)
    case 7 => Credit(w, s, WHITE, KING_ATTACK_ROOK_PENALTY, attacks)
    case 8 => Credit(w, s, BLACK, KING_ATTACK_QUEEN_PENALTY, attacks)
    case 9 => Credit(w, s, WHITE, KING_ATTACK_QUEEN_PENALTY, attacks)
    case _ => s
  }

  // ---------------------------------------------------------------------
  // The per-man terms of evaluatePieces

  /** What `evaluatePieces` reads off the board for one man. The counts
      are populations of bitboards the evaluator builds; the flags are the
      tests it makes. */
  datatype Context = Context(
    square: Square,
    mobility: nat,           // safe squares the man attacks
    kingZoneAttacks: nat,    // its attacks on squares next to the enemy king
    shieldPawns: nat,        // own pawns in the two ranks in front of the king
    virtualMobility: nat,    // queen moves from the king square through own men
    pawnAhead: bool,         // an own pawn on the file in front of this pawn
    passed: bool,            // isPassedPawn
    ownRookAhead: bool,      // an own rook in front of a passed pawn
    ownRookBehind: bool,     // an own rook behind it
    enemyRookBehind: bool,   // an enemy rook behind it
    isolated: bool,          // isIsolatedPawn
    semiOpen: bool,          // isSemiOpenFile for the man's colour
    openFile: bool,          // isOpenFile
    ownPawns: nat,           // population of the own pawn board
    pawnDefended: bool,      // the square is attacked by an own pawn
    diagonalPawns: bool,     // own pawns on the forward diagonals the bishop attacks
    freeDiagonal: nat,       // forward diagonal squares attacked without own pawns
    ownBishops: nat,         // getMaterialCount of the own bishops
    fianchettoPawns: nat,    // own pawns on the three fianchetto squares
    fianchettoBroken: bool,  // an own pawn on the two forward diagonal squares
    enemyQueenOnFile: bool,  // an enemy queen on the rook's file
    defended: bool,          // the square is attacked by the man's own colour
    weakSquare: bool         // attacked twice by the enemy, not twice by its own colour
  )

  function RankOf(sq: Square): nat { sq / 8 }
  function FileOf(sq: Square): nat { sq % 8 }

  /** The square seen with the ranks reversed: a1 <-> a8. */
  function FlipRank(sq: Square): (t: Square)
    ensures RankOf(t) == 7 - RankOf(sq) && FileOf(t) == FileOf(sq)
  {
    (7 - sq / 8) * 8 + sq % 8
  }

  /** The same context seen from the other colour. */
  function Flipped(ctx: Context): Context
  {
    ctx.(square := FlipRank(ctx.square))
  }

  const B2: Square := 9
  const G2: Square := 14
  const B7: Square := 49
  const G7: Square := 54

  /** The shield count saturates at three pawns: `min(popcount, 3)`. */
  function ShieldCount(pawns: nat): (n: nat)
    ensures n <= 3 && n <= pawns
    ensures n == pawns || n == 3
  {
    if pawns < 3 then pawns else 3
  }

  /** The king's terms: the pawn shield bonus and the virtual mobility
      penalty, both for its own colour. */
  function KingTerms(w: Weights, s: Scores, side: Byte, ctx: Context): (r: Scores)
    ensures Midgame(r, Opposite(side)) == Midgame(s, Opposite(side))
    ensures Endgame(r, Opposite(side)) == Endgame(s, Opposite(side))
    ensures Midgame(r, side) == Midgame(s, side)
      + ShieldCount(ctx.shieldPawns) * w[PAWN_SHIELD]
      + ctx.virtualMobility * w[KING_VIRTUAL_MOBILITY_PENALTY]
  {
    var s1 := Credit(w, s, side, PAWN_SHIELD, ShieldCount(ctx.shieldPawns));
    Credit(w, s1, side, KING_VIRTUAL_MOBILITY_PENALTY, ctx.virtualMobility)
  }

  /** The Tarrasch terms of a passed pawn: rooks in front of and behind it. */
  function TarraschTerms(w: Weights, s: Scores, side: Byte, ctx: Context): (r: Scores)
    ensures Midgame(r, Opposite(side)) == Midgame(s, Opposite(side))
    ensures Endgame(r, Opposite(side)) == Endgame(s, Opposite(side))
  {
    var s1 := if ctx.ownRookAhead then Credit(w, s, side, TARRASCH_OWN_ROOK_PENALTY, 1) else s;
    var s2 := if ctx.ownRookBehind then Credit(w, s1, side, TARRASCH_OWN_ROOK_DEFEND, 1) else s1;
    if ctx.enemyRookBehind then Credit(w, s2, side, TARRASCH_OPPONENT_ROOK_PENALTY, 1) else s2
  }

  /** On the d- or e-file (`DE_FILE`). */
  predicate Central(sq: Square) { FileOf(sq) == 3 || FileOf(sq) == 4 }

  /** A pawn's terms: doubled, passed (with the Tarrasch rule), isolated
      (worse on a half-open file and in the centre). */
  function PawnTerms(w: Weights, s: Scores, side: Byte, ctx: Context): (r: Scores)
    ensures Midgame(r, Opposite(side)) == Midgame(s, Opposite(side))
    ensures Endgame(r, Opposite(side)) == Endgame(s, Opposite(side))
  {
    var s1 := if ctx.pawnAhead then Credit(w, s, side, DOUBLED_PAWN_PENALTY, 1) else s;
    var s2 := if ctx.passed then TarraschTerms(w, Credit(w, s1, side, PASSED_PAWN, 1), side, ctx) else s1;
    if ctx.isolated then IsolatedTerms(w, s2, side, ctx) else s2
  }

  /** The isolated-pawn terms, worse on a half-open file and in the centre. */
  function IsolatedTerms(w: Weights, s: Scores, side: Byte, ctx: Context): (r: Scores)
    ensures Midgame(r, Opposite(side)) == Midgame(s, Opposite(side))
    ensures Endgame(r, Opposite(side)) == Endgame(s, Opposite(side))
  {
    var s1 := Credit(w, s, side, ISOLATED_PAWN_PENALTY, 1);
    var s2 := if ctx.semiOpen then Credit(w, s1, side, ISOLATED_SEMI_OPEN_PAWN_PENALTY, 1) else s1;
    if Central(ctx.square) then Credit(w, s2, side, ISOLATED_CENTRAL_PAWN_PENALTY, 1) else s2
  }

  /** The pawn-count term shared by knights and rooks: feature `f` once for
      every own pawn short of eight. */
  function MissingPawns(w: Weights, s: Scores, side: Byte, f: Feature, ownPawns: nat): (r: Scores)
    ensures ownPawns == 8 ==> r == s
    ensures Midgame(r, side) == Midgame(s, side) + (8 - ownPawns) * w[f]
    ensures Endgame(r, side) == Endgame(s, side) + (8 - ownPawns) * w[f + 1]
    ensures Midgame(r, Opposite(side)) == Midgame(s, Opposite(side))
  {
    Credit(w, s, side, f, 8 - ownPawns)
  }

  /** Each pawn lost moves the pawn-count term by exactly one weight. */
  lemma MissingPawnStep(w: Weights, s: Scores, side: Byte, f: Feature, ownPawns: nat)
    ensures Midgame(MissingPawns(w, s, side, f, ownPawns), side)
         == Midgame(MissingPawns(w, s, side, f, ownPawns + 1), side) + w[f]
    ensures Endgame(MissingPawns(w, s, side, f, ownPawns), side)
         == Endgame(MissingPawns(w, s, side, f, ownPawns + 1), side) + w[f + 1]
  {
    var a := MissingPawns(w, s, side, f, ownPawns);
    var b := MissingPawns(w, s, side, f, ownPawns + 1);
    assert (8 - ownPawns) * w[f] == (8 - (ownPawns + 1)) * w[f] + w[f];
    assert (8 - ownPawns) * w[f + 1] == (8 - (ownPawns + 1)) * w[f + 1] + w[f + 1];
  }

  /** A knight's terms: weaker for every missing own pawn, better when a
      pawn defends it. */
  function KnightTerms(w: Weights, s: Scores, side: Byte, ctx: Context): (r: Scores)
    ensures Midgame(r, Opposite(side)) == Midgame(s, Opposite(side))
    ensures Endgame(r, Opposite(side)) == Endgame(s, Opposite(side))
  {
    var s1 := MissingPawns(w, s, side, KNIGHT_MISSING_PAWN_PENALTY, ctx.ownPawns);
    if ctx.pawnDefended then Credit(w, s1, side, KNIGHT_DEFENDED_BY_PAWN, 1) else s1
  }

  /** The missing-pair penalty, charged when its colour has exactly one bishop. */
  function MissingPair(w: Weights, s: Scores, side: Byte, bishops: nat): (r: Scores)
    ensures bishops != 1 ==> r == s
    ensures bishops == 1 ==>
      Midgame(r, side) == Midgame(s, side) + w[MISSING_BISHOP_PAIR_PENALTY]
      && Endgame(r, side) == Endgame(s, side) + w[MISSING_BISHOP_PAIR_PENALTY + 1]
      && Midgame(r, Opposite(side)) == Midgame(s, Opposite(side))
      && Endgame(r, Opposite(side)) == Endgame(s, Opposite(side))
  {
    if bishops == 1 then Credit(w, s, side, MISSING_BISHOP_PAIR_PENALTY, 1) else s
  }

  /** A fianchetto square of colour `side`: b2 and g2 for white, b7 and g7
      for black. */
  predicate FianchettoSquare(side: Byte, sq: Square)
  {
    if side == WHITE then sq == G2 || sq == B2 else sq == G7 || sq == B7
  }

  /** A bishop's terms: bad bishop, missing pair, fianchetto. */
  function BishopTerms(w: Weights, s: Scores, side: Byte, ctx: Context): (r: Scores)
    ensures Midgame(r, Opposite(side)) == Midgame(s, Opposite(side))
    ensures Endgame(r, Opposite(side)) == Endgame(s, Opposite(side))
  {
    var s1 := if ctx.diagonalPawns && ctx.freeDiagonal <= 3 then Credit(w, s, side, BAD_BISHOP_PENALTY, 1) else s;
    var s2 := MissingPair(w, s1, side, ctx.ownBishops);
    if FianchettoSquare(side, ctx.square) && ctx.fianchettoPawns == 3 && !ctx.fianchettoBroken then
      Credit(w, s2, side, BISHOP_FIANCHETTO, 1)
    else s2
  }

  /** The two ranks furthest from colour `side`: ranks 7 and 8 for white,
      2 and 1 for black. */
  predicate DeepRank(side: Byte, sq: Square)
  {
    if side == WHITE then RankOf(sq) >= 6 else RankOf(sq) <= 1
  }

  /** A rook's terms: stronger as own pawns disappear, on open or else
      half-open files, on the seventh and eighth ranks and on the enemy
      queen's file. */
  function RookTerms(w: Weights, s: Scores, side: Byte, ctx: Context): (r: Scores)
    ensures Midgame(r, Opposite(side)) == Midgame(s, Opposite(side))
    ensures Endgame(r, Opposite(side)) == Endgame(s, Opposite(side))
  {
    var s1 := MissingPawns(w, s, side, ROOK_PAWN_COUNT, ctx.ownPawns);
    var s2 := if ctx.openFile then Credit(w, s1, side, ROOK_ON_OPEN_FILE, 1)
              else if ctx.semiOpen then Credit(w, s1, side, ROOK_ON_SEMI_OPEN_FILE, 1)
              else s1;
    var s3 := if DeepRank(side, ctx.square) then Credit(w, s2, side, ROOK_ON_7TH_RANK, 1) else s2;
    if ctx.enemyQueenOnFile then Credit(w, s3, side, ROOK_ON_QUEEN_FILE, 1) else s3
  }

  /** The weight pair of the weak-square penalty. Its place among the
      tuned weights is set in src/features.h, which is not part of this
      model, so it is passed on its own. */
  datatype Penalty = Penalty(midgame: int, endgame: int)

  /** The penalty credited once to colour `side`. */
  function CreditPenalty(s: Scores, side: Byte, pen: Penalty): (r: Scores)
    ensures Midgame(r, side) == Midgame(s, side) + pen.midgame
    ensures Endgame(r, side) == Endgame(s, side) + pen.endgame
    ensures Midgame(r, Opposite(side)) == Midgame(s, Opposite(side))
    ensures Endgame(r, Opposite(side)) == Endgame(s, Opposite(side))
  {
    if side == WHITE then
      s.(whiteMidgame := s.whiteMidgame + pen.midgame, whiteEndgame := s.whiteEndgame + pen.endgame)
    else
      s.(blackMidgame := s.blackMidgame + pen.midgame, blackEndgame := s.blackEndgame + pen.endgame)
  }

  /** The minor-piece terms: a knight or bishop its own side does not
      defend, then one standing on a weak square. */
  function MinorTerms(w: Weights, weak: Penalty, s: Scores, side: Byte, ctx: Context): (r: Scores)
    ensures Midgame(r, Opposite(side)) == Midgame(s, Opposite(side))
    ensures Endgame(r, Opposite(side)) == Endgame(s, Opposite(side))
  {
    var s1 := if !ctx.defended then Credit(w, s, side, MINOR_PIECE_NOT_DEFENDED_PENALTY, 1) else s;
    if ctx.weakSquare then CreditPenalty(s1, side, weak) else s1
  }

  /** What a man charges the other colour: its attacks next to the enemy
      king at its kind's king-attack weight; a king charges nothing. */
  function KingCharge(w: Weights, p: Piece, ctx: Context): Penalty
  {
    if KindOf(p) == King then Penalty(0, 0)
    else Penalty(ctx.kingZoneAttacks * w[KingAttackFeature(KindOf(p))],
                 ctx.kingZoneAttacks * w[KingAttackFeature(KindOf(p)) + 1])
  }

  /** The body of the loop of `evaluatePieces` for a man `p`: mobility and
      king attacks, then the terms of its kind. The source tests the kinds
      one after another; they exclude each other, so at most one kind's
      terms apply, and for knights and bishops the minor-piece term follows. */
  function PieceTerms(w: Weights, weak: Penalty, s: Scores, p: Piece, ctx: Context): (r: Scores)
    ensures Midgame(r, Opposite(ColorOf(p))) == Midgame(s, Opposite(ColorOf(p))) + KingCharge(w, p, ctx).midgame
    ensures Endgame(r, Opposite(ColorOf(p))) == Endgame(s, Opposite(ColorOf(p))) + KingCharge(w, p, ctx).endgame
  {
    var side := ColorOf(p);
    var s1 := if IsNotPawnOrKing(p) then AddMobility(w, s, p, ctx.mobility) else s;
    var s2 := if !IsKing(p) then AddKingAttack(w, s1, p, ctx.kingZoneAttacks) else s1;
    match KindOf(p)
    case King => KingTerms(w, s2, side, ctx)
    case Pawn => PawnTerms(w, s2, side, ctx)
    case Knight => MinorTerms(w, weak, KnightTerms(w, s2, side, ctx), side, ctx)
    case Bishop => MinorTerms(w, weak, BishopTerms(w, s2, side, ctx), side, ctx)
    case Rook => RookTerms(w, s2, side, ctx)
    case Queen => s2
  }

  // ---------------------------------------------------------------------
  // Colour symmetry of the per-man terms

  lemma KingTermsSwap(w: Weights, s: Scores, side: Byte, ctx: Context)
    requires side == WHITE || side == BLACK
    ensures KingTerms(w, Swapped(s), Opposite(side), Flipped(ctx)) == Swapped(KingTerms(w, s, side, ctx))
  {
  }

  lemma TarraschTermsSwap(w: Weights, s: Scores, side: Byte, ctx: Context)
    requires side == WHITE || side == BLACK
    ensures TarraschTerms(w, Swapped(s), Opposite(side), Flipped(ctx)) == Swapped(TarraschTerms(w, s, side, ctx))
  {
  }

  lemma IsolatedTermsSwap(w: Weights, s: Scores, side: Byte, ctx: Context)
    requires side == WHITE || side == BLACK
    ensures IsolatedTerms(w, Swapped(s), Opposite(side), Flipped(ctx)) == Swapped(IsolatedTerms(w, s, side, ctx))
  {
    assert Central(Flipped(ctx).square) == Central(ctx.square);
  }

  lemma PawnTermsSwap(w: Weights, s: Scores, side: Byte, ctx: Context)
    requires side == WHITE || side == BLACK
    ensures PawnTerms(w, Swapped(s), Opposite(side), Flipped(ctx)) == Swapped(PawnTerms(w, s, side, ctx))
  {
    var s1 := if ctx.pawnAhead then Credit(w, s, side, DOUBLED_PAWN_PENALTY, 1) else s;
    CreditSwap(w, s, side, DOUBLED_PAWN_PENALTY, 1);
    var t := Credit(w, s1, side, PASSED_PAWN, 1);
    CreditSwap(w, s1, side, PASSED_PAWN, 1);
    TarraschTermsSwap(w, t, side, ctx);
    var s2 := if ctx.passed then TarraschTerms(w, t, side, ctx) else s1;
    IsolatedTermsSwap(w, s2, side, ctx);
  }

  lemma KnightTermsSwap(w: Weights, s: Scores, side: Byte, ctx: Context)
    requires side == WHITE || side == BLACK
    ensures KnightTerms(w, Swapped(s), Opposite(side), Flipped(ctx)) == Swapped(KnightTerms(w, s, side, ctx))
  {
  }

  lemma BishopTermsSwap(w: Weights, s: Scores, side: Byte, ctx: Context)
    requires side == WHITE || side == BLACK
    ensures BishopTerms(w, Swapped(s), Opposite(side), Flipped(ctx)) == Swapped(BishopTerms(w, s, side, ctx))
  {
  }

  lemma RookTermsSwap(w: Weights, s: Scores, side: Byte, ctx: Context)
    requires side == WHITE || side == BLACK
    ensures RookTerms(w, Swapped(s), Opposite(side), Flipped(ctx)) == Swapped(RookTerms(w, s, side, ctx))
  {
  }

  lemma MinorTermsSwap(w: Weights, weak: Penalty, s: Scores, side: Byte, ctx: Context)
    requires side == WHITE || side == BLACK
    ensures MinorTerms(w, weak, Swapped(s), Opposite(side), Flipped(ctx)) == Swapped(MinorTerms(w, weak, s, side, ctx))
  {
  }

  lemma MobilitySwap(w: Weights, s: Scores, p: Piece, n: int)
    ensures AddMobility(w, Swapped(s), Twin(p), n) == Swapped(AddMobility(w, s, p, n))
  {
  }

  lemma KingAttackSwap(w: Weights, s: Scores, p: Piece, n: int)
    ensures AddKingAttack(w, Swapped(s), Twin(p), n) == Swapped(AddKingAttack(w, s, p, n))
  {
  }

  /** The evaluator treats the colours alike: the twin of a man, on the
      square with the ranks reversed and with the same surroundings seen
      from its side, earns the other colour exactly what the man earns. */
  lemma PieceTermsSwap(w: Weights, weak: Penalty, s: Scores, p: Piece, ctx: Context)
    ensures PieceTerms(w, weak, Swapped(s), Twin(p), Flipped(ctx)) == Swapped(PieceTerms(w, weak, s, p, ctx))
  {
    var side := ColorOf(p);
    assert ColorOf(Twin(p)) == Opposite(side);
    var s1 := if IsNotPawnOrKing(p) then AddMobility(w, s, p, ctx.mobility) else s;
    MobilitySwap(w, s, p, ctx.mobility);
    var s2 := if !IsKing(p) then AddKingAttack(w, s1, p, ctx.kingZoneAttacks) else s1;
    KingAttackSwap(w, s1, p, ctx.kingZoneAttacks);
    assert KindOf(Twin(p)) == KindOf(p);
    match KindOf(p)
    case King => KingTermsSwap(w, s2, side, ctx);
    case Pawn => PawnTermsSwap(w, s2, side, ctx);
    case Knight =>
      KnightTermsSwap(w, s2, side, ctx);
      MinorTermsSwap(w, weak, KnightTerms(w, s2, side, ctx), side, ctx);
    case Bishop =>
      BishopTermsSwap(w, s2, side, ctx);
      MinorTermsSwap(w, weak, BishopTerms(w, s2, side, ctx), side, ctx);
    case Rook => RookTermsSwap(w, s2, side, ctx);
    case Queen =>
  }

  // ---------------------------------------------------------------------
  // The loop over one colour's men

  /** A man of the board with what the evaluator reads around it. */
  datatype Man = Man(piece: Piece, ctx: Context)

  /** `evaluatePieces`: the per-man terms of every man in turn. Men of one
      colour that attack nothing next to the enemy king leave the other
      colour's scores as they were. */
  function PiecesTerms(w: Weights, weak: Penalty, s: Scores, men: seq<Man>): (r: Scores)
    ensures forall side: Byte | side == WHITE || side == BLACK ::
      (forall i | 0 <= i < |men| :: ColorOf(men[i].piece) == side && men[i].ctx.kingZoneAttacks == 0) ==>
        Midgame(r, Opposite(side)) == Midgame(s, Opposite(side)) && Endgame(r, Opposite(side)) == Endgame(s, Opposite(side))
    decreases |men|
  {
    if men == [] then s else PiecesTerms(w, weak, PieceTerms(w, weak, s, men[0].piece, men[0].ctx), men[1..])
  }

  /** The loop over a list of men is the loop over its first part followed
      by the loop over the rest, so the white and the black loop of
      `evaluatePieces` are one loop over all the men. */
  lemma {:induction false} PiecesTermsAppend(w: Weights, weak: Penalty, s: Scores, a: seq<Man>, b: seq<Man>)
    ensures PiecesTerms(w, weak, s, a + b) == PiecesTerms(w, weak, PiecesTerms(w, weak, s, a), b)
    decreases |a|
  {
    if a == [] {
      assert a + b == b;
    } else {
      assert (a + b)[0] == a[0] && (a + b)[1..] == a[1..] + b;
      PiecesTermsAppend(w, weak, PieceTerms(w, weak, s, a[0].piece, a[0].ctx), a[1..], b);
    }
  }

  /** The men of the other colour on the rank-reversed board. */
  function Mirrored(men: seq<Man>): (r: seq<Man>)
    ensures |r| == |men|
    ensures forall i | 0 <= i < |men| :: r[i] == Man(Twin(men[i].piece), Flipped(men[i].ctx))
  {
    seq(|men|, i requires 0 <= i < |men| => Man(Twin(men[i].piece), Flipped(men[i].ctx)))
  }

  /** The whole loop treats the colours alike. */
  lemma {:induction false} PiecesTermsSwap(w: Weights, weak: Penalty, s: Scores, men: seq<Man>)
    ensures PiecesTerms(w, weak, Swapped(s), Mirrored(men)) == Swapped(PiecesTerms(w, weak, s, men))
    decreases |men|
  {
    if men != [] {
      var m := men[0];
      PieceTermsSwap(w, weak, s, m.piece, m.ctx);
      assert Mirrored(men)[1..] == Mirrored(men[1..]);
      PiecesTermsSwap(w, weak, PieceTerms(w, weak, s, m.piece, m.ctx), men[1..]);
    }
  }

  // ---------------------------------------------------------------------
  // Material, piece-square sums and the final score

  /** The material feature of a pawn, knight, bishop, rook or queen. */
  function MaterialFeature(k: Kind): Feature
    requires k != King
  {
    2 * KindIndex(k)
  }

  /** `evaluateMaterial<color>`: the counts of the colour's men, pawns
      through queens, times the tuned material weights. */
  function MaterialTerms(w: Weights, s: Scores, side: Side, c: Counts): (r: Scores)
    ensures Midgame(r, SideCode(side)) == Midgame(s, SideCode(side))
      + c[PieceOf(side, Pawn)] * w[MaterialFeature(Pawn)]
      + c[PieceOf(side, Knight)] * w[MaterialFeature(Knight)]
      + c[PieceOf(side, Bishop)] * w[MaterialFeature(Bishop)]
      + c[PieceOf(side, Rook)] * w[MaterialFeature(Rook)]
      + c[PieceOf(side, Queen)] * w[MaterialFeature(Queen)]
    ensures Endgame(r, SideCode(side)) == Endgame(s, SideCode(side))
      + c[PieceOf(side, Pawn)] * w[MaterialFeature(Pawn) + 1]
      + c[PieceOf(side, Knight)] * w[MaterialFeature(Knight) + 1]
      + c[PieceOf(side, Bishop)] * w[MaterialFeature(Bishop) + 1]
      + c[PieceOf(side, Rook)] * w[MaterialFeature(Rook) + 1]
      + c[PieceOf(side, Queen)] * w[MaterialFeature(Queen) + 1]
    ensures Midgame(r, Opposite(SideCode(side))) == Midgame(s, Opposite(SideCode(side)))
    ensures Endgame(r, Opposite(SideCode(side))) == Endgame(s, Opposite(SideCode(side)))
  {
    var code := SideCode(side);
    var s1 := Credit(w, s, code, PAWN_MATERIAL, c[PieceOf(side, Pawn)]);
    var s2 := Credit(w, s1, code, KNIGHT_MATERIAL, c[PieceOf(side, Knight)]);
    var s3 := Credit(w, s2, code, BISHOP_MATERIAL, c[PieceOf(side, Bishop)]);
    var s4 := Credit(w, s3, code, ROOK_MATERIAL, c[PieceOf(side, Rook)]);
    Credit(w, s4, code, QUEEN_MATERIAL, c[PieceOf(side, Queen)])
  }

  /** With the default weights the material terms of the two evaluators
      are the same. */
  lemma BaseMaterialAgrees(s: Scores, c: Counts)
    ensures MaterialTerms(Features.BASE_EVAL_VALUES, MaterialTerms(Features.BASE_EVAL_VALUES, s, WhiteSide, c), BlackSide, c)
         == Material(s, c)
  {
    var w := Features.BASE_EVAL_VALUES;
    assert forall i | 0 <= i < 10 :: w[i] == Features.BASE_MATERIAL[i];
    var m := MaterialTerms(w, MaterialTerms(w, s, WhiteSide, c), BlackSide, c);
    assert Midgame(m, WHITE) == m.whiteMidgame && Midgame(m, BLACK) == m.blackMidgame;
    assert Endgame(m, WHITE) == m.whiteEndgame && Endgame(m, BLACK) == m.blackEndgame;
  }

  /** `evaluatePst<color>`: the running piece-square sums of the board. */
  function PstTerms(s: Scores, pst: Scores): (r: Scores)
    ensures forall side: Byte :: Midgame(r, side) == Midgame(s, side) + Midgame(pst, side)
    ensures forall side: Byte :: Endgame(r, side) == Endgame(s, side) + Endgame(pst, side)
  {
    Scores(s.whiteMidgame + pst.whiteMidgame, s.whiteEndgame + pst.whiteEndgame,
           s.blackMidgame + pst.blackMidgame, s.blackEndgame + pst.blackEndgame)
  }

  /** `Evaluation::evaluate` of src/evaluate.cpp: from zero, the material,
      the piece-square sums and the terms of every white and then every
      black man, tapered by the phase of the piece boards, from the side
      to move's point of view. */
  function Evaluation(w: Weights, weak: Penalty, b: Boards, pst: Scores, white: seq<Man>, black: seq<Man>, side: Byte): (v: int)
    ensures var t := Totals(w, weak, b, pst, white, black);
      t.whiteMidgame == t.blackMidgame && t.whiteEndgame == t.blackEndgame ==> v == 0
    ensures var t := Totals(w, weak, b, pst, white, black);
      0 <= GetPhase(b) && t.whiteMidgame >= t.blackMidgame && t.whiteEndgame >= t.blackEndgame ==>
        (if side == WHITE then v >= 0 else v <= 0)
  {
    Eval.Evaluate(Totals(w, weak, b, pst, white, black), GetPhase(b), side)
  }

  /** The accumulated scores before tapering: material, piece-square sums,
      then the terms of the white and of the black men. */
  function Totals(w: Weights, weak: Penalty, b: Boards, pst: Scores, white: seq<Man>, black: seq<Man>): Scores
  {
    var c := CountsOf(b);
    var m := MaterialTerms(w, MaterialTerms(w, ZERO, WhiteSide, c), BlackSide, c);
    var p := PstTerms(m, pst);
    PiecesTerms(w, weak, PiecesTerms(w, weak, p, white), black)
  }

  /** Black to move sees the negation of what white to move sees. */
  lemma EvaluationSideSign(w: Weights, weak: Penalty, b: Boards, pst: Scores, white: seq<Man>, black: seq<Man>)
    ensures Evaluation(w, weak, b, pst, white, black, BLACK) == -Evaluation(w, weak, b, pst, white, black, WHITE)
  {
  }
}
