/** Packed moves and their text form.

    src/move.h packs a move into 16 bits: from-square in bits 0-5, to-square
    in bits 6-11, move type in bits 12-13 (normal, promotion, en passant,
    castling) and promotion piece in bits 14-15 (queen, rook, bishop,
    knight). src/move.cpp writes and reads the long algebraic text used by
    the UCI protocol ("e2e4", "e7e8q"). Two older 32-bit packers live in
    src/utils.h and utils.cpp. */
module MoveCodec {
  import opened Types
  import Notation
  import Bytes

  type Move = bv16

  const NORMAL: bv8 := 0
  const PROMOTION: bv8 := 1
  const EN_PASSANT: bv8 := 2
  const CASTLING: bv8 := 3

  const QUEEN_PROMOTION: bv8 := 0
  const ROOK_PROMOTION: bv8 := 1
  const BISHOP_PROMOTION: bv8 := 2
  const KNIGHT_PROMOTION: bv8 := 3

  /** The C++ arithmetic happens on `int` and is narrowed to `uint16_t`. */
  function Narrow16(x: bv32): Move
  {
    (x & 0xFFFF) as bv16
  }

  /** `getFromSquare`: bits 0-5. */
  function GetFrom(m: Move): (f: bv8)
    ensures f < 64
  {
    (m & 0x3F) as bv8
  }

  /** `getToSquare`: bits 6-11. */
  function GetTo(m: Move): (t: bv8)
    ensures t < 64
  {
    ((m >> 6) & 0x3F) as bv8
  }

  /** `getMoveType`: bits 12-13. */
  function GetMoveType(m: Move): (mt: bv8)
    ensures mt < 4
  {
    ((m >> 12) & 0x3) as bv8
  }

  /** `getPromotionPiece`: bits 14-15. */
  function GetPromotionPiece(m: Move): (pp: bv8)
    ensures pp < 4
  {
    ((m >> 14) & 0x3) as bv8
  }

  /** `encodeMove(from, to)`: a normal move with no promotion bits. */
  function EncodeMove(from: bv8, to: bv8): (m: Move)
    ensures from < 64 && to < 64 ==>
      GetFrom(m) == from && GetTo(m) == to && GetMoveType(m) == NORMAL && GetPromotionPiece(m) == 0
    ensures to < 64 ==> m >> 12 == 0
  {
    Narrow16((from as bv32) | ((to as bv32) << 6))
  }

  /** `encodeMove(from, to, moveType)`. */
  function EncodeTyped(from: bv8, to: bv8, moveType: bv8): (m: Move)
    ensures from < 64 && to < 64 && moveType < 4 ==>
      GetFrom(m) == from && GetTo(m) == to && GetMoveType(m) == moveType && GetPromotionPiece(m) == 0
  {
    Narrow16((from as bv32) | ((to as bv32) << 6) | ((moveType as bv32) << 12))
  }

  /** `encodeMove(from, to, promotionPiece)`: always of type PROMOTION. */
  function EncodePromotion(from: bv8, to: bv8, promotionPiece: bv8): (m: Move)
    ensures from < 64 && to < 64 && promotionPiece < 4 ==>
      GetFrom(m) == from && GetTo(m) == to && GetMoveType(m) == PROMOTION
      && GetPromotionPiece(m) == promotionPiece
  {
    Narrow16((from as bv32) | ((to as bv32) << 6) | (1 << 12) | ((promotionPiece as bv32) << 14))
  }

  /** Every 16-bit value is the encoding of its own fields: the decoders and
      the encoders are mutually inverse on the whole move space. */
  lemma EncodeDecodeTyped(m: Move)
    requires GetPromotionPiece(m) == 0
    ensures EncodeTyped(GetFrom(m), GetTo(m), GetMoveType(m)) == m
  {
  }

  lemma EncodeDecodePromotion(m: Move)
    requires GetMoveType(m) == PROMOTION
    ensures EncodePromotion(GetFrom(m), GetTo(m), GetPromotionPiece(m)) == m
  {
  }

  lemma EncodeDecodeNormal(m: Move)
    requires GetMoveType(m) == NORMAL && GetPromotionPiece(m) == 0
    ensures EncodeMove(GetFrom(m), GetTo(m)) == m
  {
  }

  /** The normal-move encoder is the typed one at type NORMAL. */
  lemma EncodeMoveIsNormal(from: bv8, to: bv8)
    ensures EncodeMove(from, to) == EncodeTyped(from, to, NORMAL)
  {
  }

  /** `getPieceFromPromotionPiece`: the white queen, rook, bishop or knight
      code plus the colour; no other promotion value has a case, and the
      function then returns EMPTY. */
  function PieceFromPromotion(promotionPiece: bv8, color: Byte): (p: Byte)
    ensures promotionPiece >= 4 ==> p == NO_PIECE
    ensures promotionPiece < 4 && color < 2 ==>
      p < 12 && ColorOf(p) == color && KindOf(p) == PromotionKind(promotionPiece)
  {
    if promotionPiece == QUEEN_PROMOTION then (WHITE_QUEEN + color) % 256
    else if promotionPiece == ROOK_PROMOTION then (WHITE_ROOK + color) % 256
    else if promotionPiece == BISHOP_PROMOTION then (WHITE_BISHOP + color) % 256
    else if promotionPiece == KNIGHT_PROMOTION then (WHITE_KNIGHT + color) % 256
    else NO_PIECE
  }

  /** The kind each promotion value stands for. */
  function PromotionKind(promotionPiece: bv8): Kind
    requires promotionPiece < 4
  {
    if promotionPiece == 0 then Queen
    else if promotionPiece == 1 then Rook
    else if promotionPiece == 2 then Bishop
    else Knight
  }

  // ---------------------------------------------------------------------
  // Text form (src/move.cpp)

  /** The letters of the promotion pieces, in promotion-value order. */
  const PROMOTION_LETTERS: string := "qrbn"

  /** `getMoveNotation(from, to)`: the two square names; both squares are
      asserted to be on the board. */
  function MoveText(from: bv8, to: bv8): (t: string)
    requires from < 64 && to < 64
    ensures |t| == 4
    ensures t[..2] == Notation.SquareNotation(from as int)
    ensures t[2..] == Notation.SquareNotation(to as int)
  {
    Notation.SquareNotation(from as int) + Notation.SquareNotation(to as int)
  }

  /** `getMoveNotation(from, to, promotionPiece)`: the two names and the
      promotion letter. */
  function MoveTextPromotion(from: bv8, to: bv8, promotionPiece: bv8): (t: string)
    requires from < 64 && to < 64 && promotionPiece < 4
    ensures |t| == 5 && t[..4] == MoveText(from, to)
    ensures t[4] == PROMOTION_LETTERS[promotionPiece as int]
  {
    MoveText(from, to) + [PROMOTION_LETTERS[promotionPiece as int]]
  }

  /** `getMoveNotation(Move)`: a promotion letter is added exactly when the
      move type is PROMOTION. */
  function MoveTextOf(m: Move): (t: string)
    ensures |t| == 5 <==> GetMoveType(m) == PROMOTION
    ensures |t| == 4 <==> GetMoveType(m) != PROMOTION
    ensures t[..4] == MoveText(GetFrom(m), GetTo(m))
  {
    if GetMoveType(m) == PROMOTION then MoveTextPromotion(GetFrom(m), GetTo(m), GetPromotionPiece(m))
    else MoveText(GetFrom(m), GetTo(m))
  }

  /** A byte from the square parser, whose result is already narrowed. */
  function SquareByte(t: string): (b: bv8)
    requires |t| >= 2
    ensures b as int == Notation.FromSquareNotation(t)
  {
    Bytes.ByteOf(Notation.FromSquareNotation(t))
  }

  /** Both square fields of a move text parse to board squares. */
  predicate ValidSquares(t: string)
    requires |t| >= 4
  {
    Notation.FromSquareNotation(t[0..2]) < 64 && Notation.FromSquareNotation(t[2..4]) < 64
  }

  /** `fromMoveNotation`: the squares from characters 0-1 and 2-3; with
      exactly five characters the last must be q, r, b or n (anything else
      trips an assertion and yields 0); otherwise a normal move. With zero or
      one character `substr(2, 2)` throws `std::out_of_range`; with two or
      three the view is read past its end; neither is modelled. */
  function FromMoveText(t: string): (m: Move)
    requires |t| >= 4
    ensures |t| == 5 && t[4] !in PROMOTION_LETTERS ==> m == 0
    ensures |t| == 5 && t[4] in PROMOTION_LETTERS && ValidSquares(t) ==>
      (GetMoveType(m) == PROMOTION && PROMOTION_LETTERS[GetPromotionPiece(m) as int] == t[4])
    ensures |t| != 5 && ValidSquares(t) ==> GetMoveType(m) == NORMAL && GetPromotionPiece(m) == 0
    ensures (|t| != 5 || t[4] in PROMOTION_LETTERS) && ValidSquares(t) ==>
      (GetFrom(m) as int == Notation.FromSquareNotation(t[0..2])
       && GetTo(m) as int == Notation.FromSquareNotation(t[2..4]))
  {
    var from := SquareByte(t[0..2]);
    var to := SquareByte(t[2..4]);
    if |t| == 5 then
      match t[4]
      case 'q' => EncodePromotion(from, to, QUEEN_PROMOTION)
      case 'r' => EncodePromotion(from, to, ROOK_PROMOTION)
      case 'b' => EncodePromotion(from, to, BISHOP_PROMOTION)
      case 'n' => EncodePromotion(from, to, KNIGHT_PROMOTION)
      case _ => 0
    else EncodeMove(from, to)
  }

  /** Reading back a promotion's text restores the move exactly. */
  lemma TextRoundTripPromotion(m: Move)
    requires GetMoveType(m) == PROMOTION
    ensures FromMoveText(MoveTextOf(m)) == m
  {
    var t := MoveTextOf(m);
    SquaresOfText(m);
    PromotionLetterOfText(m);
    ReadPromotionText(t);
    EncodeDecodePromotion(m);
  }

  /** The value of a promotion letter. */
  function LetterValue(c: char): (pp: bv8)
    requires c in PROMOTION_LETTERS
    ensures pp < 4 && PROMOTION_LETTERS[pp as int] == c
  {
    if c == 'q' then QUEEN_PROMOTION
    else if c == 'r' then ROOK_PROMOTION
    else if c == 'b' then BISHOP_PROMOTION
    else KNIGHT_PROMOTION
  }

  lemma PromotionLetterOfText(m: Move)
    requires GetMoveType(m) == PROMOTION
    ensures |MoveTextOf(m)| == 5 && MoveTextOf(m)[4] in PROMOTION_LETTERS
    ensures LetterValue(MoveTextOf(m)[4]) == GetPromotionPiece(m)
  {
  }

  /** A five-character text ending in a promotion letter reads as that
      promotion between its two squares. */
  lemma ReadPromotionText(t: string)
    requires |t| == 5 && t[4] in PROMOTION_LETTERS
    ensures FromMoveText(t) == EncodePromotion(SquareByte(t[0..2]), SquareByte(t[2..4]), LetterValue(t[4]))
  {
  }

  /** Reading back the text of any other move gives the normal move between
      the same squares: the en-passant and castling type bits are not in
      the text and are lost. */
  lemma TextRoundTripOther(m: Move)
    requires GetMoveType(m) != PROMOTION
    ensures FromMoveText(MoveTextOf(m)) == EncodeMove(GetFrom(m), GetTo(m))
  {
    OtherTextLength(m);
    SquaresOfText(m);
    ReadBack(MoveTextOf(m), GetFrom(m), GetTo(m));
  }

  /** A normal move survives the trip through its text exactly. */
  lemma TextRoundTripNormal(m: Move)
    requires GetMoveType(m) == NORMAL && GetPromotionPiece(m) == 0
    ensures FromMoveText(MoveTextOf(m)) == m
  {
    TextRoundTripOther(m);
    EncodeDecodeNormal(m);
  }

  lemma OtherTextLength(m: Move)
    requires GetMoveType(m) != PROMOTION
    ensures |MoveTextOf(m)| == 4
  {
  }

  lemma ReadBack(t: string, f: bv8, g: bv8)
    requires |t| == 4 && SquareByte(t[0..2]) == f && SquareByte(t[2..4]) == g
    ensures FromMoveText(t) == EncodeMove(f, g)
  {
    ReadNormalText(t);
  }

  /** The square fields of a move's text parse back to its squares. */
  lemma SquaresOfText(m: Move)
    ensures SquareByte(MoveTextOf(m)[0..2]) == GetFrom(m)
    ensures SquareByte(MoveTextOf(m)[2..4]) == GetTo(m)
  {
    var t, f, g := MoveTextOf(m), GetFrom(m), GetTo(m);
    assert |t| >= 4 && t[..4] == MoveText(f, g);
    TextSquares(t, f, g);
    SquareByteOf(t[0..2], f);
    SquareByteOf(t[2..4], g);
  }

  lemma SquareByteOf(t: string, f: bv8)
    requires |t| >= 2 && Notation.FromSquareNotation(t) == f as int
    ensures SquareByte(t) == f
  {
    Bytes.ByteOfValue(f);
  }

  lemma TextSquares(t: string, f: bv8, g: bv8)
    requires f < 64 && g < 64 && |t| >= 4 && t[..4] == MoveText(f, g)
    ensures Notation.FromSquareNotation(t[0..2]) == f as int
    ensures Notation.FromSquareNotation(t[2..4]) == g as int
  {
    SquareValue(f);
    SquareValue(g);
    var u := MoveText(f, g);
    assert t[0..2] == u[..2] && t[2..4] == u[2..];
    PrefixSquares(t[0..2], f as int);
    PrefixSquares(t[2..4], g as int);
  }

  lemma SquareValue(f: bv8)
    requires f < 64
    ensures 0 <= f as int < 64
  {
  }

  /** The name of a square parses to that square. */
  lemma PrefixSquares(t: string, a: int)
    requires 0 <= a < 64 && t == Notation.SquareNotation(a)
    ensures |t| >= 2 && Notation.FromSquareNotation(t) == a
  {
    Notation.SquareRoundTrip(a);
  }

  /** A well-formed move text is the text of the move read from it. */
  lemma MoveTextRoundTrip(t: string)
    requires |t| == 4 || (|t| == 5 && t[4] in PROMOTION_LETTERS)
    requires Notation.IsFileChar(t[0]) && Notation.IsRankChar(t[1])
    requires Notation.IsFileChar(t[2]) && Notation.IsRankChar(t[3])
    ensures MoveTextOf(FromMoveText(t)) == t
  {
    if |t| == 4 {
      NormalTextRoundTrip(t);
    } else {
      PromotionTextRoundTrip(t);
    }
  }

  lemma NormalTextRoundTrip(t: string)
    requires |t| == 4
    requires Notation.IsFileChar(t[0]) && Notation.IsRankChar(t[1])
    requires Notation.IsFileChar(t[2]) && Notation.IsRankChar(t[3])
    ensures MoveTextOf(FromMoveText(t)) == t
  {
    var a, b := SquareByte(t[0..2]), SquareByte(t[2..4]);
    NamesOfText(t);
    ReadNormalText(t);
    TextOfEncoded(a, b);
    WholePrefix(t);
  }

  lemma PromotionTextRoundTrip(t: string)
    requires |t| == 5 && t[4] in PROMOTION_LETTERS
    requires Notation.IsFileChar(t[0]) && Notation.IsRankChar(t[1])
    requires Notation.IsFileChar(t[2]) && Notation.IsRankChar(t[3])
    ensures MoveTextOf(FromMoveText(t)) == t
  {
    NamesOfText(t);
    ReadPromotionText(t);
    TextOfEncodedPromotion(SquareByte(t[0..2]), SquareByte(t[2..4]), LetterValue(t[4]));
    LastOfFive(t);
  }

  /** The square fields of a text made of two names parse to the squares
      whose names they are. */
  lemma NamesOfText(t: string)
    requires |t| >= 4
    requires Notation.IsFileChar(t[0]) && Notation.IsRankChar(t[1])
    requires Notation.IsFileChar(t[2]) && Notation.IsRankChar(t[3])
    ensures SquareByte(t[0..2]) < 64 && SquareByte(t[2..4]) < 64
    ensures MoveText(SquareByte(t[0..2]), SquareByte(t[2..4])) == t[..4]
  {
    var x, y := t[0..2], t[2..4];
    NamesOfTextInt(t);
    ByteBelow(SquareByte(x), Notation.FromSquareNotation(x));
    ByteBelow(SquareByte(y), Notation.FromSquareNotation(y));
  }

  lemma NamesOfTextInt(t: string)
    requires |t| >= 4
    requires Notation.IsFileChar(t[0]) && Notation.IsRankChar(t[1])
    requires Notation.IsFileChar(t[2]) && Notation.IsRankChar(t[3])
    ensures Notation.FromSquareNotation(t[0..2]) < 64 && Notation.FromSquareNotation(t[2..4]) < 64
    ensures Notation.SquareNotation(Notation.FromSquareNotation(t[0..2]))
      + Notation.SquareNotation(Notation.FromSquareNotation(t[2..4])) == t[..4]
  {
    Notation.NameRoundTrip(t[0..2]);
    Notation.NameRoundTrip(t[2..4]);
    assert t[..4] == t[0..2] + t[2..4];
  }

  /** A byte whose value is below 64 compares below 64. */
  lemma ByteBelow(b: bv8, n: int)
    requires b as int == n && n < 64
    ensures b < 64
  {
  }

  /** A four-character text reads as the normal move between its squares. */
  lemma ReadNormalText(t: string)
    requires |t| == 4
    ensures FromMoveText(t) == EncodeMove(SquareByte(t[0..2]), SquareByte(t[2..4]))
  {
  }

  /** The text of an encoded normal move names its two squares. */
  lemma TextOfEncoded(a: bv8, b: bv8)
    requires a < 64 && b < 64
    ensures MoveTextOf(EncodeMove(a, b)) == MoveText(a, b)
  {
    var m := EncodeMove(a, b);
    assert GetFrom(m) == a && GetTo(m) == b && GetMoveType(m) == NORMAL;
  }

  /** The text of an encoded promotion names its squares and its piece. */
  lemma TextOfEncodedPromotion(a: bv8, b: bv8, pp: bv8)
    requires a < 64 && b < 64 && pp < 4
    ensures MoveTextOf(EncodePromotion(a, b, pp)) == MoveText(a, b) + [PROMOTION_LETTERS[pp as int]]
  {
    var m := EncodePromotion(a, b, pp);
    assert GetFrom(m) == a && GetTo(m) == b && GetMoveType(m) == PROMOTION && GetPromotionPiece(m) == pp;
  }

  lemma WholePrefix(t: string)
    ensures t[..|t|] == t
  {
  }

  lemma LastOfFive(t: string)
    requires |t| == 5
    ensures t == t[..4] + [t[4]]
  {
  }

  // ---------------------------------------------------------------------
  // 32-bit packers

  /** An `int` value as the 32 bits C++ works with (two's complement). */
  function Word(x: int): (w: bv32)
    requires IsByteField(x)
    ensures 0 <= x ==> w < 128 && w as int == x
    ensures x < 0 ==> w == 0xFFFF_FFFF
  {
    if x >= 0 then Count(x) else 0xFFFF_FFFF
  }

  /** The 32-bit word whose value is `n`, counted up one at a time. */
  function Count(n: nat): (w: bv32)
    requires n < 128
    ensures w as int == n && w < 128
  {
    if n == 0 then 0 else CountStep(Count(n - 1)); Count(n - 1) + 1
  }

  /** Adding one to a word below 127 adds one to its value. */
  lemma CountStep(x: bv32)
    requires x < 127
    ensures (x + 1) as int == x as int + 1 && x + 1 < 128
  {
  }

  /** `encodeMove(Move*)` of src/utils.h: promotion piece, piece, to and from
      in bytes 3, 2, 1 and 0. The fields are `int8_t` squares and piece
      enumerations whose EMPTY value is -1, all widened to `int` before the
      shifts. */
  function EncodeMove32(from: int, to: int, piece: int, promotionPiece: int): (code: bv32)
    requires IsByteField(from) && IsByteField(to) && IsByteField(piece) && IsByteField(promotionPiece)
  {
    (Word(promotionPiece) << 24) | (Word(piece) << 16) | (Word(to) << 8) | Word(from)
  }

  /** A field that fits the packing: a non-negative value below 128, or -1
      (EMPTY) for the promotion piece. */
  predicate IsByteField(x: int) { -1 <= x < 128 }

  /** With non-negative from, to and piece, each byte holds its field, and
      an EMPTY promotion piece reads back as 255. */
  lemma EncodeMove32Fields(from: int, to: int, piece: int, promotionPiece: int)
    requires 0 <= from < 128 && 0 <= to < 128 && 0 <= piece < 128 && IsByteField(promotionPiece)
    ensures var code := EncodeMove32(from, to, piece, promotionPiece);
      BitField(code, 0, 0xFF) == from && BitField(code, 8, 0xFF) == to && BitField(code, 16, 0xFF) == piece
      && BitField(code, 24, 0xFF) == promotionPiece % 256
  {
    var f, t, p, q := Word(from), Word(to), Word(piece), Word(promotionPiece);
    var code := EncodeMove32(from, to, piece, promotionPiece);
    PackedBytes(f, t, p, q);
    FieldValue(code, 0, 0xFF, f, from);
    FieldValue(code, 8, 0xFF, t, to);
    FieldValue(code, 16, 0xFF, p, piece);
    if promotionPiece >= 0 {
      FieldValue(code, 24, 0xFF, q, promotionPiece);
    } else {
      FieldValue(code, 24, 0xFF, 0xFF, 255);
    }
  }

  /** The bit-level fact behind `EncodeMove32Fields`. */
  lemma PackedBytes(f: bv32, t: bv32, p: bv32, q: bv32)
    requires f < 128 && t < 128 && p < 128 && (q < 128 || q == 0xFFFF_FFFF)
    ensures var code := (q << 24) | (p << 16) | (t << 8) | f;
      (code >> 0) & 0xFF == f && (code >> 8) & 0xFF == t && (code >> 16) & 0xFF == p
      && (code >> 24) & 0xFF == (if q < 128 then q else 0xFF)
  {
  }

  /** Different moves get different codes. */
  lemma EncodeMove32Injective(a: seq<int>, b: seq<int>)
    requires |a| == 4 && |b| == 4
    requires 0 <= a[0] < 128 && 0 <= a[1] < 128 && 0 <= a[2] < 128 && IsByteField(a[3])
    requires 0 <= b[0] < 128 && 0 <= b[1] < 128 && 0 <= b[2] < 128 && IsByteField(b[3])
    requires EncodeMove32(a[0], a[1], a[2], a[3]) == EncodeMove32(b[0], b[1], b[2], b[3])
    ensures a == b
  {
    EncodeMove32Fields(a[0], a[1], a[2], a[3]);
    EncodeMove32Fields(b[0], b[1], b[2], b[3]);
  }

  /** `encodeMove` of utils.cpp: from at bit 0, to at bit 7, piece at bit 15
      and promotion piece at bit 20, narrowed to `uint32_t`. */
  function EncodeMoveOld(from: int, to: int, piece: int, promotionPiece: int): (code: bv32)
    requires IsByteField(from) && IsByteField(to) && IsByteField(piece) && IsByteField(promotionPiece)
  {
    (Word(promotionPiece) << 20) | (Word(piece) << 15) | (Word(to) << 7) | Word(from)
  }

  /** The bits of a packed word selected by `mask` after a shift. */
  function BitField(code: bv32, shift: bv32, mask: bv32): nat
    requires shift < 32
  {
    ((code >> shift) & mask) as nat
  }

  /** With squares below 64 and a piece below 32, every field can be read
      back; an EMPTY (-1) promotion piece, the one of every move that is not
      a promotion, fills bits 20-31 and reads back as 4095 without
      disturbing the other fields. */
  lemma EncodeMoveOldFields(from: int, to: int, piece: int, promotionPiece: int)
    requires 0 <= from < 64 && 0 <= to < 64 && 0 <= piece < 32 && IsByteField(promotionPiece)
    ensures var code := EncodeMoveOld(from, to, piece, promotionPiece);
      BitField(code, 0, 0x7F) == from && BitField(code, 7, 0xFF) == to
      && BitField(code, 15, 0x1F) == piece && BitField(code, 20, 0xFFF) == promotionPiece % 4096
  {
    var f, t, p, q := Word(from), Word(to), Word(piece), Word(promotionPiece);
    var code := EncodeMoveOld(from, to, piece, promotionPiece);
    PackedOld(f, t, p, q);
    FieldValue(code, 0, 0x7F, f, from);
    FieldValue(code, 7, 0xFF, t, to);
    FieldValue(code, 15, 0x1F, p, piece);
    if promotionPiece >= 0 {
      FieldValue(code, 20, 0xFFF, q, promotionPiece);
    } else {
      FieldValue(code, 20, 0xFFF, 0xFFF, 4095);
    }
  }

  lemma FieldValue(code: bv32, shift: bv32, mask: bv32, w: bv32, x: int)
    requires shift < 32 && (code >> shift) & mask == w && w as int == x
    ensures BitField(code, shift, mask) == x
  {
  }

  /** The bit-level fact behind `EncodeMoveOldFields`. */
  lemma PackedOld(f: bv32, t: bv32, p: bv32, q: bv32)
    requires f < 64 && t < 64 && p < 32 && (q < 128 || q == 0xFFFF_FFFF)
    ensures var code := (q << 20) | (p << 15) | (t << 7) | f;
      (code >> 0) & 0x7F == f && (code >> 7) & 0xFF == t && (code >> 15) & 0x1F == p
      && (code >> 20) & 0xFFF == (if q < 128 then q else 0xFFF)
  {
  }
}
