/** Square names in algebraic notation, "a1" .. "h8": file letter then rank
    digit. The same conversion appears as `getNotation` in src/utils.cpp and
    utils.cpp, as `getSquareNotation`/`fromSquareNotation` in src/move.cpp,
    and as `getSquareFromString` in src/utils.cpp. */
module Notation {
  import opened Types
  import opened Machine

  predicate IsFileChar(c: char) { 'a' <= c <= 'h' }
  predicate IsRankChar(c: char) { '1' <= c <= '8' }

  /** The reference name of a square: its file letter and rank digit. */
  predicate NamesSquare(t: string, sq: Square)
  {
    |t| == 2 && t[0] as int == 'a' as int + sq % 8 && t[1] as int == '1' as int + sq / 8
  }

  /** `getNotation(int8_t square)`: the characters `square % 8 + 'a'` and
      `square / 8 + '1'` with C++ truncating arithmetic, defined for every
      `int8_t` (negative squares give characters outside a..h and 1..8). */
  function SquareText(square: int): (t: string)
    requires IsInt8(square)
    ensures |t| == 2
    ensures 0 <= square < 64 ==> NamesSquare(t, square)
    ensures 0 <= square < 64 ==> IsFileChar(t[0]) && IsRankChar(t[1])
    ensures square < 0 ==> t[0] as int <= 'a' as int && t[1] as int <= '1' as int
  {
    [(TruncMod(square, 8) + 'a' as int) as char, (TruncDiv(square, 8) + '1' as int) as char]
  }

  /** `getSquareNotation(Square)` of src/move.cpp, which asserts that the
      square is on the board. */
  function SquareNotation(sq: Square): (t: string)
    ensures NamesSquare(t, sq)
  {
    SquareText(sq)
  }

  /** The character at `i`, or the terminating NUL that `std::string`
      yields at index `size()`. */
  function CharAt(s: string, i: nat): char
    requires i <= |s|
  {
    if i < |s| then s[i] else 0 as char
  }

  /** `getSquareFromString` of src/utils.cpp: `file + rank * 8` from the
      first two characters, narrowed to `int8_t`. The argument is a
      `std::string`, so a one-character text reads the terminating NUL. */
  function SquareFromString(s: string): (sq: int)
    requires |s| >= 1
    ensures IsInt8(sq)
    ensures |s| >= 2 && IsFileChar(s[0]) && IsRankChar(s[1]) ==>
      0 <= sq < 64 && NamesSquare(s[..2], sq)
  {
    ToInt8((s[0] as int - 'a' as int) + (CharAt(s, 1) as int - '1' as int) * 8)
  }

  /** `fromSquareNotation` of src/move.cpp: file and rank narrowed to
      `uint8_t`, their combination narrowed again. A `string_view` has no
      terminator, so two characters are needed. */
  function FromSquareNotation(s: string): (sq: int)
    requires |s| >= 2
    ensures 0 <= sq < 256
    ensures IsFileChar(s[0]) && IsRankChar(s[1]) ==> sq < 64 && NamesSquare(s[..2], sq)
  {
    ToUint8(ToUint8(s[0] as int - 'a' as int) + ToUint8(s[1] as int - '1' as int) * 8)
  }

  /** Parsing a square's name gives the square back, with either parser. */
  lemma SquareRoundTrip(sq: Square)
    ensures SquareFromString(SquareText(sq)) == sq
    ensures FromSquareNotation(SquareNotation(sq)) == sq
  {
    var t := SquareText(sq);
    assert t[..2] == t;
  }

  /** Naming a parsed name gives the name back: the two directions make the
      conversion a bijection between squares and names. */
  lemma NameRoundTrip(t: string)
    requires |t| == 2 && IsFileChar(t[0]) && IsRankChar(t[1])
    ensures 0 <= FromSquareNotation(t) < 64
    ensures SquareNotation(FromSquareNotation(t)) == t
    ensures SquareFromString(t) == FromSquareNotation(t)
  {
    assert t[..2] == t;
  }

  /** Different squares have different names. */
  lemma SquareTextInjective(a: Square, b: Square)
    requires SquareText(a) == SquareText(b)
    ensures a == b
  {
    SquareRoundTrip(a);
    SquareRoundTrip(b);
  }

  /** `std::to_string` of an integer: decimal digits, with a leading minus
      sign for negative values. */
  function Decimal(n: int): (t: string)
    ensures 0 <= n < 10 ==> t == [('0' as int + n) as char]
    ensures |t| >= 1
    ensures n >= 0 ==> forall i :: 0 <= i < |t| ==> '0' <= t[i] <= '9'
    ensures n < 0 ==> t[0] == '-'
    decreases if n < 0 then 1 - n else n
  {
    if n < 0 then "-" + Digits(-n)
    else Digits(n)
  }

  function Digits(n: nat): (t: string)
    ensures 0 <= n < 10 ==> t == [('0' as int + n) as char]
    ensures |t| >= 1 && forall i :: 0 <= i < |t| ==> '0' <= t[i] <= '9'
    ensures n >= 10 ==> |t| >= 2
  {
    if n < 10 then [('0' as int + n) as char]
    else Digits(n / 10) + [('0' as int + n % 10) as char]
  }
}

/** The board cell of the first prototype (tile.cpp, tile.h): a column `x`
    and a row `y` counted from the top, the piece standing on it and the
    pawn that may be captured en passant through it. Pieces are held by
    reference; the model names them by an opaque identity. */
module Tile {
  import Notation
  import opened Wrappers

  type PieceRef = nat

  datatype Tile = Tile(x: int, y: int, piece: Option<PieceRef>, enPassantTarget: Option<PieceRef>)

  /** `Tile()`: the cell (0, 0) with nothing on it. */
  function NewTile(): (t: Tile)
    ensures t.x == 0 && t.y == 0 && t.piece.None? && t.enPassantTarget.None?
  {
    Tile(0, 0, None, None)
  }

  /** `Tile(x, y)` and `Tile(piece, x, y)`. */
  function NewTileAt(x: int, y: int, piece: Option<PieceRef>): (t: Tile)
    ensures GetX(t) == x && GetY(t) == y && GetPiece(t) == piece && t.enPassantTarget.None?
  {
    Tile(x, y, piece, None)
  }

  function GetX(t: Tile): int { t.x }
  function GetY(t: Tile): int { t.y }
  function GetPiece(t: Tile): Option<PieceRef> { t.piece }
  function GetEnPassantTarget(t: Tile): Option<PieceRef> { t.enPassantTarget }

  function SetPiece(t: Tile, p: Option<PieceRef>): (u: Tile)
    ensures GetPiece(u) == p
    ensures GetX(u) == GetX(t) && GetY(u) == GetY(t) && GetEnPassantTarget(u) == GetEnPassantTarget(t)
  {
    t.(piece := p)
  }

  function SetEnPassantTarget(t: Tile, p: Option<PieceRef>): (u: Tile)
    ensures GetEnPassantTarget(u) == p
    ensures GetX(u) == GetX(t) && GetY(u) == GetY(t) && GetPiece(u) == GetPiece(t)
  {
    t.(enPassantTarget := p)
  }

  /** `Tile::getNotation`: the file letter of column `x` followed by the
      decimal value of `8 - y`; any column outside 0..7 gives "error". */
  function TileNotation(t: Tile): (s: string)
    ensures !(0 <= t.x < 8) ==> s == "error"
    ensures 0 <= t.x < 8 ==> |s| >= 2 && s[0] as int == 'a' as int + t.x && s[1..] == Notation.Decimal(8 - t.y)
  {
    if 0 <= t.x < 8 then [('a' as int + t.x) as char] + Notation.Decimal(8 - t.y)
    else "error"
  }

  /** On the board, a tile's name is the name of the square it stands for:
      row `y` from the top is rank `8 - y`. */
  lemma TileNotationIsSquareName(t: Tile)
    requires 0 <= t.x < 8 && 0 <= t.y < 8
    ensures TileNotation(t) == Notation.SquareNotation(t.x + 8 * (7 - t.y))
  {
    var sq := t.x + 8 * (7 - t.y);
    assert sq % 8 == t.x && sq / 8 == 7 - t.y;
  }
}
