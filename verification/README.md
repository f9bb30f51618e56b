# Zagreus core in Dafny

This project models the core of the Zagreus UCI chess engine as pure Dafny
definitions and proves properties of them. It covers:

- **Pieces and moves** (`types.dfy`, `notation.dfy`, `move_codec.dfy`).
  The `Piece`/`PieceColor`/`PieceType` enumerations, square notation and
  tiles, and the 16-bit move encoding with its text form (`e7e8q`).
  It also covers the older 32-bit move packings.
- **Bitboard utilities** (`bits.dfy`, `machine.dfy`, `attacks.dfy`,
  `between.dfy`, `magics.dfy`, `occupancy.dfy`). Bit scans and pop
  counts, shifts with file masks, the knight/king/pawn attack tables,
  ray and between tables, the magic-bitboard index, and the C++
  integer-width conversions the engine relies on (`int8_t`, `uint8_t`,
  truncating division and remainder).
- **The board** (`board.dfy`, `make_move.dfy`, `move_proofs.dfy`,
  `fen_load.dfy`, `fen.dfy`). Piece placement, the incremental Zobrist
  key, make/unmake/null move with the undo records, draw detection,
  FEN loading, and the FEN mirroring of the engine and its helper script.
- **Evaluation** (`eval.dfy`, `evaluate.dfy`, `pst.dfy`, `features.dfy`).
  The tapered material-and-PST evaluator of the current engine, the older
  full evaluator with its piece terms, the piece-square tables, and the
  tuner's feature vector with `updateEvalValues`.
- **Move generation and ordering** (`movegen.dfy`, `picker.dfy`,
  `containers.dfy`). Pseudo-legal generation with evasion targets,
  castling and promotions, move scoring, the selection-sort move picker,
  the move-list pool, and the undo and move stacks.
- **Transposition table and UCI** (`tt.dfy`, `uci.dfy`). Storing and
  probing with mate-score adjustment, table sizing and history ageing,
  whitespace normalisation, `setoption` parsing, option text, and command
  dispatch.

`wrappers.dfy` holds the `Option` type used for absent values.

Bitboards are modelled as `set<Square>` when the reasoning is about
squares and as `bv64` when it is about bit tricks; the lemmas in `bits.dfy`,
`between.dfy` and `occupancy.dfy` connect the two. The Zobrist key is
modelled as the set of tokens (piece on square, side, castling right,
en-passant square) whose random values are XOR-ed together, so XOR-ing a
token in and out is set insertion and removal.

## Model

| member | source | states |
|---|---|---|
| `Types.PieceOfRoundTrip` | src/types.h:40-54 | in the `Piece` enumeration each kind's white piece has an even code and its black twin the next odd code, so colour and kind can be read back from any piece built from them |
| `Types.Twin` | src/types.h:40-54 | the twin of a piece has the same kind and the other colour |
| `Types.Opposite` | src/types.h:56-58 | `operator!` gives BLACK exactly for WHITE; for BLACK and for EMPTY it gives WHITE, so it always returns a real colour |
| `Types.OppositeInvolution` | src/types.h:56-58 | on WHITE and BLACK, `operator!` is its own inverse and has no fixed point |
| `Types.OppositeByXor` | src/utils.h:29-31 | `getOppositeColor` swaps WHITE and BLACK and turns EMPTY (255) into 254 |
| `Types.OppositeByXorFacts` | src/utils.h:29-31 | on the two real colours, `getOppositeColor` agrees with `operator!`; XOR with 1 undoes itself on every byte |
| `Types.PieceColorAsWritten` | src/types.h:60-62 | `pieceColor` as written returns the code divided by two |
| `Types.PieceTypeAsWritten` | src/types.h:64-66 | `pieceType` as written returns the code's parity |
| `Types.PieceColorAsWrittenIsWrong` | src/types.h:60-66 | as written, the black pawn is reported WHITE, the white knight BLACK and the black king as colour 5, and the white rook has kind PAWN |
| `Types.PieceColorCorrected` | src/types.h:60-66 | the intended pair: the remainder gives the colour and the quotient the kind, for every one of the twelve pieces |
| `Types.PieceTypeCorrected` | src/types.h:64-66 | the intended `pieceType` is the index of the piece's kind |
| `Types.PieceWeight` | src/utils.h:33-34 | `getPieceWeight` gives 100, 350, 350, 525, 1000 and 65535 for pawn, knight, bishop, rook, queen and king |
| `Types.WeightColourBlind` | src/utils.h:33-34 | both pieces of a kind weigh the same |
| `Types.ClassifyByKind` | src/utils.h:65-96 | each of `isPawn` to `isKing` holds of a piece exactly when it has that kind; `isSlidingPiece` holds exactly for bishops, rooks and queens; `isNotPawnOrKing` holds exactly for knights, bishops, rooks and queens |
| `Types.ClassifyEmpty` | src/utils.h:65-96 | EMPTY is not a pawn, not a king and not a sliding piece, but it is "not pawn or king" |
| `Types.PieceChar` | src/utils.cpp:44-73 | `getCharacterForPieceType` gives an upper-case letter exactly for white pieces and the lower-case `pnbrqk` letter of the kind for black ones; the white letter is the black letter shifted to upper case; EMPTY gives a space |
| `Types.PieceCharInjective` | src/utils.cpp:44-73 | different piece codes, EMPTY included, get different characters |
| `Notation.SquareText` | src/utils.cpp:28-35 | `getNotation` gives two characters for every `int8_t` square; on the board they are the file letter and the rank digit; for a negative square both fall at or below `a` and `1`, because C++ division truncates |
| `Notation.SquareNotation` | src/move.cpp:102-110 | `getSquareNotation` names an on-board square by its file letter and rank digit |
| `Notation.SquareFromString` | src/utils.cpp:37-42 | `getSquareFromString` of a file letter and a rank digit is the square they name; on every other input the result is some `int8_t` |
| `Notation.FromSquareNotation` | src/move.cpp:112-117 | `fromSquareNotation` always returns a byte; for a file letter and a rank digit it is the square they name |
| `Notation.SquareRoundTrip` | src/move.cpp:102-117 | parsing a square's name gives the square back, with either parser |
| `Notation.NameRoundTrip` | src/utils.cpp:37-42 | the name of a parsed two-character name is that name; both parsers agree on names |
| `Notation.SquareTextInjective` | src/utils.cpp:28-35 | different squares have different names |
| `Notation.Decimal` | tile.cpp:34-52 | the `std::to_string` used by `getNotation` writes a one-digit value as that digit, writes only digits for a non-negative value, and starts a negative value with a minus sign |
| `Tile.NewTile` | tile.h:23-26 | the default tile is at (0, 0) with no piece and no en-passant target |
| `Tile.NewTileAt` | tile.h:28-37 | the constructors store the coordinates and the piece they are given |
| `Tile.SetPiece` | tile.cpp:14-16 | after `setPiece`, `getPiece` returns the new piece and the other fields are unchanged |
| `Tile.SetEnPassantTarget` | tile.cpp:30-32 | after `setEnPassantTarget`, `getEnPassantTarget` returns the new target and the other fields are unchanged |
| `Tile.TileNotation` | tile.cpp:34-55 | for a column 0..7 the name is that file's letter followed by the decimal value of `8 - y`; for any other column it is "error" |
| `Tile.TileNotationIsSquareName` | tile.cpp:34-52 | on the board a tile's name is the name of the square it stands for, with row `y` from the top being rank `8 - y` |
| `MoveCodec.GetFrom` | src/move.h:83-85 | `getFromSquare` is always a square below 64 |
| `MoveCodec.GetTo` | src/move.h:87-89 | `getToSquare` is always a square below 64 |
| `MoveCodec.GetMoveType` | src/move.h:91-93 | `getMoveType` is always one of the four move types |
| `MoveCodec.GetPromotionPiece` | src/move.h:95-97 | `getPromotionPiece` is always one of the four promotion values |
| `MoveCodec.EncodeMove` | src/move.h:70-73 | `encodeMove(from, to)` on board squares decodes to the same squares, type NORMAL and promotion 0; bits 12-15 are zero |
| `MoveCodec.EncodeTyped` | src/move.h:75-77 | `encodeMove(from, to, moveType)` decodes to the same squares and move type, with promotion 0 |
| `MoveCodec.EncodePromotion` | src/move.h:79-81 | `encodeMove(from, to, promotionPiece)` decodes to the same squares and promotion piece, with type PROMOTION |
| `MoveCodec.EncodeDecodeTyped` | src/move.h:75-93 | every move whose promotion bits are zero is the typed encoding of its decoded fields |
| `MoveCodec.EncodeDecodePromotion` | src/move.h:79-97 | every PROMOTION move is the promotion encoding of its decoded fields |
| `MoveCodec.EncodeDecodeNormal` | src/move.h:70-97 | every NORMAL move with zero promotion bits is the two-square encoding of its squares |
| `MoveCodec.EncodeMoveIsNormal` | src/move.h:70-77 | the two-square encoder is the typed encoder at type NORMAL |
| `MoveCodec.PieceFromPromotion` | src/move.h:99-113 | `getPieceFromPromotionPiece` gives the queen, rook, bishop or knight of the given colour; any other promotion value gives EMPTY |
| `MoveCodec.MoveText` | src/move.cpp:26-38 | `getMoveNotation(from, to)` is four characters: the from-square's name, then the to-square's name |
| `MoveCodec.MoveTextPromotion` | src/move.cpp:40-53 | the promotion overload adds the letter `"qrbn"[promotionPiece]` as a fifth character |
| `MoveCodec.MoveTextOf` | src/move.cpp:55-67 | `getMoveNotation(move)` has five characters exactly when the move type is PROMOTION, and otherwise four; it always starts with the two square names |
| `MoveCodec.FromMoveText` | src/move.cpp:69-100 | `fromMoveNotation` with five characters and a last one outside `qrbn` returns 0; with a promotion letter it decodes to PROMOTION and that letter; with any other length it decodes to NORMAL; and in both cases the squares are the parsed square names |
| `MoveCodec.LetterValue` | src/move.cpp:78-90 | the promotion value of `q`, `r`, `b` or `n` is the index of that letter in `"qrbn"` |
| `MoveCodec.TextRoundTripPromotion` | src/move.cpp:40-100 | reading back the text of a PROMOTION move gives the move exactly |
| `MoveCodec.TextRoundTripOther` | src/move.cpp:26-100 | reading back the text of any other move gives the NORMAL move between the same squares, so the en-passant and castling type bits are lost |
| `MoveCodec.TextRoundTripNormal` | src/move.cpp:26-100 | a NORMAL move with zero promotion bits survives the trip through its text exactly |
| `MoveCodec.MoveTextRoundTrip` | src/move.cpp:26-100 | every well-formed move text (two square names and an optional promotion letter) is the text of the move read from it |
| `MoveCodec.EncodeMove32Fields` | src/utils.h:48-53 | with non-negative from, to and piece below 128, bytes 0, 1 and 2 of the 32-bit code hold them, and byte 3 holds the promotion piece modulo 256, so EMPTY (-1) reads back as 255 |
| `MoveCodec.EncodeMove32Injective` | src/utils.h:48-53 | different moves get different 32-bit codes |
| `MoveCodec.EncodeMoveOldFields` | utils.cpp:37-40 | with squares below 64, a piece below 32 and a promotion piece that is a byte field or EMPTY (-1), the fields at bits 0, 7 and 15 read back as given, and bits 20-31 hold the promotion piece modulo 4096, so EMPTY reads back as 4095 |
| `Bits.PopCountZero` | src/bitwise.h:29-35 | `popcnt` is zero exactly for the empty board |
| `Bits.PopCountOne` | src/bitwise.h:29-35 | `popcnt` is one exactly for the boards with one bit set |
| `Bits.PopClear` | src/bitwise.h:59-64 | clearing the lowest set bit with `bb &= bb - 1` lowers `popcnt` by one |
| `Bits.BitscanForward` | src/bitwise.h:37-46 | `bitscanForward` of a non-empty board is the index of its lowest set bit |
| `Bits.BitscanReverse` | src/bitwise.h:48-57 | `bitscanReverse` of a non-empty board is the index of its highest set bit |
| `Bits.LowestIsLowest` | src/bitwise.h:37-46 | the lowest bit is set, and no set bit lies below it |
| `Bits.HighestIsHighest` | src/bitwise.h:48-57 | the highest bit is set, and no set bit lies above it |
| `Bits.LowestUnique` | src/bitwise.h:37-46 | a board has only one lowest set bit |
| `Bits.HighestUnique` | src/bitwise.h:48-57 | a board has only one highest set bit |
| `Bits.ForwardNotAfterReverse` | src/utils.h:38-40 | on a non-empty board the forward scan is never above the reverse scan, and the two are equal exactly when one bit is set |
| `Bits.BitscanForwardOrZero` | utils.cpp:29-31 | the `bitscanForward` of utils.cpp gives 0 for the empty board and the lowest set bit otherwise |
| `Bits.BitscanReverseOrZero` | utils.cpp:33-35 | the `bitscanReverse` of utils.cpp gives 0 for the empty board and the highest set bit otherwise |
| `Bits.PopLsb` | src/bitwise.h:59-64 | `popLsb` returns `bitscanForward(bb)` and leaves the board with exactly that bit cleared and one fewer bit set |
| `Bits.Serialize` | src/bitwise.h:59-64 | a `while (bb) popLsb(bb)` loop runs exactly `popcnt(bb)` times |
| `Bits.SerializeFirst` | src/bitwise.h:59-64 | the first square such a loop visits is the lowest one |
| `Bits.SerializeBoard` | src/bitwise.h:59-64 | the squares the loop visits make up the board again |
| `Bits.SerializeEmpty` | src/bitwise.h:59-64 | the loop visits nothing exactly when the board is empty |
| `Bits.SerializeAscending` | src/bitwise.h:59-64 | the loop visits squares in strictly increasing order |
| `Bits.SerializeMembers` | src/bitwise.h:59-64 | the loop visits a square exactly when its bit is set |
| `Attacks.NortOneHas` | src/bitwise.cpp:41 | `nortOne` moves every square one rank up and drops the eighth rank |
| `Attacks.SoutOneHas` | src/bitwise.cpp:39 | `soutOne` moves every square one rank down and drops the first rank |
| `Attacks.EastOneHas` | src/bitwise.cpp:43 | `eastOne` moves every square one file right; nothing lands on the A-file |
| `Attacks.NoEaOneHas` | src/bitwise.cpp:45 | `noEaOne` moves one step north-east; nothing wraps onto the A-file |
| `Attacks.SoEaOneHas` | src/bitwise.cpp:47 | `soEaOne` moves one step south-east; nothing wraps onto the A-file |
| `Attacks.WestOneHas` | src/bitwise.cpp:49 | `westOne` moves every square one file left; nothing lands on the H-file |
| `Attacks.SoWeOneHas` | src/bitwise.cpp:51 | `soWeOne` moves one step south-west; nothing wraps onto the H-file |
| `Attacks.NoWeOneHas` | src/bitwise.cpp:53 | `noWeOne` moves one step north-west; nothing wraps onto the H-file |
| `Attacks.NoNoEaHas` | src/bitwise.cpp:55 | `noNoEa` is the knight step two up and one right; nothing wraps onto the A-file |
| `Attacks.NoEaEaHas` | src/bitwise.cpp:57 | `noEaEa` is the knight step one up and two right; nothing wraps onto the A- or B-file |
| `Attacks.SoEaEaHas` | src/bitwise.cpp:59 | `soEaEa` is the knight step one down and two right; nothing wraps onto the A- or B-file |
| `Attacks.SoSoEaHas` | src/bitwise.cpp:61 | `soSoEa` is the knight step two down and one right; nothing wraps onto the A-file |
| `Attacks.NoNoWeHas` | src/bitwise.cpp:63 | `noNoWe` is the knight step two up and one left; nothing wraps onto the H-file |
| `Attacks.NoWeWeHas` | src/bitwise.cpp:65 | `noWeWe` is the knight step one up and two left; nothing wraps onto the G- or H-file |
| `Attacks.NortFillHas` | src/bitwise.cpp:67-73 | `nortFill` holds exactly the squares at or above a square of the board on the same file |
| `Attacks.SoutFillHas` | src/bitwise.cpp:75-81 | `soutFill` holds exactly the squares at or below a square of the board on the same file |
| `Attacks.NorthSpanHas` | src/bitwise.cpp:83-87 | a white front span (and a black rear span) is every square strictly above a pawn on its file |
| `Attacks.SouthSpanHas` | src/bitwise.cpp:85-89 | a black front span (and a white rear span) is every square strictly below a pawn on its file |
| `Attacks.NorthRayHas` | src/bitwise.cpp:276-289 | `rayAttacks[NORTH][s]` holds exactly the squares above `s` on its file |
| `Attacks.SouthRayHas` | src/bitwise.cpp:276-289 | `rayAttacks[SOUTH][s]` holds exactly the squares below `s` on its file |
| `Attacks.EastRayHas` | src/bitwise.cpp:276-289 | `rayAttacks[EAST][s]` holds exactly the squares right of `s` on its rank |
| `Attacks.WestRayHas` | src/bitwise.cpp:276-289 | `rayAttacks[WEST][s]` holds exactly the squares left of `s` on its rank |
| `Attacks.NorthEastRayHas` | src/bitwise.cpp:276-289 | `rayAttacks[NORTH_EAST][s]` holds exactly the diagonal squares up and right of `s` |
| `Attacks.NorthWestRayHas` | src/bitwise.cpp:276-289 | `rayAttacks[NORTH_WEST][s]` holds exactly the diagonal squares up and left of `s` |
| `Attacks.SouthEastRayHas` | src/bitwise.cpp:276-289 | `rayAttacks[SOUTH_EAST][s]` holds exactly the diagonal squares down and right of `s` |
| `Attacks.SouthWestRayHas` | src/bitwise.cpp:276-289 | `rayAttacks[SOUTH_WEST][s]` holds exactly the diagonal squares down and left of `s` |
| `Attacks.PawnTableHas` | src/bitwise.cpp:168-183 | `pawnAttacks[color][s]` holds exactly the squares one rank forward and one file aside, for either colour |
| `Attacks.KnightTableHas` | src/bitwise.cpp:185-193 | `knightAttacks[s]` holds exactly the knight-jump squares, with no wrap across the board's edge |
| `Attacks.KingTableHas` | src/bitwise.cpp:195-201 | `kingAttacks[s]` holds exactly the squares next to `s`, never `s` itself |
| `Between.RangeLowest` | src/bitwise.cpp:262-269 | the lowest square of `m1 << from ^ m1 << to` is the lower of the two squares, so `btwn & -btwn` is its one-square board |
| `Between.MulShift` | src/bitwise.cpp:269 | multiplying a board by a one-square board shifts it left by that square |
| `Between.BetweenTableHas` | src/bitwise.cpp:253-274 | `betweenTable[from][to]` holds exactly the squares strictly between the two on a rank, file or diagonal they share, and nothing when they share none |
| `Magics.WalkHas` | src/magics.cpp:105-125 | one loop of the walkers holds exactly the squares of its line, within its limits, that no blocker comes before; the blocker itself is included |
| `Magics.WalkRelevant` | src/magics.cpp:105-125 | a walk with the limits 0..7 depends only on the blockers on its inner squares, those within 1..6 |
| `Magics.OpenWalk` | src/magics.cpp:85-93 | with no blockers a walk holds its whole line within the limits |
| `Magics.RookMaskHas` | src/magics.cpp:85-93 | `rmask(sq)` is the rook's file and rank through `sq`, without `sq` and without the edge squares each ray runs into |
| `Magics.BishopMaskHas` | src/magics.cpp:95-103 | `bmask(sq)` is the bishop's diagonals through `sq`, without `sq` and without the edge of the board |
| `Magics.RookAttacksHas` | src/magics.cpp:105-125 | `ratt(sq, block)` holds exactly the squares along a rook ray from `sq` up to and including the first blocker, and never `sq` |
| `Magics.BishopAttacksHas` | src/magics.cpp:127-147 | `batt(sq, block)` holds exactly the squares along a diagonal from `sq` up to and including the first blocker, and never `sq` |
| `Magics.RookAttacksMasked` | src/magics.cpp:352-387 | rook attacks depend only on the blockers inside the rook mask, so indexing by `block & rmask(sq)` loses nothing |
| `Magics.BishopAttacksMasked` | src/magics.cpp:352-387 | bishop attacks depend only on the blockers inside the bishop mask |
| `Occupancy.CountBits` | src/magics.cpp:185-200 | `count_bits` (and `count_1s`) returns the number of set bits |
| `Occupancy.Ls1bIndex` | src/magics.cpp:203-212 | `get_ls1b_index` is -1 for the empty board and the index of the lowest set bit otherwise |
| `Occupancy.Occupancy` | src/magics.cpp:75-83 | `index_to_uint64_t` always yields a subset of the mask |
| `Occupancy.OccupancyNone` | src/magics.cpp:75-83 | index 0 gives the empty occupancy |
| `Occupancy.OccupancyAll` | src/magics.cpp:75-83 | the index with every bit set gives the whole mask back |
| `Occupancy.OccupancyIndexOf` | src/magics.cpp:75-83 | every subset of the mask is enumerated, at the index `IndexOf` computes |
| `Occupancy.IndexOfOccupancy` | src/magics.cpp:75-83 | `IndexOf` inverts the enumeration: reading back the subset for index `i` gives `i` |
| `Occupancy.OccupancyInjective` | src/magics.cpp:75-83 | different indices below `2^bits` give different subsets, so the `1 << bit_count` variations are all distinct |
| `Occupancy.SetOccupancy` | src/magics.cpp:214-234 | `set_occupancy` computes the same subset as `index_to_uint64_t` |
| `MagicIndex.Transform` | src/magics.cpp:149-155 | `transform` on the 64-bit path yields an index below `2^bits` |
| `MagicIndex.RookIndexInTable` | src/magics.cpp:376-380 | the rook index `occupancy * magic >> (64 - RBits[sq])` lies inside the 4096 entries of `rook_attacks[sq]`, for any magic |
| `MagicIndex.BishopIndexInTable` | src/magics.cpp:368-372 | the bishop index lies inside the 512 entries of `bishop_attacks[sq]`, for any magic |
| `Bitboard.MaskBits` | src/bitboard.cpp:161-219 | the castling byte has a right's bit set exactly when the right is held, and no bit above the four rights |
| `Bitboard.Toggle` | src/bitboard.cpp:87-107 | `hash ^= constant` adds a constant that is absent and removes one that is present, touching no other |
| `Bitboard.ToggleBoth` | src/bitboard.cpp:87-107 | exclusive-oring the same constant into two hashes keeps their difference |
| `Bitboard.PstSumUpdate` | src/bitboard.cpp:87-107 | changing one square's occupant moves a piece-square sum by the difference of the two occupants' values there |
| `Bitboard.PieceTokensUpdate` | src/bitboard.cpp:87-107 | putting a man on an empty square adds its Zobrist constant; emptying a square removes its man's constant |
| `Bitboard.AgreementDetermined` | src/bitboard.cpp:87-107 | the mapping determines every redundant field: two agreeing positions with the same mapping have the same boards, counts and sums |
| `Bitboard.SetPiece` | src/bitboard.cpp:87-96 | `setPiece` writes the mapping at the square and changes only the boards, counts, sums and hash |
| `Bitboard.RemovePiece` | src/bitboard.cpp:98-107 | `removePiece` empties the mapping at the square and changes only the boards, counts, sums and hash |
| `Bitboard.SetPieceAgrees` | src/bitboard.cpp:87-96 | placing a man on an empty square keeps boards, colours, occupancy, counts and sums in agreement with the mapping, and keeps the hash in step |
| `Bitboard.RemovePieceAgrees` | src/bitboard.cpp:98-107 | lifting the man on a square keeps every redundant field in agreement and the hash in step |
| `Bitboard.RemoveAfterSet` | src/bitboard.cpp:87-107 | `removePiece` right after `setPiece` on an empty square restores every field, the hash by the self-inverse exclusive or |
| `Bitboard.SetAfterRemove` | src/bitboard.cpp:87-107 | `setPiece` right after `removePiece` of the man on a square restores every field |
| `Bitboard.InsufficientByCounts` | src/bitboard.cpp:690-711 | on an agreeing position, insufficient material means no pawn, rook or queen and at most one knight or bishop, by the material counts |
| `Bitboard.OccurrencesGrow` | src/bitboard.cpp:660-684 | scanning the whole history never finds fewer repetitions than a window of it |
| `Bitboard.IsDraw` | src/bitboard.cpp:660-684 | `isDraw` holds exactly for a halfmove clock of at least 100, insufficient material, or the current hash found at least three times in the history up to the ply |
| `Bitboard.FileSquares` | src/bitboard.cpp:786-788 | `getFile` holds exactly the squares of the square's file |
| `Bitboard.OpenFileHasNoPawn` | src/bitboard.cpp:830-835 | a file is open exactly when no pawn of either colour stands on it |
| `Moves.MakeMoveMapping` | src/bitboard.cpp:109-236 | after `makeMove` the origin is empty, the destination holds the mover or the promotion piece, a pawn taken en passant and a castling rook's corner are cleared, the rook lands beside the king, and no other square changes |
| `Moves.MakeMoveCounters` | src/bitboard.cpp:120-129 | the halfmove clock restarts on a capture or pawn move and otherwise grows by one; the side flips, the ply grows, the fullmove clock grows after a black move, and the new hash enters the history |
| `Moves.MakeMoveUndo` | src/bitboard.cpp:109-236 | the undo record of the old ply keeps the captured man, the clock, the en-passant square, the rights, the move type, the hash and the previous move; no other record changes |
| `Moves.MakeMoveEnPassant` | src/bitboard.cpp:133-159 | a double pawn push sets the en-passant square to the square it passes, and every other move clears it |
| `Moves.MakeMoveRights` | src/bitboard.cpp:161-219 | a king move drops both of its side's rights, a rook leaving its corner drops that right, and no move grants a right |
| `Moves.MakeMove` | src/bitboard.cpp:109-236 | `makeMove` advances the ply by one, flips the side, records the move as the previous one, enters the new hash in the history at the new ply and keeps the earlier history; the board effects are stated by `Moves.MakeMoveMapping`, `Moves.MakeMoveCounters`, `Moves.MakeMoveUndo`, `Moves.MakeMoveEnPassant`, `Moves.MakeMoveRights` and `MoveProofs.MakeKeepsConsistent` |
| `Moves.MakeNullMove` | src/bitboard.cpp:293-311 | `makeNullMove` writes the undo record of the old ply with no capture and the old clock, en-passant square, rights, hash and previous move, clears the en-passant square, flips the side, advances the ply, records the null move, and changes nothing else but the hash |
| `Moves.UnmakeMove` | src/bitboard.cpp:242-291 | `unmakeMove` restores the clocks, en-passant square, rights, side and previous move from the undo record of the ply before |
| `Moves.NullMoveEffects` | src/bitboard.cpp:293-311 | a null move moves no man, keeps the clocks and rights, clears the en-passant square, passes the turn and advances the ply |
| `Moves.NullMoveRoundTrip` | src/bitboard.cpp:293-322 | `unmakeNullMove` after `makeNullMove` restores the position, apart from the undo record written for it |
| `MoveProofs.MakeKeepsConsistent` | src/bitboard.cpp:109-236 | after a sound move every redundant field still describes the men, the kept hash equals the recomputed one, and the en-passant square is empty or on the board |
| `MoveProofs.MakeUnmakeRoundTrip` | src/bitboard.cpp:242-291 | `unmakeMove(m)` right after `makeMove(m)` gives back the position, apart from the undo record and the cleared history entry of the next ply |
| `FenLoad.Lower` | src/bitboard.cpp:450-452 | `tolower` maps the capitals to the matching small letters and leaves every other character alone |
| `FenLoad.PieceOfChar` | src/bitboard.cpp:713-753 | a FEN letter names the piece whose character it is, and the other characters name none |
| `FenLoad.RightOfChar` | src/bitboard.cpp:461-484 | exactly `K`, `Q`, `k` and `q` grant a castling right, each its own |
| `FenLoad.Cleared` | src/bitboard.cpp:379-417 | the reset leaves no men, colour NONE, no rights, no en-passant square, ply 0, clocks 0 and 1 and a zero hash |
| `FenLoad.ClearedConsistent` | src/bitboard.cpp:379-417 | whatever position came before, the reset one satisfies the representation invariant |
| `FenLoad.Step` | src/bitboard.cpp:429-516 | one character fails exactly on a placement character outside `1-8`, `/` and `'A'..'z'`, a side other than w/b, or a castling character other than `KQkq-`; failure changes nothing |
| `FenLoad.ScanStopsAtComma` | src/bitboard.cpp:425-427 | nothing after the first comma is read |
| `FenLoad.ClockKeepsLast` | src/bitboard.cpp:510-516 | a halfmove or fullmove field leaves the clock at the value of its last character only |
| `FenLoad.LoadConsistent` | src/bitboard.cpp:378-521 | a text read cleanly to the end loads a position satisfying the representation invariant, with its hash as the history entry of ply 0 |
| `Pst.Slot` | src/pst.cpp:184-186 | the flat index of `[piece][square]` lies in the 768-entry table and reads back the piece as quotient and the square as remainder |
| `Pst.Turn` | src/pst.cpp:255 | `63 - square` is the 180 degree turn of the board, a square again |
| `Pst.FilledMirrored` | src/pst.cpp:248-329 | every table `initializePst` fills gives a white piece on `s` the value of its black twin on `63 - s` |
| `Pst.FilledEntries` | src/pst.cpp:254-265 | a white piece on `s` reads its kind's source table at `63 - s` and the black twin reads it at `s` |
| `Pst.FillTable` | src/pst.cpp:248-329 | one table's pass of `initializePst` writes every piece and every square from the source, whatever the table held before |
| `Pst.InitializePst` | src/pst.cpp:248-329 | `initializePst` leaves the four tables determined by the sources alone, so a second call changes nothing |
| `Pst.InitializedMirrored` | src/pst.cpp:248-329 | after `initializePst` all four tables (midgame, endgame and their base copies) are white-black mirrored |
| `Pst.SetMidgameValue` | src/pst.cpp:192-194 | after `setMidgamePstValue` the entry reads back the value, and every other entry of every table is unchanged |
| `Pst.SetEndgameValue` | src/pst.cpp:196-198 | after `setEndgamePstValue` the entry reads back the value, and every other entry of every table is unchanged |
| `Pst.FilledBlackRows` | src/pst.cpp:224-234 | the black rows that `getMidgameValues` lists determine a mirrored table: filling a table from them rebuilds it |
| `Pst.BlackValues` | src/pst.cpp:224-234 | `getMidgameValues` and its siblings list 384 values: the black pieces' rows in piece order, squares 0..63 within each |
| `Pst.InitializeOldPst` | pst.cpp:107-152 | the older `initializePst` fills a mirrored table in which a white piece reads its source at `s` and black at `63 - s` |
| `Pst.OldPstOrientation` | pst.cpp:107-152 | the older table reads the source the other way round from `src/pst.cpp`, and is mirrored all the same |
| `Features.Initial` | src/features.cpp:28-106 | at start-up the 70 weights are the tuned values, the base weights the defaults, and the tables are those `initializePst` builds |
| `Features.EvalFeatureSize` | src/features.cpp:116 | `getEvalFeatureSize` is 70, the length of both weight arrays |
| `Features.Trunc` | src/features.cpp:160 | `static_cast<int>` of a double truncates toward zero: the largest integer not above a non-negative value and the smallest not below a negative one |
| `Features.TruncsReals` | src/features.cpp:137-177 | truncating integers that were widened to doubles gives them back |
| `Features.EvalValues` | src/features.cpp:137-153 | `getEvalValues` lists the 70 weights, then the black pieces' midgame values, then their endgame values, 838 in all |
| `Features.BaseEvalValues` | src/features.cpp:119-135 | `getBaseEvalValues` lists the default weights and the black rows of the two base tables in the same layout |
| `Features.WrittenAll` | src/features.cpp:163-176 | once every kind and square has been written the table is the one filled from the block, black piece at `j` and white twin at `63 - j` |
| `Features.WriteTwins` | src/features.cpp:167-174 | one inner step writes the value to the black piece at `j` and the white twin at `63 - j`, extending what has been written |
| `Features.UpdateSquare` | src/features.cpp:164-175 | the four `set*PstValue` calls of one square extend the written part of both tables and leave the base tables alone |
| `Features.TruncateWeights` | src/features.cpp:159-161 | the first loop of `updateEvalValues` sets each weight to its truncated vector entry |
| `Features.RewriteKind` | src/features.cpp:164-175 | the inner loop completes one kind in both tables |
| `Features.RewriteTables` | src/features.cpp:163-176 | the nested loops rewrite the midgame and endgame tables from their blocks and touch nothing else |
| `Features.UpdateEvalValues` | src/features.cpp:155-177 | `updateEvalValues` leaves the truncated weights and the two tables filled from their blocks |
| `Features.UpdatedMirrored` | src/features.cpp:155-177 | whatever vector is written, both tables come out white-black mirrored |
| `Features.UpdateWithOwnValues` | src/features.cpp:137-177 | writing back the vector just read from mirrored tables changes nothing |
| `Eval.PhaseOf` | src/eval.cpp:70 | the rounded scaling of the remaining phase units stays within 0..256 for counts within the total, is 256 exactly at the total and 0 exactly at none, and keeps the sign of the units |
| `Eval.PhaseOfMonotone` | src/eval.cpp:70 | fewer phase units never give a larger scaled phase, under C++ truncating division |
| `Eval.Phase` | src/eval.cpp:62-71 | `calculatePhase` is 256 exactly when no knight, bishop, rook or queen is left, never above 256, and 0 exactly when the units sum to the total |
| `Eval.PhaseStart` | src/eval.cpp:62-71 | the starting material gives phase 0, pure midgame |
| `Eval.PhaseMonotone` | src/eval.cpp:62-71 | taking officers off the board never lowers the phase |
| `Eval.PhaseColourBlind` | src/eval.cpp:62-71 | the phase ignores which colour owns which pieces |
| `Eval.AddPieceMaterial` | src/eval.cpp:85-124 | one arm of the `switch` credits `count` times the piece's midgame and endgame value to its own colour only; kings add nothing |
| `Eval.EvaluateMaterial` | src/eval.cpp:79-129 | the loop over all twelve piece codes adds up to the reference material sum |
| `Eval.MaterialOfAll` | src/eval.cpp:79-129 | visiting every piece code accumulates the whole material sum |
| `Eval.MaterialColourSwap` | src/eval.cpp:79-129 | exchanging the colours of the pieces exchanges the white and black material scores |
| `Eval.Taper` | src/eval.cpp:41-42 | the blend is the midgame score at phase 0, the endgame score at 256, and either when they agree |
| `Eval.TaperNegate` | src/eval.cpp:41-42 | with C++ truncation the blend is odd: negating both scores negates it |
| `Eval.TaperMonotone` | src/eval.cpp:41-42 | within the phase range the blend never falls when either score rises |
| `Eval.Evaluate` | src/eval.cpp:35-45 | equal scores for both colours give 0; a side ahead in both phases is never scored below 0 when it is white to move nor above 0 when it is black to move |
| `Eval.EvaluateSideSign` | src/eval.cpp:37-44 | black to move sees exactly the negation of what white to move sees |
| `Eval.EvaluateColourSwap` | src/eval.cpp:35-45 | exchanging the colours of the scores together with the side to move leaves the score unchanged |
| `Eval.PositionColourSwap` | src/eval.cpp:35-129 | a position and its colour-reversed twin, each with its own side to move, score the same |
| `Eval.EqualMaterialIsLevel` | src/eval.cpp:35-129 | equal material for both colours scores zero, whoever is to move |
| `Evaluate.CountsOf` | src/evaluate.cpp:166-179 | the count of a piece is the population of its board |
| `Evaluate.GetPhase` | src/evaluate.cpp:166-179 | `getPhase` never exceeds 256 |
| `Evaluate.GetPhaseAgrees` | src/evaluate.cpp:166-179 | where the colours never share a square, `getPhase` over the union of a kind's two boards equals `calculatePhase` over the piece counts |
| `Evaluate.Credit` | src/evaluate.cpp:375-376 | crediting a feature `n` times adds `n` midgame and `n` endgame weights to one colour and leaves the other colour alone |
| `Evaluate.CreditSwap` | src/evaluate.cpp:292-718 | crediting commutes with exchanging the colours |
| `Evaluate.AddMobility` | src/evaluate.cpp:210-245 | `addMobilityScoreForPiece` gives the piece's own colour mobility times its kind's mobility weight; pawns and kings add nothing |
| `Evaluate.AddKingAttack` | src/evaluate.cpp:247-290 | `addKingAttackScore` charges the colour being attacked at the attacker's kind's weight; pawn and king attacks charge nothing |
| `Evaluate.FlipRank` | src/evaluate.cpp:292-718 | the rank-reversed square has rank `7 - rank` and the same file |
| `Evaluate.ShieldCount` | src/evaluate.cpp:373 | `std::min(popcnt(pawnShield), 3)` counts the shield pawns and saturates at three |
| `Evaluate.KingTerms` | src/evaluate.cpp:365-414 | the king's own colour gains the shield bonus per counted pawn and the virtual-mobility penalty per square; the other colour is untouched |
| `Evaluate.MissingPawns` | src/evaluate.cpp:518-535 | the knight and rook pawn-count terms add one weight for every own pawn short of eight, and nothing with all eight |
| `Evaluate.MissingPawnStep` | src/evaluate.cpp:625-636 | every pawn lost moves the pawn-count term by exactly one weight |
| `Evaluate.MissingPair` | src/evaluate.cpp:584-596 | the missing-pair penalty is charged exactly when its colour has one bishop, to that colour only |
| `Evaluate.CreditPenalty` | src/evaluate.cpp:699-716 | the weak-square penalty is added once to the minor piece's own colour and to no other |
| `Evaluate.KingTermsSwap` | src/evaluate.cpp:365-414 | the king terms treat the colours alike |
| `Evaluate.TarraschTermsSwap` | src/evaluate.cpp:444-484 | the Tarrasch rook terms treat the colours alike |
| `Evaluate.IsolatedTermsSwap` | src/evaluate.cpp:484-514 | the isolated-pawn terms treat the colours alike |
| `Evaluate.PawnTermsSwap` | src/evaluate.cpp:416-516 | all pawn terms treat the colours alike |
| `Evaluate.KnightTermsSwap` | src/evaluate.cpp:518-548 | the knight terms treat the colours alike |
| `Evaluate.BishopTermsSwap` | src/evaluate.cpp:550-623 | the bishop terms treat the colours alike |
| `Evaluate.RookTermsSwap` | src/evaluate.cpp:625-685 | the rook terms treat the colours alike |
| `Evaluate.MinorTermsSwap` | src/evaluate.cpp:687-716 | the not-defended and weak-square penalties of knights and bishops treat the colours alike |
| `Evaluate.MobilitySwap` | src/evaluate.cpp:210-245 | the twin of a piece earns the other colour the same mobility score |
| `Evaluate.KingAttackSwap` | src/evaluate.cpp:247-290 | the twin of a piece charges the other colour the same king-attack score |
| `Evaluate.PieceTermsSwap` | src/evaluate.cpp:292-718 | the twin of a man, on the rank-reversed square in mirrored surroundings, earns the other colour exactly what the man earns |
| `Evaluate.Mirrored` | src/evaluate.cpp:292-718 | the mirrored men are the twins of the men, one for one, in mirrored surroundings |
| `Evaluate.PiecesTermsSwap` | src/evaluate.cpp:292-718 | the whole `evaluatePieces` loop over mirrored men gives the colour-exchanged scores |
| `Evaluate.MaterialTerms` | src/evaluate.cpp:741-794 | `evaluateMaterial<color>` adds the colour's pawn to queen counts times the tuned material weights to that colour only |
| `Evaluate.BaseMaterialAgrees` | src/evaluate.cpp:741-794 | with the default weights the material terms of this evaluator equal those of the material-only evaluator |
| `Evaluate.PstTerms` | src/evaluate.cpp:796-805 | `evaluatePst<color>` adds the board's running piece-square sums to each colour |
| `Evaluate.TarraschTerms` | src/evaluate.cpp:444-484 | the Tarrasch rook terms charge only the pawn's own colour |
| `Evaluate.PawnTerms` | src/evaluate.cpp:416-516 | the pawn terms charge only the pawn's own colour |
| `Evaluate.IsolatedTerms` | src/evaluate.cpp:484-514 | the isolated-pawn terms charge only the pawn's own colour |
| `Evaluate.KnightTerms` | src/evaluate.cpp:518-548 | the knight terms charge only the knight's own colour |
| `Evaluate.BishopTerms` | src/evaluate.cpp:550-623 | the bishop terms charge only the bishop's own colour |
| `Evaluate.RookTerms` | src/evaluate.cpp:625-685 | the rook terms charge only the rook's own colour |
| `Evaluate.MinorTerms` | src/evaluate.cpp:687-716 | the not-defended and weak-square penalties charge only the piece's own colour |
| `Evaluate.PieceTerms` | src/evaluate.cpp:292-718 | one pass of the `evaluatePieces` loop changes the other colour's scores only by the man's attacks next to that colour's king times its kind's king-attack weights, and a king charges nothing |
| `Evaluate.PiecesTerms` | src/evaluate.cpp:292-718 | the `evaluatePieces` loop over men of one colour that attack nothing next to the enemy king leaves the other colour's scores as they were |
| `Evaluate.PiecesTermsAppend` | src/evaluate.cpp:292-718 | the loop over a list of men is the loop over its first part and then over the rest |
| `Evaluate.Evaluation` | src/evaluate.cpp:720-739 | `evaluate` is zero when the accumulated white and black scores are equal in both phases, and, when white's accumulated scores are at least black's in both phases at a non-negative phase, it is at least zero with white to move and at most zero with black to move |
| `Evaluate.EvaluationSideSign` | src/evaluate.cpp:720-739 | `evaluate` from black's side is exactly the negation of the score from white's side |
| `MoveGen.AddMoveToList` | src/movegen.cpp:33-42 | `addMoveToList` writes the slot at `size`, counts it and leaves every other slot alone |
| `MoveGen.AddAppends` | src/movegen.cpp:33-42 | adding a move appends it to the moves in use, keeping the earlier ones |
| `MoveGen.AddAll` | src/movegen.cpp:33-42 | adding a generated sequence move by move appends exactly that sequence |
| `MoveGen.ScoreOfTier` | src/movegen.cpp:44-82 | `scoreMove` gives 500000 to the principal-variation move, 250000 to the table move, 100000 plus the capture score to captures, 50000, 40000 and 30000 to the three killers, 20000 to the counter move, less than -5001 to bad captures and the history value, below 20000, to the rest |
| `MoveGen.LadderOrder` | src/movegen.cpp:44-82 | a move on a better rung of that ladder always scores strictly more than one on a worse rung |
| `MoveGen.ScoreAll` | src/movegen.cpp:129-134 | the scoring pass gives every move its ladder score and changes nothing else about it |
| `MoveGen.AscendingFrom` | src/movegen.cpp:150-151 | a `popLsb` loop visits exactly the squares of the board from a bound upwards, in increasing order |
| `MoveGen.Ascending` | src/movegen.cpp:150-151 | a `popLsb` loop visits exactly the squares of the board, in increasing order |
| `MoveGen.Lowest` | src/movegen.cpp:90-92 | `bitscanForward` of the king board is one of its squares and no square of it is lower |
| `MoveGen.EvasionSquares` | src/movegen.cpp:88-106 | with no checker or several the evasion squares are empty; with one, they contain the checker |
| `MoveGen.SingleCheckerEvasions` | src/movegen.cpp:96-105 | with exactly one checker the evasion squares are its square and, when it slides, the squares between it and the king, nothing more |
| `MoveGen.Filter` | src/movegen.cpp:158-168 | generated targets never hold an own man or a king; in quiescence they are opponent men or the extra squares, and when evading they are evasion squares |
| `MoveGen.KingTargets` | src/movegen.cpp:441-449 | a king step goes to a square it attacks, never onto an own man nor next to the opponent king, and in quiescence only onto an opponent man |
| `MoveGen.PawnMovesTo` | src/movegen.cpp:170-214 | every pawn move from a square to a target is a move of that pawn between those squares |
| `MoveGen.PromotionChoices` | src/movegen.cpp:181-211 | reaching the last rank yields the queen, rook, bishop and knight promotions in normal generation and only the queen otherwise; elsewhere one plain move |
| `MoveGen.PawnMovesFrom` | src/movegen.cpp:170-214 | the pawn moves from one square go to the given targets only |
| `MoveGen.PawnMovesOf` | src/movegen.cpp:146-216 | the pawn moves of the given pawns all pass the target filters |
| `MoveGen.PawnMoves` | src/movegen.cpp:137-217 | `generatePawnMoves` moves only the colour's pawns, to filtered targets |
| `MoveGen.StepMoves` | src/movegen.cpp:245-267 | one plain move is made to each target, and no other |
| `MoveGen.PieceMovesOf` | src/movegen.cpp:219-269 | the moves of the given men all pass the target filters |
| `MoveGen.PieceMoves` | src/movegen.cpp:219-425 | the knight, bishop, rook and queen generators move only the colour's men of that piece, to filtered targets |
| `MoveGen.TransitSafe` | src/movegen.cpp:485-498 | the `tilesToCheck` loop reports safe exactly when no tile in the set is attacked |
| `MoveGen.CastlingMoves` | src/movegen.cpp:479-561 | a castling move is generated only for a right of the mover's colour whose conditions hold, to that right's king square, with capture score -1 |
| `MoveGen.KingMoves` | src/movegen.cpp:427-562 | `generateKingMoves` moves only the king, from its square, to a king target or, in normal generation only, to a castling square |
| `MoveGen.MenMoves` | src/movegen.cpp:108-112 | the moves of all men other than the king pass the target filters |
| `MoveGen.Generate` | src/movegen.cpp:84-113 | every generated move not of the king passes the target filters, against the evasion squares when evading |
| `MoveGen.ScoredFill` | src/movegen.cpp:84-135 | `generateMoves` appends the generated moves after those already listed and gives every listed move its ladder score, changing nothing else |
| `MoveGen.EvasionsOnlyKing` | src/movegen.cpp:84-113 | with no evasion square, evading yields only king moves |
| `MoveGen.DoubleCheckOnlyKing` | src/movegen.cpp:94-106 | with two or more checkers, evading yields only king moves |
| `MoveGen.CastlingMoveReady` | src/movegen.cpp:479-561 | a generated castling move is one `makeMove` handles as castling, with its rook in the corner and the rook's landing square empty |
| `Picker.Swap` | src/movepicker.cpp:36 | `std::swap` exchanges the two slots, leaves every other slot alone and keeps the same moves |
| `Picker.Best` | src/movepicker.cpp:25-34 | the scan settles on a move of the unsearched part whose score no other move there beats, the earliest among equals |
| `Picker.SelectedIsBest` | src/movepicker.cpp:25-34 | only one index meets that description, so any scan that finds it agrees |
| `Picker.Picked` | src/movepicker.cpp:24-39 | after a pick the picker still describes the list |
| `Picker.GetNextMove` | src/movepicker.cpp:24-39 | `getNextMove` hands out the best unsearched move, swaps it to the start and moves the start past it |
| `Picker.GetNextMoveFromStart` | movepicker.cpp:27-56 | the older `getNextMove`, scanning from the start index itself, hands out the same move and leaves the same picker |
| `Picker.PickKeeps` | src/movepicker.cpp:24-47 | the handed-out move scores at least as much as every move not yet handed out; the list is a permutation of the old one, the moves already handed out stay put, `movesSearched` grows by one and `remaining` shrinks by one |
| `Picker.PicksNonIncreasing` | src/movepicker.cpp:24-39 | successive picks never score more than the pick before |
| `Pool.Fresh` | src/movelist_pool.cpp:61-69 | `createMoveList` gives an empty list whose every slot holds the blank move |
| `Pool.NewPool` | src/movelist_pool.cpp:26-31 | the constructor pools `INITIAL_POOL_SIZE` fresh lists |
| `Pool.GetMoveList` | src/movelist_pool.cpp:44-54 | `getMoveList` hands out a fresh list from an empty pool, and otherwise the last pooled list, emptied and removed from the pool |
| `Pool.ReleaseMoveList` | src/movelist_pool.cpp:56-59 | `releaseMoveList` empties the list and pushes it on the pool, keeping the lists already there |
| `Pool.ReleaseThenGet` | src/movelist_pool.cpp:44-59 | the pool is last in, first out: a list released and then taken comes back emptied and the pool is as before |
| `Pool.TakenValid` | src/movelist_pool.cpp:44-54 | every list the pool hands out, and every list left in it, is a valid list when the pooled lists are |
| `Collections.AddMove` | collections/move_list.cpp:12-21 | `addMove` appends one move to the elements in use |
| `Collections.PopBack` | collections/move_list.cpp:23-27 | `popBack` returns the last element and leaves the elements before it |
| `Collections.Clear` | collections/move_list.cpp:29-31 | `clear` leaves no elements |
| `Collections.At` | collections/move_list.cpp:41-44 | `operator[]` returns the element at an index below the size |
| `Collections.AddThenPop` | collections/move_list.cpp:12-27 | popping right after adding gives the added move back and the list as it was |
| `Collections.PushAsWritten` | collections/undo_stack.cpp:11-38 | `pushMove` as written succeeds exactly when the index after the push is at most 256, and then advances the index and writes the slot when the slot exists |
| `Collections.PushGuardAdmitsOverflow` | collections/undo_stack.cpp:36-37 | a push onto a full 128-slot stack passes the assert and leaves a stack claiming 129 records in 128 slots |
| `Collections.PushAgrees` | collections/undo_stack.cpp:11-38 | below capacity the push as written is the guarded push |
| `Collections.Push` | collections/undo_stack.cpp:11-38 | the guarded push appends one record to the records in use |
| `Collections.Pop` | collections/undo_stack.cpp:40-44 | `pop` returns the last record and leaves the records before it |
| `Collections.ClearStack` | collections/undo_stack.cpp:46-48 | `clear` leaves no records |
| `Collections.PushThenPop` | collections/undo_stack.cpp:11-44 | popping right after pushing gives the pushed record back and the records as they were |
| `Transposition.BitAnd` | src/tt.cpp:111 | the bitwise and of two non-negative numbers is at most either of them |
| `Transposition.Slot` | src/tt.cpp:42 | `zobristHash & hashSize` always lands inside the table |
| `Transposition.FloorLog2` | src/tt.cpp:112 | `static_cast<int>(log2(n))` is the exponent of the largest power of two not above `n` |
| `Transposition.Pow2IsPowerOfTwo` | src/tt.cpp:112 | `1 << k` is a power of two |
| `Transposition.PowerOfTwoIsPow2` | src/tt.cpp:111-113 | a power of two is `1 << log2` of itself, so rounding leaves it alone |
| `Transposition.PowerOfTwoByAnd` | src/tt.cpp:111 | a positive `n` is a power of two exactly when `n & (n - 1)` is zero |
| `Transposition.AndSelf` | src/tt.cpp:111 | and-ing a number with itself gives the number |
| `Transposition.RoundedMegabytes` | src/tt.cpp:110-113 | the rounded count is the largest power of two not above the count asked for, the count itself when it already is one |
| `Transposition.EntryCountBounds` | src/tt.cpp:115-116 | the entry count is at least one, fits within the megabytes asked for, and fills more than half of them up to one entry |
| `Transposition.SetTableSize` | src/tt.cpp:110-125 | `setTableSize` makes a table of cleared entries whose mask is one below their number, within the megabytes asked for and filling more than half of them up to one entry |
| `Transposition.Validation` | src/tt.cpp:54 | `zobristHash >> 32` is a 32-bit value |
| `Transposition.StoredMovesOutward` | src/tt.cpp:46-52 | storing moves a winning mate score up by the ply and a losing one down by it, and leaves every other score alone |
| `Transposition.MateReadBackAsWritten` | src/tt.cpp:88-95 | with the read as written, a mate ten plies from the root stored at ply 4 reads back at ply 4 as a mate six plies away |
| `Transposition.ReadUndoesStore` | src/tt.cpp:46-52 | the corrected read at the store's ply gives back the score stored, mate scores included |
| `Transposition.AddPosition` | src/tt.cpp:29-60 | `addPosition` ignores a score outside the window, a store after the deadline and a depth outside `int8_t`; otherwise a strictly deeper search always overwrites the slot, with the adjusted score, the depth, the move, the validation hash and the node type, a search no deeper leaves it, and no other slot changes |
| `Transposition.GetScore` | src/tt.cpp:62-102 | `getScore` returns `INT32_MIN` unless the depth fits `int8_t`, the validation hash matches, the stored depth suffices and the node type admits the window; then the stored score, moved back by the ply only at or beyond the mate score itself |
| `Transposition.GetScoreCorrected` | src/tt.cpp:62-102 | at a hit, the stored score is read back to the score `addPosition` was given at that ply; otherwise the same probe with the read-back bands of `addPosition` |
| `Transposition.GetScoreAgrees` | src/tt.cpp:48-52 | the probe as written and the corrected one agree on every slot whose score lies outside both mate bands |
| `Transposition.StoreThenProbe` | src/tt.cpp:29-102 | with the corrected read, an exact score stored by a deeper search probes back, at the same ply and any depth not above it, as the score stored |
| `Transposition.StoreThenProbeAsWritten` | src/tt.cpp:29-102 | with the read as written the same store and probe give a non-mate score back, but a mate ten plies from the root stored and probed at ply 4 comes back as a mate six plies away |
| `Transposition.ClearedSlotAccepts` | src/tt.cpp:45-59 | a cleared slot takes any accepted position, since every `int8_t` depth beats the cleared depth |
| `Transposition.AgeHistory` | src/tt.cpp:132-138 | `ageHistoryTable` divides every history entry by 8, rounding down |
| `Transposition.AgeTwice` | src/tt.cpp:132-138 | ageing twice divides by 64 |
| `Transposition.AddOldPosition` | tt.cpp:24-31 | the older `addPosition` ignores scores of 90000000 or more in size and otherwise overwrites the slot, whatever was there, with the depth cut to eight bits |
| `Transposition.GetOldPosition` | tt.cpp:33-37 | `getPosition` returns the entry of the position's slot |
| `Transposition.OldStoreThenGet` | tt.cpp:24-37 | a stored position reads back as stored, depth modulo 256, and positions in other slots read as before |
| `Spaces.StepKeeps` | src/uci.cpp:295-331 | one turn of the loop keeps every blank of the output a single space that neither leads nor follows a space or newline, appends the character unless it is a blank, and leaves a trailing space only while inside a run of blanks |
| `Spaces.ScanAll` | src/uci.cpp:295-331 | over the whole input the loop's text keeps every character other than a blank (whitespace except the newline), in order; its only blanks are plain spaces, none leading and none after a space or newline |
| `Spaces.Collapse` | src/uci.cpp:295-331 | the result keeps exactly the input's characters other than blanks (whitespace except the newline), newlines included, in order; its only blanks are single spaces, none leading, none trailing and none after a space or newline |
| `Spaces.RemoveRedundantSpaces` | src/uci.cpp:295-331 | `removeRedundantSpaces` computes that normalised text |
| `Spaces.ScanTidy` | src/uci.cpp:295-331 | on a text already in that shape the loop copies every character |
| `Spaces.FixedIffNormal` | src/uci.cpp:295-331 | the texts `removeRedundantSpaces` leaves unchanged are exactly the normal ones |
| `Spaces.CollapseIdempotent` | src/uci.cpp:295-331 | normalising twice is normalising once |
| `Uci.Tokens` | src/uci.cpp:119 | `iss >> word` yields only non-empty words without spaces |
| `Uci.WordsSplit` | src/uci.cpp:119 | a space separates words: the words of `x + " " + y` are those of `x` then those of `y` |
| `Uci.WordsOfWord` | src/uci.cpp:119 | a single word reads back as itself |
| `Uci.FoldAppend` | src/uci.cpp:119-153 | the word loop over two word lists is the loop over the first continued over the second |
| `Uci.GatherName` | src/uci.cpp:135-141 | in the name section every word that is not a keyword is appended to the name, space-separated |
| `Uci.GatherValue` | src/uci.cpp:143-149 | in the value section every word that is not a keyword is appended to the value, space-separated |
| `Uci.OddCaseGathersNothing` | src/uci.cpp:123-131 | a keyword in other than lower case is recognised, but since the section is set to the word as spelled, nothing after it is gathered |
| `Uci.JoinedNonEmpty` | src/uci.cpp:135-149 | joining words gives the empty text exactly when there are none |
| `Uci.WordsOfJoined` | src/uci.cpp:135-149 | reading back words joined by single spaces gives the words |
| `Uci.SetOptionWords` | src/uci.cpp:119 | the words of `name N value V` are `name`, the words of N, `value` and the words of V |
| `Uci.SetOptionRoundTrip` | src/uci.cpp:108-153 | the command `name N value V` reads as the words of N and of V joined by single spaces, when neither holds a keyword |
| `Uci.TypeName` | src/uci.cpp:373-388 | `getUciOptionTypeAsString` gives a single word and never reaches its "unknown" fallback |
| `Uci.TypeNameInjective` | src/uci.cpp:373-388 | different option types print different names |
| `Uci.WordsLabelled` | src/uci.cpp:390-412 | a labelled field appended after a space reads as the words before, the label and the value's words |
| `Uci.WordsField` | src/uci.cpp:390-412 | an optional field adds its label and words only when its value is non-empty |
| `Uci.WordsVars` | src/uci.cpp:390-412 | the combo values read as `var` followed by the value's words, value by value, in order |
| `Uci.WordsCons` | src/uci.cpp:390-412 | a word followed by a space reads as that word, then the rest |
| `Uci.HeadWords` | src/uci.cpp:390-412 | the head of an option line reads as `option name`, the name's words, `type` and the type |
| `Uci.ToStringWords` | src/uci.cpp:390-412 | `toString` lists `option name`, the name's words, `type` and the type, then each non-empty default, min and max with its label, then `var` and the words of each combo value |
| `Uci.RemoveVarContents` | src/uci.cpp:422-424 | `removeVar` drops every copy of the value and keeps every copy of every other value |
| `Uci.RemoveVarAppend` | src/uci.cpp:422-424 | removal works piece by piece, so the values kept stay in order |
| `Uci.RemoveAbsentVar` | src/uci.cpp:422-424 | removing a value that is not there changes nothing |
| `Uci.RemoveVarIdempotent` | src/uci.cpp:422-424 | removing a value twice is removing it once |
| `Uci.SetOption` | src/uci.cpp:108-176 | an empty name, an unknown option, or a missing value for anything but a button is an error that changes nothing; otherwise only the named option's value changes, to the value given, or for a button with no value to "false" exactly when it was "true" and to "true" otherwise, the empty initial value included |
| `Uci.ButtonTwice` | src/uci.cpp:155-163 | pressing a button twice restores a value that was "true" or "false" |
| `Uci.FirstSpace` | src/uci.cpp:236-238 | `args.find(' ')` is the first space, or the end when there is none |
| `Uci.ProcessCommand` | src/uci.cpp:202-245 | a known command is handled with its arguments, `register` is ignored, and an unknown command is skipped so that a handled command runs on a strictly shorter tail of the arguments |
| `Uci.SkipsUnknown` | src/uci.cpp:226-244 | an unknown command followed by a known one runs the known one on the rest of the line |
| `Fen.Split` | scripts/mirror_fen.py:2 | `str.split(' ')` gives at least one token, possibly empty, and no token holds the separator |
| `Fen.JoinSplit` | scripts/mirror_fen.py:2-13 | `' '.join` of the tokens of `split` gives the text back |
| `Fen.SplitJoin` | scripts/mirror_fen.py:3-13 | splitting joined tokens that hold no separator gives the tokens back |
| `Fen.GetlineSplit` | src/utils.cpp:77-90 | the `getline` loops give no token for an empty text, at least one otherwise, and no token holds the separator |
| `Fen.SplitTrailing` | scripts/mirror_fen.py:2 | a text ends in the separator exactly when its split ends in an empty token after another |
| `Fen.SwapChar` | src/utils.cpp:92-102 | one character's case is swapped exactly for the ASCII letters, to the same letter, and every other character is kept |
| `Fen.SwapCharInvolution` | src/utils.cpp:92-102 | swapping a character's case twice gives it back |
| `Fen.SwapCase` | scripts/mirror_fen.py:5 | `swapcase()` swaps every character in place and keeps the length |
| `Fen.SwapCaseInvolution` | scripts/mirror_fen.py:5 | swapping a text's case twice gives it back |
| `Fen.SwapEach` | src/utils.cpp:92-102 | every rank has its case swapped, and the rank count is kept |
| `Fen.SwapCaseJoin` | scripts/mirror_fen.py:4-5 | swapping the case of joined ranks equals joining the swapped ranks, so the script (join, then swap) and the C++ (swap, then join) build the same placement |
| `Fen.Reverse` | scripts/mirror_fen.py:4 | `rows[::-1]` keeps the length and puts element `n - 1 - i` at `i` |
| `Fen.FlipSide` | scripts/mirror_fen.py:8 | the side is always "w" or "b", and "w" exactly for "b"; a proper side is always changed |
| `Fen.FlipSideInvolution` | scripts/mirror_fen.py:8 | flipping a proper side twice gives it back |
| `Fen.MirrorFenPy` | scripts/mirror_fen.py:1-13 | `mirror_fen` yields a text exactly when the FEN has at least three space-separated fields, and raises `IndexError` otherwise |
| `Fen.MirrorFenPyFields` | scripts/mirror_fen.py:1-13 | the result has as many fields as the input: the reversed ranks with swapped case, as many ranks as before, the flipped side, the case-swapped castling field, and every later field verbatim |
| `Fen.MirrorPlacementSplit` | scripts/mirror_fen.py:3-5 | the mirrored placement splits back into the swapped reversed ranks |
| `Fen.RowsInvolution` | scripts/mirror_fen.py:3-5 | reversing and swapping the ranks twice restores them |
| `Fen.PlacementBack` | scripts/mirror_fen.py:3-5 | mirroring a mirrored placement gives it back |
| `Fen.MirroredFieldsBack` | scripts/mirror_fen.py:1-13 | the fields of the mirrored text, mirrored once more, are the original fields when the side is "w" or "b" |
| `Fen.MirrorFenPyInvolution` | scripts/mirror_fen.py:1-13 | mirroring twice gives the original text back whenever the side to move is "w" or "b" |
| `Fen.MirrorFenCpp` | src/utils.cpp:75-137 | when neither the text nor its placement field ends in a separator, the C++ `mirrorFen` gives exactly what the script gives, so the script's field-by-field contract carries over |
| `Fen.MirrorFenAgree` | src/utils.cpp:75-137 | when neither the text nor its placement ends in a separator, the C++ `mirrorFen` and the script produce the same text |
| `Fen.GetlineNoTrailing` | src/utils.cpp:77-90 | without a trailing separator the `getline` loop and `split` give the same tokens |
| `Fen.MirrorFenTrailingSpace` | src/utils.cpp:77-82 | a trailing space is where the two differ: the script mirrors `"8/8 w - "` to `"8/8 b - "`, the C++ version to `"8/8 b -"` |
| `Between.BetweenByMultiplication` | src/bitwise.cpp:262-271 | the entry as the source computes it, `line *= btwn & -btwn` and then `line & btwn`, is the shifted line pattern the table is defined by |
| `Between.ProductShifts` | src/bitwise.cpp:269-271 | when the lowest bit of `btwn` is square `m`, multiplying by `btwn & -btwn` and masking with `btwn` shifts the line pattern left by `m` and masks it |
| `Attacks.FileBoardHas` | src/bitboard.cpp:786-788 | the north ray, the south ray and the square itself together hold exactly the squares of the square's file |
| `Bitboard.GetFileIsFile` | src/bitboard.cpp:786-788 | the file board built from the ray tables and the set of squares on the file name the same squares |
| `MoveProofs.NullKeepsConsistent` | src/bitboard.cpp:293-311 | `makeNullMove` keeps the representation invariant: the redundant fields still describe the men and the kept hash equals the recomputed one after the en-passant and side constants are toggled |
| `Moves.TakeCaptured` | src/bitboard.cpp:110-129 | the captured man leaves the destination, and the halfmove clock restarts on a capture or a pawn move and grows by one otherwise |
| `Moves.UpdateEnPassant` | src/bitboard.cpp:133-159 | an en-passant capture removes the pawn behind the destination and marks the undo record; a double push sets the en-passant square to the square passed, any other move clears it |
| `Moves.ClearRight` | src/bitboard.cpp:203-219 | a rook leaving its corner drops exactly that castling right |
| `Moves.KingRights` | src/bitboard.cpp:180-200 | a king move drops both castling rights of its colour and no other |
| `Moves.CastleRook` | src/bitboard.cpp:161-178 | a castling move jumps its rook from the corner to beside the king and marks the undo record; any other move leaves the men alone |
| `FenLoad.PlaceChar` | src/bitboard.cpp:429-447 | a placement character changes only the men and the fields that follow them |
| `FenLoad.StepKeeps` | src/bitboard.cpp:429-516 | one cleanly read character keeps the parts of the representation invariant the reader is responsible for |
| `FenLoad.ScanKeeps` | src/bitboard.cpp:425-517 | a clean run of characters keeps those parts |
| `FenLoad.SetFromFen` | src/bitboard.cpp:378-521 | `setFromFen` always leaves ply 0 and the previous move untouched |
| `Machine.TruncDiv` | src/eval.cpp:41-42 | C++ integer `/` truncates toward zero, which differs from flooring on negative dividends |
| `Machine.TruncMod` | src/utils.cpp:28-35 | C++ `%` is the remainder that goes with truncating division and carries the sign of the dividend |
| `Machine.ToInt8` | src/tt.cpp:55 | `static_cast<int8_t>` wraps modulo 256 into -128..127 and keeps values already in range |
| `Machine.ToUint8` | tt.cpp:30 | the cast to `uint8_t` wraps modulo 256 into 0..255 and keeps values already in range |

## Left out

- `Fen.SwapChar`: swaps case for ASCII letters only, whereas Python's `str.swapcase` also maps letters such as 'é' to 'É' and 'ß' to "SS"; `Fen.MirrorFenPy` therefore differs from scripts/mirror_fen.py on FEN text containing non-ASCII letters, which no legal FEN contains.
- `Bitboard.IsDraw`: compares Zobrist keys as token sets, so two different positions never share a key; the engine's 64-bit keys can collide, and such a collision would be read there as a repetition.
- `MoveProofs.MakeKeepsConsistent`: the key it proves equal to the recomputed one is the token-set key; equality of the 64-bit XOR values follows from it, but the converse (no collisions) is not part of the engine.
- `MoveProofs.MakeUnmakeRoundTrip`: restores the token-set key exactly; the same 64-bit collision caveat applies.
- Bitboards as `set<Square>` in the board and move generator: every set is a subset of the 64 squares, so nothing of the 64-bit width is lost, but the machine-level layout appears only in the `bv64` modules.
- `FenLoad.Step`: a piece letter read after the eighth rank is filled returns `Fail(OffBoard)`; src/bitboard.cpp:378-521 writes outside the board there, which is undefined behaviour and has no defined result to model.
- `FenLoad.SetFromFen`: inherits the `OffBoard` failure above in place of the undefined write.
- `Features.Trunc`: the tuner's `double` values are exact `real`s; rounding of floating-point arithmetic is not modelled, only the final `static_cast<int>` truncation toward zero.
- `Features.UpdateEvalValues`: takes the new values as `real`s for the same reason.
- `Transposition.SetTableSize`: requires `1 <= megaBytes < 2048`, which leaves out the `int` overflow of `megaBytes * 1024 * 1024` in src/tt.cpp:115 for sizes of 2048 MB and more, and the wrap of the size computation for `megaBytes <= 0`; both are undefined or nonsensical in the source.
- `MoveCodec.EncodeMove32Fields`: takes an EMPTY promotion piece as -1, the value of types.h:25 of the older tree, and proves it reads back as byte 255; the `uint8_t` enumerations of src/types.h:36-53, whose EMPTY is 255, are not admitted as field values (fields are below 128), so the 255-valued EMPTY of that header is not modelled as an input.
- `MoveCodec.EncodeMoveOldFields`: admits EMPTY as -1, the value of types.h:25, which fills bits 20-31 and reads back as 4095; promotion values of 128 or more other than -1 are not admitted, since no piece of that tree has one.
- `MoveCodec.FromMoveText`: requires at least four characters. With zero or one character `substr(2, 2)` throws `std::out_of_range` (src/move.cpp:71), and with two or three the `string_view` is read past its end; neither case is modelled.
- `Occupancy.Occupancy`: takes `pop_1st_bit` (src/magics.cpp:63-73) to give the index of the lowest set bit; the folded de Bruijn multiplication and its 64-entry `BitTable` are not modelled.
- `MoveCodec.FromMoveText`: src/move.cpp:79-89 assigns the unqualified `QUEEN`, `ROOK`, `BISHOP` and `KNIGHT` to a `PromotionPiece`; they are read as the `*_PROMOTION` values 0-3 of src/move.h:47-52, since any other reading does not fit the two-bit field.
- `MoveCodec.LetterValue`: uses the same reading of the promotion letters.
- Zobrist random values and their generation: the key is the token set, so no particular random numbers are needed.
- Piece-square table contents, material weights and evaluation weights: taken as parameters; the properties hold for any values.
- Move-generator board accessors (piece attacks at the current occupancy, pawn pushes, attackers of a square, between squares, exchange evaluation, the MVV-LVA table) are functions of a `Geometry` parameter, because the accessors' code is not part of this model; the evaluator's per-piece facts (mobility, attacks near the king, pawn structure) likewise arrive in a `Context` record instead of being recomputed from the board.
- The weak-square weight of the old evaluator is passed as a separate `Penalty`, because src/features.h, where it lives, is not part of this model.
- Transposition-table constants (`MATE_SCORE`, `MAX_PLY`) and the entry size are parameters constrained by `Sane`, not fixed numbers.
- `Transposition.AddPosition`: the engine's clock comparison against the search deadline becomes the boolean `pastDeadline`.
- UCI handlers other than `setoption` and command dispatch (`go`, `position`, `uci`, `isready` and their output) perform I/O and start the search, and are left out.
- The random search for magic numbers: only the index function and its properties for given magics are modelled.
- Search, time management, the tuner's optimisation loop, perft and static exchange evaluation are outside the core modelled here.

## Findings

| source | as written | input that shows it | evidently intended | confidence | as-written member | corrected member |
|---|---|---|---|---|---|---|
| src/types.h:60-66 | `pieceColor` returns `piece / 2` and `pieceType` returns `piece % 2` | `BLACK_PAWN` (1) gives colour 0 (WHITE); `WHITE_KNIGHT` (2) gives colour 1 (BLACK) | colour is `piece % 2` and kind is `piece / 2`, matching the white-even/black-odd layout of the enumeration | not executed | `Types.PieceColorAsWrittenIsWrong` | `Types.PieceColorCorrected` |
| collections/undo_stack.cpp:37 | after the increment, `pushMove` asserts `lastElementIndex <= 256` while the stack has 128 slots (collections/undo_stack.h:12) | a push onto a stack already holding 128 records writes slot 128 and passes the assertion | the guard checks against the 128-slot capacity | not executed | `Collections.PushGuardAdmitsOverflow` | `Collections.PushAgrees` |
| src/tt.cpp:88-95 | on read, the ply is taken back only from scores at or beyond `MATE_SCORE`, while `addPosition` (src/tt.cpp:48-52) adds it to scores from `MATE_SCORE - MAX_PLY` on | a score of `MATE_SCORE - 10` stored at ply 4 is read back at ply 4 as `MATE_SCORE - 6` | the read uses the same bands as the store, so a score stored and probed at the same ply comes back unchanged | not executed | `Transposition.MateReadBackAsWritten` | `Transposition.StoreThenProbe` |
