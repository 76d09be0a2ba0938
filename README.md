# Shogi position library: a verified Dafny model

This project models `web/shogi.js`, the Shogi position library of a
browser front end for a USI (Universal Shogi Interface) engine, and proves
its laws. The library has five layers:

- **Coordinates** (`coords.dfy`, module `Coords`): colours, files, ranks and
  squares (`9 * f + r`) with their USI characters.
- **Pieces** (`pieces.dfy`, `Pieces`): pieces packed as `colour << 4 | type`,
  with bit 3 as the promotion bit. Also the 31-entry `PIECE_TO_USI` table and
  the reverse map `PIECE_FROM_USI`, built from it with `Map.set` in index order.
- **Hands** (`hands.dfy`, `Hands`): one integer per colour. Pawns are an 8-bit
  field at bit 0. Lance, knight, silver, bishop, rook and gold are 4-bit
  fields at bits 8, 12, 16, 20, 24 and 28. A field is read the way
  JavaScript's signed 32-bit `&` / `>>` read it.
- **Moves** (`moves.dfy`, `Moves`): moves packed in 16 bits. Bits 0-6 are the
  destination, bits 7-13 the origin or the dropped raw type, bit 14 the drop
  flag and bit 15 the promotion flag. Also the USI move text (`7g7f`,
  `8h2b+`, `B*3c`); a hand-written scanner stands in for the move regular
  expression.
- **Position** (`position.dfy`, `Position`): a class with an 81-square
  `array<nat>` board, a two-element `array<int>` of hand words, the side to
  move, the ply counter and an immutable undo chain (`StateInfo`).
  - `putPiece`, `removePiece` and `addHandCount` change the arrays in place.
  - `doMove` and `undoMove` update the fields one step at a time.
  - `fromSfen` and `toSfen` read and write SFEN, the one-line text form of a
    position.

Each imperative method of the class is proved against a function that states its result:

- moves: `PositionSpec` (`position_spec.dfy`) gives `doMove` and `undoMove` as
  functions on a `Snapshot` value of the position;
- reading: `SfenParse.ParseSfen` (`sfen_parse.dfy`) gives `fromSfen` as a
  function of the text. Scanners replace the regular expressions of lines 252,
  261 and 275;
- writing: `SfenFormat.SfenText` (`sfen_format.dfy`) gives `toSfen`.

The laws proved about these functions:

- `sfen_roundtrip.dfy`: `fromSfen(toSfen(p))` rebuilds `p`.
- `sfen_facts.dfy`:
  - the text of a fresh position;
  - `fromSfen(s).toSfen() == s` for every line `toSfen` writes at a ply of at
    least 1;
  - the failure of that law at ply 0.
- `position_spec.dfy`: undo after do restores the position, and so does
  undoing a whole game.

`text.dfy` holds the string primitives: JavaScript white space and `trim`,
`String(n)` and `+s` on decimal numbers (as exact integers: see "## Left out"), and `split`. `wrappers.dfy` holds
`Option`.

## Model

| member | source | states |
|---|---|---|
| `Coords.ColorTurn` | web/shogi.js:5-7 | the opponent's colour is never the colour itself |
| `Coords.ColorTurnInvolution` | web/shogi.js:5-7 | flipping the colour twice gives it back |
| `Coords.ColorFromUsi` | web/shogi.js:13-15 | a character reads as white exactly when it is `w`; anything else reads as black |
| `Coords.ColorRoundTrip` | web/shogi.js:9-15 | reading the letter written for a colour gives the colour |
| `Coords.ColorTextRoundTrip` | web/shogi.js:9-15 | writing the colour read from `b` or `w` gives the letter back |
| `Coords.FileToUsi` | web/shogi.js:19-21 | files 0..8 are written as the characters `1`..`9` |
| `Coords.FileRoundTrip` | web/shogi.js:19-25 | `fileFromUsi(fileToUsi(f)) == f` for every file on the board |
| `Coords.FileTextRoundTrip` | web/shogi.js:19-25 | every character `1`..`9` reads as a file on the board that is written back as that character |
| `Coords.RankToUsi` | web/shogi.js:29-31 | ranks 0..8 are written as the characters `a`..`i` |
| `Coords.RankRoundTrip` | web/shogi.js:29-35 | `rankFromUsi(rankToUsi(r)) == r` for every rank on the board |
| `Coords.RankTextRoundTrip` | web/shogi.js:29-35 | every character `a`..`i` reads as a rank on the board that is written back as that character |
| `Coords.SquareInit` | web/shogi.js:37-49 | for `f, r` in 0..8, `squareInit(f, r)` is in 0..80 and `squareGetFile` / `squareGetRank` of it are `f` and `r` |
| `Coords.SquareSplit` | web/shogi.js:39-49 | every square in 0..80 has file and rank on the board and is rebuilt from them |
| `Coords.SquareToUsi` | web/shogi.js:51-53 | a square is written as a file character followed by a rank character |
| `Coords.SquareFromUsi` | web/shogi.js:55-57 | a two-character square text reads as a square in 0..80 |
| `Coords.SquareRoundTrip` | web/shogi.js:51-57 | `squareFromUsi(squareToUsi(sq)) == sq` for every square |
| `Coords.SquareTextRoundTrip` | web/shogi.js:51-57 | every square text reads as a square that is written back as that text |
| `Pieces.PieceFields` | web/shogi.js:68-86 | for `c` in {0, 1} and `pt` < 16, `pieceGetColor` and `pieceGetPieceType` of `pieceInit(c, pt)` give `c` and `pt`. An unpromoted type is its own raw type, and promoting it keeps the raw type |
| `Pieces.PiecePromote` | web/shogi.js:84-86 | the result has the promotion bit set and the same raw type and colour bits |
| `Pieces.PieceDemote` | web/shogi.js:88-90 | the result has the promotion bit clear and the same raw type and colour bits |
| `Pieces.DemotePromote` | web/shogi.js:84-90 | `pieceDemote(piecePromote(pc)) == pc` when bit 3 of `pc` is clear |
| `Pieces.PromoteKeepsColorAndRaw` | web/shogi.js:72-86 | a piece and its promoted form have the same colour and the same raw type |
| `Pieces.PieceToUsiEntry` | web/shogi.js:92-128 | `pieceToUsi(pc)` is entry `pc` of `PIECE_TO_USI` |
| `Pieces.LastIndexOf` | web/shogi.js:130-134 | a piece found for a text is in the table and its entry is that text |
| `Pieces.LastIndexOfIsLast` | web/shogi.js:130 | the map built with `Map.set` keeps the last index of a text: no later entry has the same text |
| `Pieces.LastIndexOfNone` | web/shogi.js:130-134 | `pieceFromUsi` finds nothing only for a text that no entry has |
| `Pieces.PieceTextsDistinct` | web/shogi.js:92-124 | the non-empty table entries are pairwise distinct |
| `Pieces.PieceRoundTrip` | web/shogi.js:126-134 | `pieceFromUsi(pieceToUsi(pc)) == pc` for every piece with a non-empty text |
| `Hands.HandPieceRawIn` | web/shogi.js:148 | every raw type in `HAND_PIECE_RAWS` is pawn to gold |
| `Hands.HandCount` | web/shogi.js:150-152 | a pawn to rook field reads 0..255 or 0..15; the gold field reads -8..7; a raw type with no field reads 0 |
| `Hands.WordField` | web/shogi.js:136-152 | field `pr` of the word built from counts within their slots reads back as count `pr` |
| `Hands.FieldsOfWord` | web/shogi.js:136-152 | the word built from counts within their slots is a fitting word, and all its fields read back as the counts |
| `Hands.WordOfFields` | web/shogi.js:136-152 | every fitting word is the word of the counts its fields hold |
| `Hands.AddHandCountLaw` | web/shogi.js:154-156 | adding `handDiff(pr, d)` raises field `pr` by `d` and leaves every other field unchanged, provided the new count stays within its slot |
| `Hands.NoFieldNoChange` | web/shogi.js:143-156 | `handDiff` of the raw type without a field changes nothing |
| `Hands.EmptyHandIsZero` | web/shogi.js:136-152 | a fitting word is `HAND_EMPTY` exactly when every field reads 0 |
| `Moves.MoveInit` | web/shogi.js:162-164 | for origin and destination below 128, the getters give them back and neither flag is set |
| `Moves.MoveInitPromote` | web/shogi.js:166-168 | for origin and destination below 128, the getters give them back; the promotion flag is set and the drop flag is not |
| `Moves.MoveInitDrop` | web/shogi.js:170-172 | for raw type and destination below 128, the getters give them back; the drop flag is set and the promotion flag is not |
| `Moves.MoveDecompose` | web/shogi.js:174-188 | every 16-bit move is the sum of its destination, its origin times 128 and its two flags |
| `Moves.MatchTail` | web/shogi.js:199 | a match of the tail of the pattern is a square text and an optional `+` that spell out the text |
| `Moves.MatchMove` | web/shogi.js:199 | a match of the move pattern is well formed and spells out the whole text |
| `Moves.MatchMoveExact` | web/shogi.js:199 | the scanner accepts exactly the texts of well-formed matches |
| `Moves.MoveFromUsi` | web/shogi.js:198-202 | any text outside the pattern gives `MOVE_NONE` |
| `Moves.MoveNoneText` | web/shogi.js:198-212 | `moveFromUsi(s) == MOVE_NONE` exactly when `s` is outside the pattern or is `1a1a` |
| `Moves.ConstructorsCanonical` | web/shogi.js:162-172 | the three constructors applied to squares on the board and raw types 1..8 build canonical moves |
| `Moves.MoveRoundTrip` | web/shogi.js:190-212 | `moveFromUsi(moveToUsi(m)) == m` for every canonical move |
| `Moves.UsiRoundTrip` | web/shogi.js:190-212 | `moveToUsi(moveFromUsi(s)) == s` for every text of the pattern whose drop letter names a black piece and carries no `+` |
| `Moves.DropTextRoundTrip` | web/shogi.js:190-206 | the drop case: `X*sq` is read and written back unchanged for `X` in `PLNSBRGK` |
| `Moves.BoardTextRoundTrip` | web/shogi.js:190-211 | the board-move case: two squares and an optional `+` are read and written back unchanged |
| `Moves.PlainMoveText` | test/lib/shogi.test.js:23 | the move from square 0 to square 1 is written `1a1b` |
| `Moves.PromotingMoveText` | test/lib/shogi.test.js:24 | that move with promotion is written `1a1b+` |
| `Moves.DropMoveText` | test/lib/shogi.test.js:25 | a pawn dropped on square 1 is written `P*1b` |
| `Moves.PlainMoveRead` | test/lib/shogi.test.js:29 | `1a1b` reads as the move from square 0 to square 1 |
| `Moves.PromotingMoveRead` | test/lib/shogi.test.js:30 | `1a1b+` reads as that move with promotion |
| `Moves.DropMoveRead` | test/lib/shogi.test.js:31 | `P*1b` reads as a pawn drop on square 1 |
| `Text.NatToString` | web/shogi.js:297-299 | `String(n)` is a non-empty run of decimal digits with no leading zero |
| `Text.DecimalOfNatToString` | web/shogi.js:283 | `+String(n) == n` |
| `Text.TrimStart` | web/shogi.js:252 | the result is a suffix of the text; everything cut off is white space; the result does not start with white space |
| `Text.TrimEnd` | web/shogi.js:252 | the result is a prefix of the text; everything cut off is white space; the result does not end with white space |
| `Text.TrimUnspaced` | web/shogi.js:252 | a text that neither starts nor ends with white space is its own trim |
| `Text.SplitConcat` | web/shogi.js:259 | splitting `a + sep + c` gives the pieces of `a` followed by the pieces of `c` |
| `Text.SplitNoSep` | web/shogi.js:259 | a text without the separator splits into itself alone |
| `Text.Scan` | web/shogi.js:252 | a scan splits the text into a maximal run of one character class and the rest |
| `SfenParse.MatchSfen` | web/shogi.js:252 | a match of the four-field pattern is well formed and spells out the whole text |
| `SfenParse.MatchSfenExact` | web/shogi.js:252 | the scanner accepts exactly the texts of well-formed matches |
| `SfenParse.MalformedExactly` | web/shogi.js:251-255 | `fromSfen` gives `null` exactly when the trimmed text is not board, white space, side, white space, hand, white space, ply |
| `SfenParse.EmptyBoard` | web/shogi.js:224 | a new board has 81 squares, all empty |
| `SfenParse.Put` | web/shogi.js:268 | `putPiece` sets the one square named and no other; a square outside 0..80 changes none of the 81 |
| `SfenParse.BuildFromMatch` | web/shogi.js:256-284 | once the pattern matched, the result is never `Malformed`; it is `UnknownToken` (which `fromSfen` turns into `null`) only when a rank token names no piece. A parsed position has 81 squares, two hands and a ply of at least 1, and white moves exactly when the side letter is `w` |
| `SfenParse.ParseSfen` | web/shogi.js:251-285 | the result is `null` exactly when the trimmed text fails the pattern; a parsed ply is at least 1 (0 reads as 1) |
| `SfenFormat.RankCells` | web/shogi.js:294-295 | the squares of rank `r` in the order `toSfen` visits them: file 8 down to file 0 |
| `SfenRoundTrip.BoardRoundTrip` | web/shogi.js:258-273 | reading the board text of a readable board places every piece back on its square |
| `SfenRoundTrip.HandLetterText` | web/shogi.js:321 | a piece in hand is written as one letter, which reads back as that piece |
| `SfenRoundTrip.HandTextEmpty` | web/shogi.js:314-323 | the entries of one hand are empty exactly when its word is `HAND_EMPTY` |
| `SfenRoundTrip.HandsDash` | web/shogi.js:311-312 | the hand field is `-` exactly when both words are `HAND_EMPTY`, and it always has the form the pattern accepts |
| `SfenRoundTrip.HandsRoundTrip` | web/shogi.js:274-281 | reading the hand field `toSfen` writes gives both hand words back |
| `SfenRoundTrip.PlyRoundTrip` | web/shogi.js:283 | the ply written as decimal reads back, with 0 read as 1 |
| `SfenRoundTrip.SfenTextRoundTrip` | web/shogi.js:251-327 | `fromSfen(toSfen(p))` has `p`'s board, hands and side to move, and `p`'s ply, with 0 read as 1 |
| `SfenFacts.EmptyRowText` | web/shogi.js:293-308 | a run of empty squares is written as one decimal count |
| `SfenFacts.EmptyRankText` | web/shogi.js:293-308 | an empty rank is written `9` |
| `SfenFacts.EmptyRanksFrom` | web/shogi.js:289-309 | the empty ranks from `r` on are written as `9`s joined by `/` |
| `SfenFacts.EmptyBoardText` | web/shogi.js:288-309 | the empty board is written `9/9/9/9/9/9/9/9/9` |
| `SfenFacts.LineSplit` | web/shogi.js:310-326 | the line is the board, side and hands fields, each followed by one space, then the ply |
| `SfenFacts.FreshText` | test/lib/shogi.test.js:17 | a fresh position is written `9/9/9/9/9/9/9/9/9 b - 0` |
| `SfenFacts.WrittenTextStable` | test/lib/shogi.test.js:18-19 | `fromSfen(s).toSfen() == s` for every line `s` that `toSfen` writes for a readable position at ply 1 or more |
| `SfenFacts.PlyZeroNotStable` | web/shogi.js:283 | a line written at ply 0 reads back with ply 1, so writing it again gives a different line |
| `PositionSpec.Captured` | web/shogi.js:330-338 | a drop captures nothing |
| `PositionSpec.DoMoveRecords` | web/shogi.js:347-350 | `doMove` flips the side to move, adds 1 to the ply and pushes a node with the old state, the move and the captured piece |
| `PositionSpec.DoMoveFrame` | web/shogi.js:329-346 | no square other than the destination and, for a board move, the origin changes |
| `PositionSpec.DropPlaces` | web/shogi.js:332-335 | a drop puts `pieceInit(side, pr)` on the destination |
| `PositionSpec.BoardMovePlaces` | web/shogi.js:342-345 | a board move empties the origin and puts the moved piece on the destination, promoted when the flag is set |
| `PositionSpec.DropTakesFromHand` | web/shogi.js:333-334 | a drop takes one piece of its raw type from the mover's hand and leaves the other counts unchanged |
| `PositionSpec.CaptureAddsToHand` | web/shogi.js:337-341 | a capture adds one piece of the captured raw type to the mover's hand and leaves the other counts unchanged |
| `PositionSpec.DoMoveKeepsOtherHand` | web/shogi.js:329-346 | the opponent's hand word never changes |
| `PositionSpec.UndoDoMove` | web/shogi.js:329-373 | under the undo preconditions, `undoMove` right after `doMove(m)` restores board, hands, side, ply and state exactly, a captured promoted piece in its promoted form |
| `PositionSpec.DropUndone` | web/shogi.js:358-360 | taking back a drop restores the board and both hands |
| `PositionSpec.BoardMoveUndone` | web/shogi.js:361-369 | taking back a board move restores the board and both hands |
| `PositionSpec.UndoGame` | web/shogi.js:353-373 | playing a sequence of undoable moves and then undoing as many gives back the starting position |
| `Position.Position.constructor` | web/shogi.js:223-229 | a new position has an empty board, empty hands, black to move, ply 0 and the root state |
| `Position.Position.GetPiece` | web/shogi.js:231-233 | on a printable board the piece read has a text |
| `Position.Position.PutPiece` | web/shogi.js:235-237 | the board afterwards is the old board with square `sq` set to `pc` |
| `Position.Position.RemovePiece` | web/shogi.js:239-241 | the board afterwards is the old board with square `sq` emptied |
| `Position.Position.GetHandCount` | web/shogi.js:243-245 | on a fitting hand word, the count read is within the slot of its raw type |
| `Position.Position.AddHandCount` | web/shogi.js:247-249 | only `hands[c]` changes, by `handDiff(pr, d)` |
| `Position.Position.PlaceRankTokens` | web/shogi.js:260-271 | the rank loop of `fromSfen` succeeds exactly when `PlaceRank` does, and leaves the board `PlaceRank` gives |
| `Position.Position.AddHandTokens` | web/shogi.js:274-281 | the hand loop leaves the hands `AddHands` gives |
| `Position.Position.PlaceRankTexts` | web/shogi.js:258-273 | the board loop succeeds exactly when `PlaceRanks` does, and leaves the board `PlaceRanks` gives |
| `Position.Position.FromMatch` | web/shogi.js:256-284 | once the pattern matched, the result is `null` exactly when a rank token names no piece, else a fresh position holding what `BuildFromMatch` reads |
| `Position.Position.FromSfen` | web/shogi.js:251-285 | `null` exactly when `ParseSfen` does not parse the text; otherwise a fresh position with the parsed board, hands, side and ply and nothing to undo |
| `Position.Position.CellSfen` | web/shogi.js:295-304 | a piece closes the pending run of empty squares and writes its text; an empty square lengthens the run |
| `Position.Position.RankSfen` | web/shogi.js:293-308 | the inner loop writes exactly `RankText` of rank `r` |
| `Position.Position.BoardSfen` | web/shogi.js:288-309 | the rank loop writes exactly `BoardText` |
| `Position.Position.EntrySfen` | web/shogi.js:316-322 | one hand entry is written as `EntryText` |
| `Position.Position.HandSfen` | web/shogi.js:315-323 | the entries of one colour are written as `HandText`, in the order of `HAND_PIECE_RAWS` |
| `Position.Position.HandsSfen` | web/shogi.js:311-325 | the hand field is written as `HandsText` |
| `Position.Position.ToSfen` | web/shogi.js:287-327 | `toSfen` returns exactly `SfenText` of the board, hands, side and ply |
| `Position.Position.DoMove` | web/shogi.js:329-351 | the new position is `DoMoveSpec` of the old, and the piece returned is the captured piece |
| `Position.Position.UndoMove` | web/shogi.js:353-373 | the new position is `UndoMoveSpec` of the old: unchanged at the root, else the last move taken back |
| `Position.RowStep` | web/shogi.js:294-305 | one pass of the inner loop keeps the text written so far plus what is left to write equal to the rank's text |
| `Position.RanksAfterStep` | web/shogi.js:289-309 | one pass of the rank loop keeps the text written so far plus the rest of the ranks equal to the board text |
| `Position.EntriesStep` | web/shogi.js:315-323 | one pass of the hand loop keeps the text written so far plus the remaining entries equal to the hand's text |
| `Position.HandsUpToAll` | web/shogi.js:314-324 | black's entries then white's form the hand field when a hand is not empty |
| `Position.JoinFields` | web/shogi.js:310-326 | the fields appended as `toSfen` appends them form the line `SfenText` groups |
| `Position.FreshPositionText` | test/lib/shogi.test.js:16-17 | `new Position().toSfen()` is `9/9/9/9/9/9/9/9/9 b - 0` |

## Left out

- `web/zshogi.js`, `web/zshogi-async.js`, `web/zshogi-worker.js`, `web/index.js`,
  `vite.config.js` and `test/lib/zshogi.test.js` are not part of this model.
  They are the WebAssembly bridge to a compiled engine that is not shown, Web
  Worker messaging, DOM wiring and build configuration.
- Legality of moves: the library checks none. The undo law is stated under
  explicit preconditions (`PositionSpec.Undoable`):
  - the destination is on the board;
  - a drop goes to an empty square;
  - a board move has its origin different from its destination, both on the
    board;
  - a promoting move moves a piece whose bit 3 is clear.
- Position.Position.FromSfen: a rank token whose text has no entry in
  `PIECE_TO_USI` (such as `x` or `+K`) makes the source store `undefined` on
  that square. The model returns `null` instead, a separate outcome
  (`SfenParse.SfenResult.UnknownToken`), because no other operation handles
  `undefined`.
- SfenParse.Put: a rank or file count that runs past the board makes the
  source write outside the 81 squares. Such a write is modelled as changing
  none of the 81 squares, since nothing reads those properties back.
- Moves.DropRaw: a drop letter with no piece (`X*1a`) gives raw type 0,
  because the source shifts `undefined` left by 7. A reader might expect
  `MOVE_NONE` for such a text; the model follows the code.
- Moves.UsiRoundTrip: stated only for drop letters that name black pieces and
  carry no `+`, since the pattern also accepts `P*1b+`, whose `+` the code
  ignores, and lower-case letters are not accepted.
- Pieces.PieceFromUsi: `pieceFromUsi('')` is 16 in the source, the last empty
  table entry. The model keeps that, and every round trip is stated for
  non-empty texts.
- Hands.HandCount: the count is read from the word modulo 2^32, with bit 31 as
  the sign, as JavaScript's `&` and `>>` read it. Hand words are otherwise
  unbounded integers: the model does not round above 2^53 the way JavaScript
  numbers do.
- Text.NatToString: the ply is an unbounded integer written as plain decimal
  digits. In the source `gamePly` is a JavaScript number: `String(n)` switches
  to exponent form from 10^21 (`1e+21`), and `+s` rounds a decimal text above
  2^53 to the nearest double, while the model writes and reads every ply
  exactly. Doubles are not modelled.
- SfenParse.PlyOf: reads the ply digits exactly, where the source's `+s`
  rounds above 2^53 (so `9007199254740993` reads as 9007199254740992 there).
- SfenRoundTrip.PlyRoundTrip: holds in the source only for plies below 10^21
  (exact only up to 2^53). From 10^21 on the source writes `1e+21`, which the
  ply pattern `(\d+)$` does not accept.
- SfenRoundTrip.SfenTextRoundTrip: holds in the source only for plies below
  10^21. From 10^21 on the line `toSfen` writes has an exponent ply, and
  `fromSfen` of it is `null`.
- SfenFacts.WrittenTextStable: holds in the source only for plies below 10^21,
  for the same reason; the model's plies have no upper bound.
- Hands.AddHandCountLaw: the count law holds only while the new count stays
  inside its slot (pawn 0..255, others 0..15, gold 0..7). A count outside its
  slot carries into the next field in the source as well.
- Position.Position.AddHandCount: its own contract states only the new hand
  word. What the counts read afterwards is `Hands.AddHandCountLaw`.
- Position.Position.DoMove: requires the destination, the origin and the
  dropped raw type to be inside their fields (`PositionSpec.MoveFits`). The
  source would index outside the arrays otherwise.
- Position.Position.ToSfen: requires every square to hold a piece with a
  table entry (`SfenFormat.PrintableBoard`). The source writes `undefined`
  for any other value.
- SfenFacts.WrittenTextStable: the tests also check that the start position
  and the "matsuri" position (`web/shogi.js:376-377`) go through
  `fromSfen`/`toSfen` unchanged. The model proves that law for every line
  `toSfen` writes at ply 1 or more. It does not evaluate the two concrete
  81-square texts, which the verifier cannot compute within its resource
  limit.
- The six-move game of `test/lib/shogi.test.js:34-51` is not replayed
  concretely, for the same reason. `PositionSpec.UndoGame` proves its final
  claim, that undoing every move gives back the starting position, for every
  sequence of undoable moves.
- The law `fromSfen(toSfen(p)).toSfen() == p.toSfen()` fails at ply 0, the
  ply of a fresh position, because `fromSfen` reads ply 0 as 1. `SfenFacts.PlyZeroNotStable`
  proves the failure and `SfenFacts.WrittenTextStable` proves the law for
  every other ply. The tests pin `... b - 0` for a fresh position, so this is
  intended behaviour, not a defect.
