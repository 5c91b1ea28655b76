# Schachspiel rules engine in Dafny

This project models the rules engine of Schachspiel, a browser chess game.
The engine is the piece vocabulary in `docs/pieces.js` and the rule methods of
the `ChessGame` class in `docs/app.js`. The project proves properties of that
model. The model covers:

- the board of 64 cells, indexed row by row from a8 (0) to h1 (63);
- the Unicode glyphs stored in the cells, their colour and kind, and the
  square names;
- the movement rules in `isValidMoveRaw`, `isValidPawnMove`, `isPathClear`
  and `canCastle`;
- the attack and check queries (`isSquareAttacked`, `isInCheck`,
  `findKing`) and the scratch-board test `wouldBeInCheck`;
- `isLegalMove` and `hasLegalMoves`;
- `makeMove`, with en passant, castling, the castling rights, the half-move
  clock and the promotion pause;
- `completePromotion`, `finishMove`, `checkGameState` with its draw rules,
  and the position hash behind threefold repetition;
- the short algebraic notation with German letters, and its disambiguation;
- `saveState` and `undoMove`;
- the effect of a square click from `handleSquareClick`.

The model stores the game's fields in one immutable `Game` record. The
`ChessGame` methods that change the game become functions from a game to a
game; the rule queries become functions and predicates on a `Position`.
Board cells are `Option<Piece>`. `Pieces.CellText` and `Pieces.ParseCell` connect this
representation to the glyph strings the source stores. The recursion
`isValidMoveRaw → canCastle → isInCheck → isSquareAttacked →
isValidMoveRaw(forAttack)` is one mutually recursive group of functions
(`Rules.RawMove`, `Rules.CanCastle`, `Rules.InCheck`, `Rules.SquareAttacked`).
It terminates because attack mode never castles. The module `Scans` holds the
source's loops as methods. Each method is proved to compute the declarative
predicate it replaces.

Modules, one file each:

| module | file | contents |
|---|---|---|
| Options | options.dfy | `Option` |
| Pieces | pieces.dfy | glyphs, colour/kind classification, squares, start position |
| Seqs | seqs.dfy | `indexOf` and filtered counts |
| Rules | rules.dfy | movement, attack, check, scratch board, legality |
| RuleFacts | rule_facts.dfy | per-piece patterns, castling conditions, path geometry |
| MovePatterns | move_patterns.dfy | offset sets and sliding directions for every piece, the castling rule |
| Notation | notation.dfy | move text and its reader |
| GameState | game_state.dfy | game record, verdicts, position hash (as written and corrected) |
| Evaluation | evaluation.dfy | repetition, insufficient material, checkGameState |
| Disambiguation | disambiguation.dfy | getDisambiguation |
| Moves | moves.dfy | initGame, makeMove, finishMove, completePromotion, undoMove, clicks |
| Conservation | conservation.dfy | material on the board plus captured lists is constant |
| Scans | scans.dfy | the loops of isPathClear, isSquareAttacked, hasLegalMoves, findKing |

## Model

| member | source | states |
|---|---|---|
| Pieces.GlyphInjective | Downloads/Schachspiel-main/Schachspiel-main/docs/pieces.js:6-13 | No two pieces in the PIECES table share a glyph. |
| Pieces.IncludesSingle | Downloads/Schachspiel-main/Schachspiel-main/docs/pieces.js:92-103 | A one-character `includes` test holds exactly when the character occurs in the searched string. |
| Pieces.ColorOfGlyph | Downloads/Schachspiel-main/Schachspiel-main/docs/pieces.js:16-17 | getPieceColor classifies every piece's glyph with that piece's colour. |
| Pieces.ColorOfSingleChar | Downloads/Schachspiel-main/Schachspiel-main/docs/pieces.js:92-113 | On a one-character string, getPieceColor returns white exactly for the six white glyphs, black exactly for the six black ones, and null otherwise. |
| Pieces.ColorOfTextIsSubstringTest | Downloads/Schachspiel-main/Schachspiel-main/docs/pieces.js:92-113 | The colour test is a substring search: two adjacent white glyphs count as white, two adjacent black glyphs count as black, and a mixed pair has no colour. |
| Pieces.ColorOfLongText | Downloads/Schachspiel-main/Schachspiel-main/docs/pieces.js:110-113 | A string longer than six characters has no colour. |
| Pieces.KindOfTextExact | Downloads/Schachspiel-main/Schachspiel-main/docs/pieces.js:120-126 | getPieceType returns kind k exactly for the white or black glyph of k. |
| Pieces.ParseCellText | Downloads/Schachspiel-main/Schachspiel-main/docs/pieces.js:110-126 | Reading a stored cell's colour and kind gives back the cell. |
| Pieces.CellTextParse | Downloads/Schachspiel-main/Schachspiel-main/docs/pieces.js:110-126 | A string that has both a colour and a kind is exactly one piece's glyph. |
| Pieces.At | Downloads/Schachspiel-main/Schachspiel-main/docs/app.js:1188-1191 | Index row*8+col has that row and that column. |
| Pieces.SquareNameRoundTrip | Downloads/Schachspiel-main/Schachspiel-main/docs/pieces.js:161-165 | Parsing the name of a square gives back the square. |
| Pieces.ParseSquareRoundTrip | Downloads/Schachspiel-main/Schachspiel-main/docs/pieces.js:161-165 | Every well-formed square name is the name of the square it parses to. |
| Pieces.SquareNameInjective | Downloads/Schachspiel-main/Schachspiel-main/docs/pieces.js:161-165 | Distinct squares get distinct names; index 0 is a8 and index 63 is h1. |
| Pieces.StartPosition | Downloads/Schachspiel-main/Schachspiel-main/docs/pieces.js:20-85 | Kings start on e8/e1 and queens on d8/d1. Ranks 3 to 6 (indices 16 to 47) are empty. The position is colour-mirror symmetric. |
| Seqs.IndexOf | Downloads/Schachspiel-main/Schachspiel-main/docs/app.js:993-996 | indexOf returns -1 exactly when the element is absent; otherwise it returns an index holding the element with no earlier occurrence. |
| Seqs.CountIsMultiplicity | Downloads/Schachspiel-main/Schachspiel-main/docs/app.js:792-795 | The filter-and-length count equals the element's multiplicity. |
| Seqs.CountAppend | Downloads/Schachspiel-main/Schachspiel-main/docs/app.js:678 | Pushing a hash adds one to its own count and nothing to any other count. |
| Rules.RawMove | Downloads/Schachspiel-main/Schachspiel-main/docs/app.js:1176-1249 | A raw move starts from an occupied square, goes to a different square, and never lands on a piece of the mover's colour. |
| Rules.FindKing | Downloads/Schachspiel-main/Schachspiel-main/docs/app.js:993-996 | findKing returns -1 exactly when the king is missing; otherwise it returns a square holding that king. |
| Rules.Clear | Downloads/Schachspiel-main/Schachspiel-main/docs/app.js:1044-1047 | Removing the en-passant victim on the scratch board empties that square and leaves every other square as it was. |
| Rules.Simulate | Downloads/Schachspiel-main/Schachspiel-main/docs/app.js:1036-1070 | The scratch board differs from the real board only on the origin, the target, the en-passant victim and the castling rook's two squares. |
| RuleFacts.PawnMovePattern | Downloads/Schachspiel-main/Schachspiel-main/docs/app.js:1150-1164 | A pawn moves exactly in one of three ways: one step onto an empty square; a double step from its start row over an empty square onto an empty square; or a diagonal step onto an enemy piece or onto the en-passant target. |
| MovePatterns.KnightMoves | Downloads/Schachspiel-main/Schachspiel-main/docs/app.js:1207-1213 | A knight reaches exactly the squares one of the eight knight jumps leads to, unless an own piece stands there. |
| MovePatterns.SlidesIsShapeAndPath | Downloads/Schachspiel-main/Schachspiel-main/docs/app.js:1106-1124 | Sliding along a direction over empty squares reaches `to` exactly when the two squares differ, lie on the piece's line shape, and isPathClear holds. |
| MovePatterns.SliderMoves | Downloads/Schachspiel-main/Schachspiel-main/docs/app.js:1201-1230 | A rook, bishop or queen reaches exactly the squares it slides to along one of its directions over empty squares, unless an own piece stands there. |
| MovePatterns.PawnAttacks | Downloads/Schachspiel-main/Schachspiel-main/docs/app.js:1138-1148 | In attack mode a pawn covers exactly its two diagonal neighbours toward the opponent. |
| MovePatterns.KingAttacks | Downloads/Schachspiel-main/Schachspiel-main/docs/app.js:1233-1246 | In attack mode a king covers exactly its eight neighbours. |
| MovePatterns.KingMoves | Downloads/Schachspiel-main/Schachspiel-main/docs/app.js:1233-1246 | Outside attack mode a king steps to a neighbour, or moves two columns along its row exactly when canCastle allows it; nothing else. |
| MovePatterns.CastlingRule | Downloads/Schachspiel-main/Schachspiel-main/docs/app.js:1258-1299 | For a king on the e-file, castling is allowed exactly when the king is not in check, the right for that side is held, every square between king and rook is empty, and no square the king crosses or lands on is attacked. |
| RuleFacts.AttackIgnoresFlags | Downloads/Schachspiel-main/Schachspiel-main/docs/app.js:1146-1148 | Attack-mode moves read neither the en-passant target nor the castling rights. |
| RuleFacts.CheckIgnoresFlags | Downloads/Schachspiel-main/Schachspiel-main/docs/app.js:1005-1027 | isSquareAttacked and isInCheck do not depend on the en-passant target or on the castling rights. |
| RuleFacts.WaypointIsBetween | Downloads/Schachspiel-main/Schachspiel-main/docs/app.js:1112-1122 | Every square the path walk visits lies strictly between origin and target on their line. |
| RuleFacts.BetweenIsWaypoint | Downloads/Schachspiel-main/Schachspiel-main/docs/app.js:1112-1122 | Every square strictly between origin and target on their line is visited by the walk. |
| RuleFacts.PathClearGeometric | Downloads/Schachspiel-main/Schachspiel-main/docs/app.js:1106-1124 | isPathClear holds exactly when every square strictly between the two squares is empty. |
| RuleFacts.IllegalBasics | Downloads/Schachspiel-main/Schachspiel-main/docs/app.js:1180-1186 | These moves are never legal and never attacks: a move from an empty square, a move onto the origin itself, and a move onto an own piece. |
| Notation.LetterRoundTrip | Downloads/Schachspiel-main/Schachspiel-main/docs/pieces.js:147-154 | Only the pawn has no letter. Every other kind has one letter, which reads back as that kind. |
| Notation.MoveText | Downloads/Schachspiel-main/Schachspiel-main/docs/pieces.js:177-190 | A castling is written as O-O or O-O-O. Every other move text ends with the target square's name. |
| Notation.CastleTextRoundTrip | Downloads/Schachspiel-main/Schachspiel-main/docs/pieces.js:177-179 | A castling text reads back as that castling. |
| Notation.ReadRestParts | Downloads/Schachspiel-main/Schachspiel-main/docs/pieces.js:189 | A disambiguation followed by an optional "x" splits back into the two parts. |
| Notation.ReadHeadParts | Downloads/Schachspiel-main/Schachspiel-main/docs/pieces.js:189 | The part before the target reads back as letter, disambiguation and capture flag. |
| Notation.ReadPlainText | Downloads/Schachspiel-main/Schachspiel-main/docs/pieces.js:189 | The generic shape (letter, disambiguation, capture mark, target) reads back into its parts. |
| Notation.MoveTextRoundTrip | Downloads/Schachspiel-main/Schachspiel-main/docs/pieces.js:180-190 | A non-castling text reads back as the mover's kind, capture flag and target, and as the given disambiguation. A pawn capture reads back the origin file instead. |
| Notation.MoveTextNamesTarget | Downloads/Schachspiel-main/Schachspiel-main/docs/pieces.js:189 | Two non-castling texts that are equal have the same target. |
| Notation.CastleTextIsDistinct | Downloads/Schachspiel-main/Schachspiel-main/docs/pieces.js:177-189 | No ordinary move text equals a castling text. |
| GameState.Decimal | Downloads/Schachspiel-main/Schachspiel-main/docs/app.js:788 | The decimal text of an index is never empty. |
| GameState.DecimalInjective | Downloads/Schachspiel-main/Schachspiel-main/docs/app.js:788 | Different en-passant indices give different decimal texts. |
| GameState.JoinAppend | Downloads/Schachspiel-main/Schachspiel-main/docs/app.js:779 | `join("")` of a concatenation is the concatenation of the joins. |
| GameState.HashAsWrittenCollides | Downloads/Schachspiel-main/Schachspiel-main/docs/app.js:776-790 | getBoardHash as written gives the same hash for two different positions: a piece with an empty square after it, and the same piece one square later. |
| GameState.PositionHashSeparates | Downloads/Schachspiel-main/Schachspiel-main/docs/app.js:776-790 | With a placeholder for each empty cell, the two positions of the collision get different hashes. |
| GameState.PositionHashInjective | Downloads/Schachspiel-main/Schachspiel-main/docs/app.js:776-790 | The corrected hash is equal exactly when the positions and the sides to move are equal. |
| Evaluation.ThreefoldIsMultiplicity | Downloads/Schachspiel-main/Schachspiel-main/docs/app.js:792-795 | isThreefoldRepetition holds exactly when the current hash occurs at least three times in the history. |
| Evaluation.ThirdOccurrenceTriggers | Downloads/Schachspiel-main/Schachspiel-main/docs/app.js:674-678 | When a hash is on record twice, repetition does not hold yet, and appending it once more makes repetition hold. |
| Evaluation.Occupied | Downloads/Schachspiel-main/Schachspiel-main/docs/app.js:798 | `board.filter(Boolean)` keeps exactly the pieces on the board. |
| Evaluation.OfKinds | Downloads/Schachspiel-main/Schachspiel-main/docs/app.js:807-810 | The kind filter keeps exactly the pieces of the listed kinds. |
| Evaluation.InsufficientMaterialShape | Downloads/Schachspiel-main/Schachspiel-main/docs/app.js:797-806 | A draw for insufficient material needs at most four pieces, all kings, knights or bishops. |
| Evaluation.BareKingsAreDrawn | Downloads/Schachspiel-main/Schachspiel-main/docs/app.js:808 | With at most four pieces, all kings, the material is insufficient. |
| Evaluation.LoneMinorIsDrawn | Downloads/Schachspiel-main/Schachspiel-main/docs/app.js:808 | Kings plus one knight or bishop is insufficient material. |
| Evaluation.TwoBishops | Downloads/Schachspiel-main/Schachspiel-main/docs/app.js:809-816 | With kings and two bishops, the material is insufficient exactly when the bishops stand on the same colour, or are the same glyph. In the second case indexOf finds the first bishop twice. |
| Evaluation.KnightAndMinorAreNotDrawn | Downloads/Schachspiel-main/Schachspiel-main/docs/app.js:807-818 | Kings plus two minor pieces of which one is a knight (two knights, or a knight and a bishop) are never insufficient material: only a bishop pair gets the colour test, and every other pair falls through to `return false`. |
| Evaluation.ThreeMinorsAreNotDrawn | Downloads/Schachspiel-main/Schachspiel-main/docs/app.js:807-818 | Three or more knights and bishops anywhere on the board are never insufficient material. |
| Evaluation.Evaluate | Downloads/Schachspiel-main/Schachspiel-main/docs/app.js:741-774 | The verdict is fixed in the source's order. Repetition comes first. The fifty-move rule follows when there is no repetition. Insufficient material follows when neither holds. Then, with no legal move, checkmate (the opponent wins) if the side to move is in check, else stalemate. The game goes on exactly when none of these holds, reporting check exactly when the side to move is in check. |
| Evaluation.MarkLast | Downloads/Schachspiel-main/Schachspiel-main/docs/app.js:757-758 | Appending a mark changes only the last move text, and only by that suffix. |
| Evaluation.CheckGameState | Downloads/Schachspiel-main/Schachspiel-main/docs/app.js:741-774 | Only the move list and the ending change. The game ends exactly on an ending verdict, recorded as the ending. Checkmate appends "#" to the last move text and check appends "+"; nothing else is marked. |
| Disambiguation.SquareChars | Downloads/Schachspiel-main/Schachspiel-main/docs/app.js:838-844 | File letters agree exactly on equal columns, and rank digits agree exactly on equal rows. |
| Disambiguation.Choose | Downloads/Schachspiel-main/Schachspiel-main/docs/app.js:837-844 | The result is empty, a file, a rank or the whole square, and it is true of the origin. With rivals, none sharing the file, it is the file. With some rival on the file and none on the rank, it is the rank. Two characters are always the origin's full name, file first. |
| Disambiguation.ChooseSeparates | Downloads/Schachspiel-main/Schachspiel-main/docs/app.js:837-844 | The choice follows the file-then-rank-then-square rule, is empty exactly when there is no rival, and is true of no rival. |
| Disambiguation.Disambiguate | Downloads/Schachspiel-main/Schachspiel-main/docs/app.js:821-845 | The result is a well-formed disambiguation (at most a file letter and a rank digit) that is true of the origin square. |
| Disambiguation.DisambiguationSeparates | Downloads/Schachspiel-main/Schachspiel-main/docs/app.js:821-845 | Pawns and kings get none. For other pieces the result is empty exactly when no other piece of the same colour and kind can move legally to the target. Otherwise it is the file when no such rival shares it, else the rank when none shares that, else the whole square, and it is never true of a rival. |
| Moves.NewGame | Downloads/Schachspiel-main/Schachspiel-main/docs/app.js:77-116 | A new game has the start position, all four rights, no en-passant target and white to move. Its hash is the only history entry, and there are no moves, no undo states and no pending promotion. |
| Moves.UpdateRights | Downloads/Schachspiel-main/Schachspiel-main/docs/app.js:615-634 | Each right survives exactly when its king did not move, its rook did not leave its corner, and nothing moved onto that corner. |
| Moves.Finish | Downloads/Schachspiel-main/Schachspiel-main/docs/app.js:674-687 | The turn passes over, the move becomes the last move and the new position's hash is appended. The board is unchanged, and only the last move text may gain "+" or "#". |
| Moves.DoublePushRow | Downloads/Schachspiel-main/Schachspiel-main/docs/app.js:1150-1155 | A pawn move of two rows starts on the pawn's start row and stays on its file, 16 indices away. |
| Moves.Apply | Downloads/Schachspiel-main/Schachspiel-main/docs/app.js:559-642 | Before the promotion check, makeMove changes only the board, the en-passant target, the rights, the captured lists, the clock and the undo stack. |
| Moves.MakeMove | Downloads/Schachspiel-main/Schachspiel-main/docs/app.js:559-671 | The moved piece ends on the target and the origin is empty. No castling right is gained. |
| Moves.CompletePromotion | Downloads/Schachspiel-main/Schachspiel-main/docs/app.js:711-734 | The pawn on the target becomes the chosen piece and the clock resets. The turn passes over. One text is appended: the pawn move plus "=" and the letter, possibly marked "+" or "#". |
| Moves.Resize | Downloads/Schachspiel-main/Schachspiel-main/docs/app.js:1325-1326 | Setting the length keeps the prefix and pads with entries that match no hash. |
| Moves.Undo | Downloads/Schachspiel-main/Schachspiel-main/docs/app.js:1306-1330 | Undo is refused with no saved state, after the game ended, or while a promotion waits. Otherwise the last saved state is restored, the position history is cut to its saved length and the last move text is dropped. |
| Moves.Play | Downloads/Schachspiel-main/Schachspiel-main/docs/app.js:426-453 | A click changes the game only when the game is running and no promotion waits. The selected piece must belong to the side to move and the target must be legal. |
| Moves.EnPassantTargetIsSkippedSquare | Downloads/Schachspiel-main/Schachspiel-main/docs/app.js:591-596 | After a double push the en-passant target is the skipped square, midway on the same file. Every other move clears the target. |
| Moves.SkippedSquareIsEmpty | Downloads/Schachspiel-main/Schachspiel-main/docs/app.js:592-593 | The skipped square is empty after the double push. |
| Moves.HalfMoveClock | Downloads/Schachspiel-main/Schachspiel-main/docs/app.js:636-638 | The clock restarts exactly when a pawn moved or a piece was added to the captured lists, and otherwise counts up by one. |
| Moves.MakeMoveRecordsText | Downloads/Schachspiel-main/Schachspiel-main/docs/app.js:644-671 | The text recorded for a move that does not promote reads back, once a "+" or "#" is taken off, as that move. A castling reads back as O-O or O-O-O. Any other move reads back as the mover's kind, its disambiguation (the origin file for a pawn capture), its capture flag with en passant counted, and its target. |
| Moves.CastlingMovesRook | Downloads/Schachspiel-main/Schachspiel-main/docs/app.js:599-613 | When an e-file king castles, the king lands on the target and the rook goes from the h-file to the f-file (king side) or from the a-file to the d-file (queen side). Both origins are left empty and every other square is unchanged. |
| Moves.EnPassantRemovesVictim | Downloads/Schachspiel-main/Schachspiel-main/docs/app.js:581-589 | An en-passant capture empties the victim's square, puts the pawn on the target, appends the victim to the captured list of its colour and restarts the clock. |
| Moves.PromotionWaits | Downloads/Schachspiel-main/Schachspiel-main/docs/app.js:644-670 | A pawn reaching the last row waits: the turn is kept and nothing is recorded. Any other move passes the turn and records one text and the new position. |
| Moves.UndoMakeMove | Downloads/Schachspiel-main/Schachspiel-main/docs/app.js:1306-1330 | Undoing a non-promoting move that did not end the game gives back the exact game before it. |
| Moves.UndoRefusedWhilePromoting | Downloads/Schachspiel-main/Schachspiel-main/docs/app.js:1307-1312 | While a promotion waits, undo changes nothing. |
| Moves.UndoPromotion | Downloads/Schachspiel-main/Schachspiel-main/docs/app.js:711-734 | Undoing a completed promotion that did not end the game gives back the game before the pawn move. |
| Moves.CastlingShape | Downloads/Schachspiel-main/Schachspiel-main/docs/app.js:1238-1244 | A castling king move stays on its row and lands on the c- or g-file. |
| Moves.MoveBoardIsSimulation | Downloads/Schachspiel-main/Schachspiel-main/docs/app.js:1036-1070 | makeMove produces the same board as the scratch board of wouldBeInCheck, castling from the e-file or the a-file included. The one exception is a pawn stepping straight onto the en-passant target. |
| Moves.LegalMeansMoverSafe | Downloads/Schachspiel-main/Schachspiel-main/docs/app.js:1078-1082 | For every raw move except a pawn stepping straight onto the en-passant target, isLegalMove holds exactly when the mover's king is not in check in the position makeMove produces. |
| Moves.PlayAlternates | Downloads/Schachspiel-main/Schachspiel-main/docs/app.js:426-453 | A click that changes the game moves a piece of the side to move. The turn passes over unless a promotion now waits. |
| Moves.NewGameFacts | Downloads/Schachspiel-main/Schachspiel-main/docs/app.js:95-115 | A new game is no repetition, and undo does nothing on it. |
| Conservation.OccupiedUpdate | Downloads/Schachspiel-main/Schachspiel-main/docs/app.js:641-642 | Writing one cell changes the piece count by what the write adds or removes. |
| Conservation.CastlingLandingEmpty | Downloads/Schachspiel-main/Schachspiel-main/docs/app.js:1273-1292 | When an e-file king castles, the square its rook lands on is empty. |
| Conservation.VictimClearedCount | Downloads/Schachspiel-main/Schachspiel-main/docs/app.js:581-589 | Removing the en-passant victim removes exactly one piece when the capture happens. |
| Conservation.RelocateCount | Downloads/Schachspiel-main/Schachspiel-main/docs/app.js:603-610 | Moving a piece onto an empty square keeps the piece count. |
| Conservation.RookMovedCount | Downloads/Schachspiel-main/Schachspiel-main/docs/app.js:599-613 | Moving the castling rook keeps the piece count. |
| Conservation.MoveBoardCount | Downloads/Schachspiel-main/Schachspiel-main/docs/app.js:575-642 | A move loses exactly the pieces it captures from the board, when a castling king starts on the e-file. |
| Conservation.MakeMoveConserves | Downloads/Schachspiel-main/Schachspiel-main/docs/app.js:575-642 | makeMove keeps pieces on the board plus captured pieces constant, for every move except an a-file castling and a pawn stepping straight onto the en-passant target. |
| Conservation.AFileCastlingLosesF | Downloads/Schachspiel-main/Schachspiel-main/docs/app.js:599-613 | An a-file king castling to the c-file loses exactly what stood on the f-file of its row. makeMove writes the h-file rook there, the queen-side checks of canCastle (app.js lines 1284-1298) never look at that square, and nothing is recorded as captured. |
| Conservation.PromotionConserves | Downloads/Schachspiel-main/Schachspiel-main/docs/app.js:714 | completePromotion keeps that total constant. |
| Scans.PathClearWalk | Downloads/Schachspiel-main/Schachspiel-main/docs/app.js:1106-1124 | The square-by-square walk computes isPathClear. |
| Scans.SquareAttackedScan | Downloads/Schachspiel-main/Schachspiel-main/docs/app.js:1005-1015 | The index-order scan with early exit computes isSquareAttacked. |
| Scans.HasLegalMovesScan | Downloads/Schachspiel-main/Schachspiel-main/docs/app.js:1089-1098 | The nested scan with early exit computes hasLegalMoves. |
| Scans.FindKingScan | Downloads/Schachspiel-main/Schachspiel-main/docs/app.js:993-996 | The scan finds the first square holding the king, or -1. |
| Pieces.ColorOfText | Downloads/Schachspiel-main/Schachspiel-main/docs/pieces.js:110-113 | getPieceColor as a substring test against the glyph runs. Pieces.ColorOfSingleChar and Pieces.ColorOfGlyph give its meaning on one character. |
| Pieces.KindOfText | Downloads/Schachspiel-main/Schachspiel-main/docs/pieces.js:120-126 | getPieceType. Pieces.KindOfTextExact shows it returns a kind exactly for that kind's two glyphs. |
| Pieces.SquareName | Downloads/Schachspiel-main/Schachspiel-main/docs/pieces.js:161-165 | indexToAlgebraic. Pieces.SquareNameRoundTrip and Pieces.SquareNameInjective show that names and squares correspond one to one. |
| Rules.PawnMove | Downloads/Schachspiel-main/Schachspiel-main/docs/app.js:1138-1164 | isValidPawnMove. RuleFacts.PawnMovePattern and MovePatterns.PawnAttacks give its three move cases and its attack squares. |
| Rules.PathClear | Downloads/Schachspiel-main/Schachspiel-main/docs/app.js:1106-1124 | isPathClear. RuleFacts.PathClearGeometric shows it holds exactly when every square strictly between is empty, and Scans.PathClearWalk shows the loop computes it. |
| Rules.CanCastle | Downloads/Schachspiel-main/Schachspiel-main/docs/app.js:1258-1299 | canCastle. MovePatterns.CastlingRule states it as the castling rule for an e-file king. |
| Rules.SquareAttacked | Downloads/Schachspiel-main/Schachspiel-main/docs/app.js:1005-1015 | isSquareAttacked. Scans.SquareAttackedScan shows the source's scan computes it, and RuleFacts.CheckIgnoresFlags that it reads neither the en-passant target nor the rights. |
| Rules.InCheck | Downloads/Schachspiel-main/Schachspiel-main/docs/app.js:1022-1027 | isInCheck: false without a king, otherwise whether the opponent attacks the king's square. |
| Rules.WouldBeInCheck | Downloads/Schachspiel-main/Schachspiel-main/docs/app.js:1036-1070 | wouldBeInCheck on the scratch board. Moves.MoveBoardIsSimulation shows the scratch board is the board makeMove produces. |
| Rules.IsLegalMove | Downloads/Schachspiel-main/Schachspiel-main/docs/app.js:1078-1082 | isLegalMove. Moves.LegalMeansMoverSafe shows it holds exactly when the mover is not in check after the move. |
| Rules.HasLegalMoves | Downloads/Schachspiel-main/Schachspiel-main/docs/app.js:1089-1098 | hasLegalMoves. Scans.HasLegalMovesScan shows the nested scan computes it. |
| Evaluation.Threefold | Downloads/Schachspiel-main/Schachspiel-main/docs/app.js:792-795 | isThreefoldRepetition over the corrected hash `GameState.PositionHash`. Evaluation.ThreefoldIsMultiplicity states it as a multiplicity. |
| Evaluation.InsufficientMaterial | Downloads/Schachspiel-main/Schachspiel-main/docs/app.js:797-819 | isInsufficientMaterial as written. It is characterised case by case: Evaluation.InsufficientMaterialShape (more than four pieces, or a pawn, rook or queen, is never a draw), BareKingsAreDrawn and LoneMinorIsDrawn (at most one minor piece is a draw), TwoBishops (a bishop pair is a draw exactly when the squares indexOf finds share a colour), KnightAndMinorAreNotDrawn (any other pair of minors is not a draw) and ThreeMinorsAreNotDrawn (three or more minors are not a draw). |
| GameState.HashAsWritten | Downloads/Schachspiel-main/Schachspiel-main/docs/app.js:776-790 | getBoardHash as written. GameState.HashAsWrittenCollides exhibits the collision. |
| GameState.PositionHash | Downloads/Schachspiel-main/Schachspiel-main/docs/app.js:776-790 | getBoardHash with a placeholder for each empty cell. GameState.PositionHashInjective shows it separates positions. |
| Moves.Save | Downloads/Schachspiel-main/Schachspiel-main/docs/app.js:536-552 | saveState. Moves.UndoMakeMove and Moves.UndoPromotion show that undoing restores the saved game. |

## Left out

- The user interface is not modelled: DOM updates, highlighting, selection state, the promotion dialog, the move list display, drag and drop and animation. `finishMove` runs right after `makeMove` rather than after the animation callback.
- Sound, the chess clocks and the times kept in the undo snapshots are not modelled. They have no effect on the rules.
- PGN export, copying to the clipboard, resigning, the end-of-game message and the backend are outside the rules engine. They are not modelled.
- `resetGame` is modelled only through `initGame` (`Moves.NewGame`).
- Pieces.ColorOfText: `getPieceColor` uses `String.includes`, so any run of same-coloured glyphs is classified with that colour. The code is followed here, not the reading that any other string is null. Board cells only ever hold one glyph, so the rules are unaffected.
- Rules.IsLegalMove: does not check whose turn it is, just like `isLegalMove`. The caller's turn filter is modelled in `Moves.Play`.
- Moves.MakeMove: is defined only for moves that pass `isValidMoveRaw`. `handleSquareClick` calls `makeMove` only after `isLegalMove`.
- Moves.MoveBoardIsSimulation: excludes a pawn stepping straight onto the en-passant target (`Moves.Ordinary`). There the victim square is the pawn's own origin, so makeMove and wouldBeInCheck write different boards. This does not arise from the start position, where the target is always a square a pawn just skipped.
- Moves.LegalMeansMoverSafe: assumes the same hypothesis.
- Conservation.MakeMoveConserves: additionally assumes that a castling king starts on the e-file (`Conservation.KeepsMaterial`). An a-file king castling to the c-file moves the h-file rook onto the f-file, which canCastle never checks, so a piece standing there vanishes without being recorded as captured. `Conservation.AFileCastlingLosesF` states exactly that loss.
- Moves.CastlingMovesRook: is stated for a king on the e-file. The a-file case's rook move is the one `Conservation.AFileCastlingLosesF` describes.
- MovePatterns.CastlingRule: is stated for a king on the e-file. Elsewhere `canCastle` checks columns 1 to 3 or 5 and 6 of the row wherever the king stands. `RuleFacts.KingSideConditions` and `RuleFacts.QueenSideConditions` state that general form.
- Scans.PathClearWalk: requires the two squares to be on one line. `isPathClear` is only called for such moves. Off a line, its loop would never meet the target.
- Moves.Resize: the holes that `positionHistory.length = n` creates are written as empty strings. No hash is empty, so the repetition count is the same.
- Evaluation.Threefold: counts the corrected `GameState.PositionHash`, not `getBoardHash` as written. On histories where the as-written hash collides (see "## Findings"), `isThreefoldRepetition` reports a repetition that the model does not. `Moves.Finish` and `Moves.NewGame` record the corrected hash for the same reason.
- Evaluation.TwoBishops: keeps the source's `indexOf` lookup. Two bishops with the same glyph always count as a draw, because both lookups return the first one's square. This is recorded as behaviour, not as a finding.

## Findings

| source | as written | input that shows it | evidently intended | confidence | as-written member | corrected member |
|---|---|---|---|---|---|---|
| Downloads/Schachspiel-main/Schachspiel-main/docs/app.js:776-790 | `board.join("")` drops empty cells, because an empty cell is the empty string. Different boards can share a hash, so `isThreefoldRepetition` can count positions that never repeated. | A white rook on a1 with b1 empty, versus the same rook on b1 with a1 empty; everything else equal (indices 56 and 57). | Every empty cell contributes a placeholder character, so the board part of the hash identifies the board. | not executed | GameState.HashAsWrittenCollides | GameState.PositionHashInjective |

The corrected hash `GameState.PositionHash` is the one used by
`Evaluation.Threefold`, `Moves.Finish` and `Moves.NewGame`.
