/**
 * Playing moves on a game: saveState, makeMove, finishMove,
 * completePromotion, undoMove and initGame in docs/app.js, and the effect of
 * handleSquareClick (select a piece of the side to move, then click a legal
 * target).
 */
module Moves {
  import opened Options
  import opened Pieces
  import opened Rules
  import opened Notation
  import opened GameState
  import opened Evaluation
  import opened Disambiguation
  import RuleFacts
  import Seqs

  // ---------------------------------------------------------------------------
  // initGame
  // ---------------------------------------------------------------------------

  const AllRights := Rights(true, true, true, true)

  /** initGame: the start position, white to move, and its hash as the only history entry. */
  function NewGame(): (g: Game)
    ensures g.pos == Position(StartPosition(), None, AllRights) && g.turn == White
    ensures g.positions == [PositionHash(g.pos, g.turn)]
    ensures g.moves == [] && g.history == [] && g.halfMoves == 0
    ensures g.pending.None? && g.ending.None? && g.lastMove.None?
  {
    var pos := Position(StartPosition(), None, AllRights);
    Game(pos, White, 0, [PositionHash(pos, White)], [], Captured([], []), None, None, [], None)
  }

  // ---------------------------------------------------------------------------
  // saveState and the castling-right updates of makeMove
  // ---------------------------------------------------------------------------

  /** saveState: what undoMove restores. */
  function Save(g: Game): Snapshot {
    Snapshot(g.pos, g.turn, g.lastMove, g.captured, g.halfMoves, |g.positions|)
  }

  /** The right tied to a corner square is lost when that corner is left or entered. */
  function RevokeCorner(r: Rights, sq: Square): Rights {
    if sq == 63 then r.(whiteKingSide := false)
    else if sq == 56 then r.(whiteQueenSide := false)
    else if sq == 7 then r.(blackKingSide := false)
    else if sq == 0 then r.(blackQueenSide := false)
    else r
  }

  /**
   * The rights after `piece` moves from `from` to `to`: a king move loses
   * both of its side's rights, a rook leaving a corner loses that corner's,
   * and any move onto a corner loses that corner's.
   */
  function UpdateRights(r: Rights, piece: Piece, from: Square, to: Square): (r': Rights)
    ensures r'.whiteKingSide <==> r.whiteKingSide && piece != Piece(White, King)
                                  && !(piece.kind == Rook && from == 63) && to != 63
    ensures r'.whiteQueenSide <==> r.whiteQueenSide && piece != Piece(White, King)
                                   && !(piece.kind == Rook && from == 56) && to != 56
    ensures r'.blackKingSide <==> r.blackKingSide && piece != Piece(Black, King)
                                  && !(piece.kind == Rook && from == 7) && to != 7
    ensures r'.blackQueenSide <==> r.blackQueenSide && piece != Piece(Black, King)
                                   && !(piece.kind == Rook && from == 0) && to != 0
  {
    var r1 := if piece == Piece(White, King) then r.(whiteKingSide := false, whiteQueenSide := false)
              else if piece == Piece(Black, King) then r.(blackKingSide := false, blackQueenSide := false)
              else r;
    var r2 := if piece.kind == Rook then RevokeCorner(r1, from) else r1;
    RevokeCorner(r2, to)
  }

  /** Every right held afterwards was held before. */
  predicate RightsWithin(a: Rights, b: Rights) {
    (a.whiteKingSide ==> b.whiteKingSide) && (a.whiteQueenSide ==> b.whiteQueenSide)
    && (a.blackKingSide ==> b.blackKingSide) && (a.blackQueenSide ==> b.blackQueenSide)
  }

  // ---------------------------------------------------------------------------
  // finishMove
  // ---------------------------------------------------------------------------

  /**
   * finishMove: record the move as the last one, hand the turn over, append
   * the new position's hash, then classify the position.
   */
  function Finish(g: Game, from: Square, to: Square): (r: Game)
    ensures r.turn == Opponent(g.turn) && r.lastMove == Some(Move(from, to))
    ensures r.positions == g.positions + [PositionHash(g.pos, Opponent(g.turn))]
    ensures r.pos == g.pos && r.history == g.history && r.pending == g.pending
    ensures r.halfMoves == g.halfMoves && r.captured == g.captured
    ensures |r.moves| == |g.moves| && (|g.moves| > 0 ==> r.moves[..|g.moves| - 1] == g.moves[..|g.moves| - 1])
    ensures |g.moves| > 0 ==> var last := g.moves[|g.moves| - 1];
                              r.moves[|g.moves| - 1] in {last, last + "+", last + "#"}
    ensures g.ending.None? && r.ending.None? ==> !Evaluate(r.(ending := None, moves := g.moves)).Ends()
  {
    var handed := g.(lastMove := Some(Move(from, to)), turn := Opponent(g.turn));
    CheckGameState(handed.(positions := handed.positions + [PositionHash(handed.pos, handed.turn)]))
  }

  // ---------------------------------------------------------------------------
  // makeMove
  // ---------------------------------------------------------------------------

  /** A pawn on the first or last row waits for the promotion choice. */
  predicate Promotes(piece: Piece, to: Square) {
    piece.kind == Pawn && (Row(to) == 0 || Row(to) == 7)
  }

  /** A pawn move onto the en-passant target captures en passant. */
  predicate EnPassantCapture(p: Position, piece: Piece, to: Square) {
    piece.kind == Pawn && p.enPassant == Some(to)
  }

  /** A pawn's two-row advance; the only pawn move that changes rows by two. */
  lemma DoublePushRow(p: Position, from: Square, to: Square, c: Color)
    requires RawMove(p, from, to, false)
    requires p.board[from] == Some(Piece(c, Pawn)) && RowDist(from, to) == 2
    ensures Row(from) == PawnStartRow(c) && Col(from) == Col(to)
    ensures to == (if c == White then from - 16 else from + 16)
  {
  }

  /** The square a double push skips, which becomes the en-passant target. */
  function Skipped(c: Color, from: Square): int {
    if c == White then from - 8 else from + 8
  }

  /** The en-passant victim square, when the move captures en passant and it is on the board. */
  predicate TakesEnPassant(p: Position, from: Square, to: Square)
    requires p.board[from].Some?
  {
    var piece := p.board[from].value;
    var victim := EnPassantVictim(piece.color, to);
    EnPassantCapture(p, piece, to) && 0 <= victim < 64 && p.board[victim].Some?
  }

  /** The board once an en-passant victim is removed. */
  function VictimCleared(p: Position, from: Square, to: Square): Board
    requires p.board[from].Some?
  {
    if TakesEnPassant(p, from, to) then p.board[EnPassantVictim(p.board[from].value.color, to) := None]
    else p.board
  }

  /** The board once a castling rook is moved. */
  function RookMoved(b: Board, piece: Piece, from: Square, to: Square): Board {
    if piece.kind == King && ColDist(from, to) == 2
    then b[RookTo(from, to) := b[RookFrom(from, to)]][RookFrom(from, to) := None]
    else b
  }

  /**
   * makeMove as far as the board: the en-passant victim is removed if there
   * is one, the castling rook is moved, then the piece.
   */
  function MoveBoard(p: Position, from: Square, to: Square): Board
    requires p.board[from].Some?
  {
    var piece := p.board[from].value;
    RookMoved(VictimCleared(p, from, to), piece, from, to)[to := Some(piece)][from := None]
  }

  /** The pieces makeMove records as captured: the target's, then the en-passant victim. */
  function MoveCaptures(p: Position, from: Square, to: Square, c: Captured): Captured
    requires p.board[from].Some?
  {
    var piece := p.board[from].value;
    var victim := EnPassantVictim(piece.color, to);
    var c1 := if p.board[to].Some? then AddCaptured(c, p.board[to].value) else c;
    if TakesEnPassant(p, from, to) then AddCaptured(c1, p.board[victim].value) else c1
  }

  /** The castling tag of a king's two-column step. */
  function Special(piece: Piece, from: Square, to: Square): Option<CastleSide> {
    if piece.kind == King && ColDist(from, to) == 2 then
      Some(if Col(to) > Col(from) then KingSide else QueenSide)
    else None
  }

  /** Whether makeMove counts the move as a capture: an occupied target or an en-passant capture. */
  predicate IsCapture(p: Position, from: Square, to: Square)
    requires p.board[from].Some?
  {
    p.board[to].Some? || EnPassantCapture(p, p.board[from].value, to)
  }

  /**
   * The updates makeMove makes before it looks at promotion: state saved,
   * board, en-passant target, castling rights, captured pieces and clock.
   */
  function Apply(g: Game, from: Square, to: Square): (m: Game)
    requires RawMove(g.pos, from, to, false)
    ensures m == g.(history := m.history, pos := m.pos, captured := m.captured, halfMoves := m.halfMoves)
  {
    var p := g.pos;
    var piece := p.board[from].value;
    var ep := if piece.kind == Pawn && RowDist(from, to) == 2 then
                DoublePushRow(p, from, to, piece.color);
                Some(Skipped(piece.color, from) as Square)
              else None;
    g.(history := g.history + [Save(g)],
       pos := Position(MoveBoard(p, from, to), ep, UpdateRights(p.rights, piece, from, to)),
       captured := MoveCaptures(p, from, to, g.captured),
       halfMoves := if piece.kind == Pawn || IsCapture(p, from, to) then 0 else g.halfMoves + 1)
  }

  /**
   * makeMove, for a move the caller found legal. A pawn reaching the last
   * row stops for the promotion choice without handing over the turn; every
   * other move writes its notation and is finished.
   */
  function MakeMove(g: Game, from: Square, to: Square): (r: Game)
    requires RawMove(g.pos, from, to, false)
    ensures var m := Apply(g, from, to);
            r.pos == m.pos && r.history == m.history && r.captured == m.captured && r.halfMoves == m.halfMoves
    ensures r.pos.board[to] == g.pos.board[from] && r.pos.board[from].None?
    ensures RightsWithin(r.pos.rights, g.pos.rights)
  {
    var p := g.pos;
    var piece := p.board[from].value;
    var moved := Apply(g, from, to);
    var special := Special(piece, from, to);
    if Promotes(piece, to) then
      moved.(pending := Some(Promotion(from, to, piece.color, IsCapture(p, from, to), special)),
             lastMove := Some(Move(from, to)))
    else
      var text := MoveText(piece, from, to, IsCapture(p, from, to), special, Disambiguate(p, piece, from, to));
      Finish(moved.(moves := g.moves + [text]), from, to)
  }

  // ---------------------------------------------------------------------------
  // completePromotion
  // ---------------------------------------------------------------------------

  /** The four pieces the promotion dialog offers. */
  predicate PromotionChoice(k: Kind) {
    k in {Queen, Rook, Bishop, Knight}
  }

  /**
   * completePromotion: the pawn on the target becomes the chosen piece, the
   * move is written as the pawn move followed by "=" and the piece letter,
   * the half-move clock is reset, and the move is finished.
   */
  function CompletePromotion(g: Game, kind: Kind): (r: Game)
    requires g.pending.Some? && PromotionChoice(kind)
    ensures var pr := g.pending.value;
            r.pos == g.pos.(board := g.pos.board[pr.to := Some(Piece(pr.color, kind))])
    ensures r.pending.None? && r.turn == Opponent(g.turn) && r.halfMoves == 0
    ensures r.history == g.history && |r.moves| == |g.moves| + 1 && r.moves[..|g.moves|] == g.moves
    ensures var pr := g.pending.value;
            var text := MoveText(Piece(pr.color, Pawn), pr.from, pr.to, pr.isCapture, pr.special, "")
                        + "=" + Letter(kind);
            r.moves[|g.moves|] in {text, text + "+", text + "#"}
  {
    var pr := g.pending.value;
    var text := MoveText(Piece(pr.color, Pawn), pr.from, pr.to, pr.isCapture, pr.special, "")
                + "=" + Letter(kind);
    var placed := g.(pos := g.pos.(board := g.pos.board[pr.to := Some(Piece(pr.color, kind))]),
                     moves := g.moves + [text], halfMoves := 0, pending := None);
    Finish(placed, pr.from, pr.to)
  }

  // ---------------------------------------------------------------------------
  // undoMove
  // ---------------------------------------------------------------------------

  /**
   * `positionHistory.length = n`: truncates, or pads with holes that never
   * match a hash (written here as empty strings; a hash is never empty).
   */
  function Resize(s: seq<string>, n: nat): (r: seq<string>)
    ensures |r| == n
    ensures forall i | 0 <= i < n && i < |s| :: r[i] == s[i]
    ensures forall i | |s| <= i < n :: r[i] == ""
  {
    if n <= |s| then s[..n] else s + seq(n - |s|, _ => "")
  }

  /** undoMove is refused with nothing to undo, after the game ended, or while a promotion waits. */
  predicate CanUndo(g: Game) {
    |g.history| > 0 && g.ending.None? && g.pending.None?
  }

  /**
   * undoMove: restore the last saved state, cut the position history back
   * to its saved length and drop the last move text.
   */
  function Undo(g: Game): (r: Game)
    ensures !CanUndo(g) ==> r == g
    ensures CanUndo(g) ==> var s := g.history[|g.history| - 1];
                           && r.pos == s.pos && r.turn == s.turn && r.lastMove == s.lastMove
                           && r.captured == s.captured && r.halfMoves == s.halfMoves
                           && |r.positions| == s.positionsLen
                           && r.history == g.history[..|g.history| - 1]
                           && |r.moves| == (if |g.moves| > 0 then |g.moves| - 1 else 0)
                           && r.moves == g.moves[..|r.moves|]
                           && r.pending.None? && r.ending.None?
  {
    if !CanUndo(g) then g
    else
      var s := g.history[|g.history| - 1];
      g.(pos := s.pos, turn := s.turn, lastMove := s.lastMove, captured := s.captured,
         halfMoves := s.halfMoves, positions := Resize(g.positions, s.positionsLen),
         moves := if |g.moves| > 0 then g.moves[..|g.moves| - 1] else g.moves,
         pending := None, history := g.history[..|g.history| - 1])
  }

  // ---------------------------------------------------------------------------
  // handleSquareClick
  // ---------------------------------------------------------------------------

  /**
   * The effect of selecting `from` and clicking `to`: ignored once the game
   * is over or while a promotion waits; only a piece of the side to move can
   * be selected; only a legal target makes a move.
   */
  function Play(g: Game, from: Square, to: Square): (r: Game)
    ensures r != g ==> g.ending.None? && g.pending.None? && IsColor(g.pos.board[from], g.turn)
                       && IsLegalMove(g.pos, from, to)
  {
    if g.ending.Some? || g.pending.Some? then g
    else if !IsColor(g.pos.board[from], g.turn) || !IsLegalMove(g.pos, from, to) then g
    else MakeMove(g, from, to)
  }

  // ---------------------------------------------------------------------------
  // Properties of a move
  // ---------------------------------------------------------------------------

  /**
   * The en-passant target after a move is the square a pawn's double push
   * skipped, midway between origin and target on the same file, and is
   * cleared by every other move.
   */
  lemma EnPassantTargetIsSkippedSquare(g: Game, from: Square, to: Square)
    requires RawMove(g.pos, from, to, false)
    ensures var piece := g.pos.board[from].value;
            var r := MakeMove(g, from, to);
            if piece.kind == Pawn && RowDist(from, to) == 2 then
              r.pos.enPassant == Some((from + to) / 2) && Col((from + to) / 2) == Col(from)
            else r.pos.enPassant.None?
  {
    ApplyEnPassant(g, from, to);
    assert MakeMove(g, from, to).pos == Apply(g, from, to).pos;
  }

  /** The en-passant part of the updates makeMove makes. */
  lemma ApplyEnPassant(g: Game, from: Square, to: Square)
    requires RawMove(g.pos, from, to, false)
    ensures var piece := g.pos.board[from].value;
            var m := Apply(g, from, to);
            if piece.kind == Pawn && RowDist(from, to) == 2 then
              m.pos.enPassant == Some((from + to) / 2) && Col((from + to) / 2) == Col(from)
            else m.pos.enPassant.None?
  {
    var piece := g.pos.board[from].value;
    if piece.kind == Pawn && RowDist(from, to) == 2 {
      DoublePushRow(g.pos, from, to, piece.color);
    }
  }

  /** The skipped square is empty after the double push. */
  lemma SkippedSquareIsEmpty(g: Game, from: Square, to: Square, c: Color)
    requires RawMove(g.pos, from, to, false)
    requires g.pos.board[from] == Some(Piece(c, Pawn)) && RowDist(from, to) == 2
    ensures MakeMove(g, from, to).pos.board[Skipped(c, from)].None?
  {
    DoublePushRow(g.pos, from, to, c);
    RuleFacts.PawnMovePattern(g.pos, from, to, c);
    var skipped := Skipped(c, from);
    assert skipped == At(Row(from) + Forward(c), Col(from));
    assert g.pos.board[skipped].None?;
    var b := MoveBoard(g.pos, from, to);
    assert b[skipped].None?;
  }

  /** The number of pieces in the captured lists. */
  function CapturedCount(c: Captured): nat {
    |c.white| + |c.black|
  }

  /**
   * The half-move clock restarts exactly when a pawn moved or a piece went
   * to the captured lists; otherwise it counts up by one.
   */
  lemma HalfMoveClock(g: Game, from: Square, to: Square)
    requires RawMove(g.pos, from, to, false)
    ensures var r := MakeMove(g, from, to);
            r.halfMoves == if g.pos.board[from].value.kind == Pawn || CapturedCount(r.captured) > CapturedCount(g.captured)
                           then 0 else g.halfMoves + 1
  {
    ApplyHalfMoves(g, from, to);
    if g.pos.board[from].value.kind != Pawn {
      CapturesGrow(g.pos, from, to, g.captured);
    }
    var r, m := MakeMove(g, from, to), Apply(g, from, to);
    assert r.halfMoves == m.halfMoves && r.captured == m.captured;
  }

  /** The half-move part of the updates makeMove makes. */
  lemma ApplyHalfMoves(g: Game, from: Square, to: Square)
    requires RawMove(g.pos, from, to, false)
    ensures var piece := g.pos.board[from].value;
            Apply(g, from, to).halfMoves
              == (if piece.kind == Pawn || IsCapture(g.pos, from, to) then 0 else g.halfMoves + 1)
            && Apply(g, from, to).captured == MoveCaptures(g.pos, from, to, g.captured)
  {
  }

  /** Apart from pawn moves, the captured lists grow exactly on a capture. */
  lemma CapturesGrow(p: Position, from: Square, to: Square, c: Captured)
    requires p.board[from].Some? && p.board[from].value.kind != Pawn
    ensures CapturedCount(MoveCaptures(p, from, to, c)) > CapturedCount(c) <==> IsCapture(p, from, to)
  {
  }

  /** The last move text, or the empty string. */
  function LastText(moves: seq<string>): string {
    if |moves| > 0 then moves[|moves| - 1] else ""
  }

  /** A move text without the check or mate mark checkGameState may have appended. */
  function Unmarked(t: string): string {
    if |t| > 0 && (t[|t| - 1] == '+' || t[|t| - 1] == '#') then t[..|t| - 1] else t
  }

  /** Move texts end in a rank digit or in the O of a castling, so a mark comes off cleanly. */
  lemma UnmarkText(piece: Piece, from: Square, to: Square, isCapture: bool,
                   special: Option<CastleSide>, disambig: string, mark: string)
    requires mark in {"", "+", "#"}
    ensures var t := MoveText(piece, from, to, isCapture, special, disambig);
            Unmarked(t + mark) == t
  {
    var t := MoveText(piece, from, to, isCapture, special, disambig);
    if special.None? {
      assert t[|t| - 1] == SquareName(to)[1];
    }
    if mark != "" {
      assert (t + mark)[..|t + mark| - 1] == t;
    }
  }

  /**
   * The text makeMove records for a move that does not promote reads back,
   * once its check or mate mark is taken off, as that move: a castling as
   * its side, any other move as the mover's kind, the disambiguation (the
   * origin file for a pawn capture), the capture flag, en passant included,
   * and the target.
   */
  lemma MakeMoveRecordsText(g: Game, from: Square, to: Square)
    requires RawMove(g.pos, from, to, false) && !Promotes(g.pos.board[from].value, to)
    ensures var piece := g.pos.board[from].value;
            var capture := IsCapture(g.pos, from, to);
            ReadMoveText(Unmarked(LastText(MakeMove(g, from, to).moves)))
            == if IsCastling(g.pos.board, from, to)
               then Some(Castling(if Col(to) > Col(from) then KingSide else QueenSide))
               else Some(Plain(piece.kind,
                               if piece.kind == Pawn && capture then [FileOf(from)]
                               else Disambiguate(g.pos, piece, from, to),
                               capture, to))
  {
    var piece := g.pos.board[from].value;
    var capture := IsCapture(g.pos, from, to);
    var special := Special(piece, from, to);
    var d := Disambiguate(g.pos, piece, from, to);
    var text := MoveText(piece, from, to, capture, special, d);
    var r := MakeMove(g, from, to);
    var moved := Apply(g, from, to).(moves := g.moves + [text]);
    assert r == Finish(moved, from, to);
    assert LastText(moved.moves) == text;
    var last := LastText(r.moves);
    assert last in {text, text + "+", text + "#"};
    var mark :| mark in {"", "+", "#"} && last == text + mark;
    UnmarkText(piece, from, to, capture, special, d, mark);
    if special.Some? {
      CastleTextRoundTrip(piece, from, to, capture, special.value, d);
    } else {
      MoveTextRoundTrip(piece, from, to, capture, d);
    }
  }

  /** makeMove moves the castling rook of an e-file king: from h to f king-side, from a to d queen-side. */
  lemma CastlingMovesRook(g: Game, from: Square, to: Square)
    requires RawMove(g.pos, from, to, false) && IsCastling(g.pos.board, from, to) && Col(from) == 4
    ensures Row(to) == Row(from) && (Col(to) == 2 || Col(to) == 6)
    ensures var b, r := g.pos.board, MakeMove(g, from, to).pos.board;
            var rookFrom := At(Row(from), if Col(to) == 6 then 7 else 0);
            var rookTo := At(Row(from), if Col(to) == 6 then 5 else 3);
            r[to] == b[from] && r[from].None? && r[rookTo] == b[rookFrom] && r[rookFrom].None?
            && forall sq: Square | sq !in {from, to, rookFrom, rookTo} :: r[sq] == b[sq]
  {
    CastlingShape(g.pos, from, to);
    CastlingBoard(g.pos, from, to);
    assert MakeMove(g, from, to).pos.board == Apply(g, from, to).pos.board == MoveBoard(g.pos, from, to);
  }

  /** The board of an e-file king's castling. */
  lemma CastlingBoard(p: Position, from: Square, to: Square)
    requires IsCastling(p.board, from, to) && Col(from) == 4
    requires Row(to) == Row(from) && (Col(to) == 2 || Col(to) == 6)
    ensures var b, r := p.board, MoveBoard(p, from, to);
            var rookFrom := At(Row(from), if Col(to) == 6 then 7 else 0);
            var rookTo := At(Row(from), if Col(to) == 6 then 5 else 3);
            r[to] == b[from] && r[from].None? && r[rookTo] == b[rookFrom] && r[rookFrom].None?
            && forall sq: Square | sq !in {from, to, rookFrom, rookTo} :: r[sq] == b[sq]
  {
    var b := p.board;
    assert VictimCleared(p, from, to) == b;
    assert RookFrom(from, to) == At(Row(from), if Col(to) == 6 then 7 else 0);
    assert RookTo(from, to) == At(Row(from), if Col(to) == 6 then 5 else 3);
  }

  /**
   * An en-passant capture empties the victim's square and appends the victim
   * to the captured list of its colour; the clock restarts.
   */
  lemma EnPassantRemovesVictim(g: Game, from: Square, to: Square)
    requires RawMove(g.pos, from, to, false) && TakesEnPassant(g.pos, from, to)
    ensures var piece := g.pos.board[from].value;
            var v := EnPassantVictim(piece.color, to);
            var victim := g.pos.board[v].value;
            var r := MakeMove(g, from, to);
            var list := if victim.color == White then r.captured.white else r.captured.black;
            r.pos.board[v].None? && r.pos.board[to] == Some(piece)
            && |list| > 0 && list[|list| - 1] == victim && r.halfMoves == 0
  {
    ApplyHalfMoves(g, from, to);
    VictimTaken(g.pos, from, to, g.captured);
    var r, m := MakeMove(g, from, to), Apply(g, from, to);
    assert r.pos == m.pos && r.captured == m.captured && r.halfMoves == m.halfMoves;
    assert m.pos.board == MoveBoard(g.pos, from, to);
  }

  /** The board and captured-list part of an en-passant capture. */
  lemma VictimTaken(p: Position, from: Square, to: Square, c: Captured)
    requires p.board[from].Some? && from != to && TakesEnPassant(p, from, to)
    ensures var piece := p.board[from].value;
            var v := EnPassantVictim(piece.color, to);
            var victim := p.board[v].value;
            var c' := MoveCaptures(p, from, to, c);
            var list := if victim.color == White then c'.white else c'.black;
            MoveBoard(p, from, to)[v].None? && MoveBoard(p, from, to)[to] == Some(piece)
            && |list| > 0 && list[|list| - 1] == victim
  {
    var piece := p.board[from].value;
    var v := EnPassantVictim(piece.color, to);
    assert v != to;
    var b1 := VictimCleared(p, from, to);
    assert b1[v].None?;
    assert RookMoved(b1, piece, from, to) == b1;
    assert MoveBoard(p, from, to) == b1[to := Some(piece)][from := None];
    var c1 := if p.board[to].Some? then AddCaptured(c, p.board[to].value) else c;
    assert MoveCaptures(p, from, to, c) == AddCaptured(c1, p.board[v].value);
  }

  /**
   * A pawn reaching the last row waits for the promotion choice: the turn is
   * not handed over and nothing is recorded yet. Every other move hands the
   * turn over and records its notation and the new position.
   */
  lemma PromotionWaits(g: Game, from: Square, to: Square)
    requires RawMove(g.pos, from, to, false)
    ensures var piece := g.pos.board[from].value;
            var r := MakeMove(g, from, to);
            if Promotes(piece, to) then
              r.pending.Some? && r.pending.value.to == to && r.turn == g.turn
              && r.positions == g.positions && r.moves == g.moves && r.ending == g.ending
            else
              r.pending == g.pending && r.turn == Opponent(g.turn)
              && r.positions == g.positions + [PositionHash(r.pos, r.turn)]
              && |r.moves| == |g.moves| + 1 && r.moves[..|g.moves|] == g.moves
  {
    var piece := g.pos.board[from].value;
    if !Promotes(piece, to) {
      var r := MakeMove(g, from, to);
      assert r.moves[..|g.moves|] == g.moves;
    }
  }

  /** Undoing an ordinary move that did not end the game gives back the game before it. */
  lemma UndoMakeMove(g: Game, from: Square, to: Square)
    requires RawMove(g.pos, from, to, false) && g.ending.None? && g.pending.None?
    requires !Promotes(g.pos.board[from].value, to)
    requires MakeMove(g, from, to).ending.None?
    ensures Undo(MakeMove(g, from, to)) == g
  {
    var r := MakeMove(g, from, to);
    PromotionWaits(g, from, to);
    var u := Undo(r);
    assert u.positions == g.positions;
    assert u.moves == g.moves;
    assert u.history == g.history;
  }

  /** While a promotion waits, undo is refused. */
  lemma UndoRefusedWhilePromoting(g: Game, from: Square, to: Square)
    requires RawMove(g.pos, from, to, false)
    requires Promotes(g.pos.board[from].value, to)
    ensures Undo(MakeMove(g, from, to)) == MakeMove(g, from, to)
  {
  }

  /** Undoing a completed promotion that did not end the game gives back the game before the pawn move. */
  lemma UndoPromotion(g: Game, from: Square, to: Square, kind: Kind)
    requires RawMove(g.pos, from, to, false) && g.ending.None? && g.pending.None?
    requires Promotes(g.pos.board[from].value, to) && PromotionChoice(kind)
    requires CompletePromotion(MakeMove(g, from, to), kind).ending.None?
    ensures Undo(CompletePromotion(MakeMove(g, from, to), kind)) == g
  {
    PromotionWaits(g, from, to);
    var r := CompletePromotion(MakeMove(g, from, to), kind);
    var u := Undo(r);
    assert u.positions == g.positions;
    assert u.moves == g.moves;
    assert u.history == g.history;
  }

  // ---------------------------------------------------------------------------
  // makeMove agrees with the scratch board of wouldBeInCheck
  // ---------------------------------------------------------------------------

  /**
   * The one configuration where makeMove and wouldBeInCheck write different
   * boards is excluded: a pawn stepping straight onto the en-passant target,
   * whose victim square is then the pawn's own origin. It does not arise from
   * the start position, where the target is only ever the square a pawn just
   * skipped, and a pawn reaches it only diagonally.
   */
  predicate Ordinary(p: Position, from: Square, to: Square)
    requires p.board[from].Some?
  {
    EnPassantCapture(p, p.board[from].value, to) ==> Col(from) != Col(to)
  }

  /** A castling king move goes along its row to column 2 or 6. */
  lemma CastlingShape(p: Position, from: Square, to: Square)
    requires RawMove(p, from, to, false) && IsCastling(p.board, from, to)
    ensures Row(from) == Row(to) && (Col(to) == 2 || Col(to) == 6)
  {
    if Col(to) != 2 && Col(to) != 6 {
      RuleFacts.CastlingOnlyToColumnsTwoAndSix(p, from, to);
    }
  }

  /** For an ordinary move, makeMove leaves the board wouldBeInCheck looked at. */
  lemma MoveBoardIsSimulation(p: Position, from: Square, to: Square)
    requires RawMove(p, from, to, false) && Ordinary(p, from, to)
    ensures MoveBoard(p, from, to) == Simulate(p, from, to, p.board[from].value.color)
  {
    if IsCastling(p.board, from, to) {
      CastlingShape(p, from, to);
      CastlingIsSimulation(p, from, to);
    } else {
      PlainMoveIsSimulation(p, from, to);
    }
  }

  /** The en-passant removal of the scratch board is the one makeMove makes. */
  lemma VictimClearedIsScratch(p: Position, from: Square, to: Square)
    requires p.board[from].Some?
    ensures var piece := p.board[from].value;
            VictimCleared(p, from, to)
            == if piece.kind == Pawn && p.enPassant == Some(to)
               then Clear(p.board, EnPassantVictim(piece.color, to)) else p.board
  {
    var piece := p.board[from].value;
    var victim := EnPassantVictim(piece.color, to);
    if piece.kind == Pawn && p.enPassant == Some(to) && 0 <= victim < 64 && p.board[victim].None? {
      assert p.board[victim := None] == p.board;
    }
  }

  /** Without castling, both boards clear the victim and then move the piece. */
  lemma PlainMoveIsSimulation(p: Position, from: Square, to: Square)
    requires RawMove(p, from, to, false) && Ordinary(p, from, to) && !IsCastling(p.board, from, to)
    ensures MoveBoard(p, from, to) == Simulate(p, from, to, p.board[from].value.color)
  {
    var piece := p.board[from].value;
    VictimClearedIsScratch(p, from, to);
    var b0 := VictimCleared(p, from, to);
    if TakesEnPassant(p, from, to) {
      assert Col(EnPassantVictim(piece.color, to)) == Col(to);
    }
    assert b0[from] == Some(piece);
  }

  /**
   * A castling writes four distinct squares of its row, in either order: the
   * king starts on the e-file, or on the a-file when it goes to the c-file and
   * takes the h-file rook to the f-file.
   */
  lemma CastlingIsSimulation(p: Position, from: Square, to: Square)
    requires IsCastling(p.board, from, to)
    requires Row(from) == Row(to) && (Col(to) == 2 || Col(to) == 6)
    ensures MoveBoard(p, from, to) == Simulate(p, from, to, p.board[from].value.color)
  {
    var piece := p.board[from].value;
    var b := p.board;
    var rf, rt := RookFrom(from, to), RookTo(from, to);
    assert Col(from) == 0 || Col(from) == 4;
    assert VictimCleared(p, from, to) == b;
    assert rf != from && rf != to && rt != from && rt != to && rf != rt;
    var mb := b[rt := b[rf]][rf := None][to := Some(piece)][from := None];
    var sim := b[to := Some(piece)][from := None][rt := b[rf]][rf := None];
    assert MoveBoard(p, from, to) == mb;
    assert Simulate(p, from, to, piece.color) == sim;
    assert mb == sim;
  }

  /**
   * For an ordinary move, isLegalMove holds exactly when the mover's king is
   * not attacked once makeMove has played the move: the scratch board of
   * wouldBeInCheck is the real board afterwards.
   */
  lemma LegalMeansMoverSafe(g: Game, from: Square, to: Square)
    requires RawMove(g.pos, from, to, false) && Ordinary(g.pos, from, to)
    ensures IsLegalMove(g.pos, from, to) <==> !InCheck(MakeMove(g, from, to).pos, g.pos.board[from].value.color)
  {
    var c := g.pos.board[from].value.color;
    var r := MakeMove(g, from, to).pos;
    MoveBoardIsSimulation(g.pos, from, to);
    assert r.board == Apply(g, from, to).pos.board == MoveBoard(g.pos, from, to);
    var sim := g.pos.(board := Simulate(g.pos, from, to, c));
    assert r == sim.(enPassant := r.enPassant, rights := r.rights);
    RuleFacts.CheckIgnoresFlags(sim, r.enPassant, r.rights, c);
  }

  // ---------------------------------------------------------------------------
  // Turns and the start of a game
  // ---------------------------------------------------------------------------

  /**
   * A click that changes the game moves a piece of the side to move; the
   * turn then passes to the opponent unless a promotion is waiting.
   */
  lemma PlayAlternates(g: Game, from: Square, to: Square)
    requires Play(g, from, to) != g
    ensures var r := Play(g, from, to);
            IsColor(g.pos.board[from], g.turn)
            && (if Promotes(g.pos.board[from].value, to) then r.turn == g.turn && r.pending.Some?
                else r.turn == Opponent(g.turn) && r.pending.None?)
  {
    PromotionWaits(g, from, to);
  }

  /** A new game has one position on record, so no repetition, and nothing to undo. */
  lemma NewGameFacts()
    ensures !Threefold(NewGame()) && Undo(NewGame()) == NewGame()
  {
    var g := NewGame();
    assert Seqs.Count(g.positions, PositionHash(g.pos, g.turn)) == 1;
  }
}

