/**
 * No piece appears or vanishes: the pieces on the board plus the pieces
 * recorded as captured stay the same through makeMove, completePromotion
 * and undoMove.
 */
module Conservation {
  import opened Options
  import opened Pieces
  import opened Rules
  import opened GameState
  import opened Evaluation
  import opened Moves
  import RuleFacts

  /** Pieces on the board plus pieces in the captured lists. */
  function Material(g: Game): nat {
    |Occupied(g.pos.board)| + |g.captured.white| + |g.captured.black|
  }

  function Presence(c: Cell): nat {
    if c.Some? then 1 else 0
  }

  /** Writing one cell changes the piece count by what left and what arrived. */
  lemma OccupiedUpdate(b: Board, i: Square, c: Cell)
    ensures |Occupied(b[i := c])| + Presence(b[i]) == |Occupied(b)| + Presence(c)
  {
    var b' := b[i := c];
    assert b == b[..i] + [b[i]] + b[i + 1..];
    assert b' == b[..i] + [c] + b[i + 1..];
    OccupiedAppend(b[..i] + [b[i]], b[i + 1..]);
    OccupiedAppend(b[..i], [b[i]]);
    OccupiedAppend(b[..i] + [c], b[i + 1..]);
    OccupiedAppend(b[..i], [c]);
    var one: seq<Cell> := [b[i]];
    assert one[1..] == [];
    var other: seq<Cell> := [c];
    assert other[1..] == [];
  }

  /** The rook's landing square of a castling is empty. */
  lemma CastlingLandingEmpty(p: Position, from: Square, to: Square)
    requires RawMove(p, from, to, false) && IsCastling(p.board, from, to) && Col(from) == 4
    ensures p.board[RookTo(from, to)].None?
  {
    CastlingShape(p, from, to);
    RuleFacts.KingCastlingStep(p, from, to);
    assert CanCastle(p, from, to);
    var c := p.board[from].value.color;
    if Col(to) == 6 {
      RuleFacts.KingSideConditions(p, from, to, c);
      assert RookTo(from, to) == At(Row(from), 5);
    } else {
      RuleFacts.QueenSideConditions(p, from, to, c);
      assert RookTo(from, to) == At(Row(from), 3);
    }
  }

  lemma VictimClearedCount(p: Position, from: Square, to: Square)
    requires p.board[from].Some?
    ensures |Occupied(VictimCleared(p, from, to))| + (if TakesEnPassant(p, from, to) then 1 else 0)
            == |Occupied(p.board)|
  {
    if TakesEnPassant(p, from, to) {
      OccupiedUpdate(p.board, EnPassantVictim(p.board[from].value.color, to), None);
    }
  }

  /** Moving the content of one cell into an empty other cell keeps the count. */
  lemma RelocateCount(b: Board, src: Square, dst: Square)
    requires src != dst && b[dst].None?
    ensures |Occupied(b[dst := b[src]][src := None])| == |Occupied(b)|
  {
    var mid := b[dst := b[src]];
    OccupiedUpdate(b, dst, b[src]);
    OccupiedUpdate(mid, src, None);
  }

  lemma RookMovedCount(b: Board, piece: Piece, from: Square, to: Square)
    requires piece.kind == King && ColDist(from, to) == 2 ==> b[RookTo(from, to)].None?
    ensures |Occupied(RookMoved(b, piece, from, to))| == |Occupied(b)|
  {
    if piece.kind == King && ColDist(from, to) == 2 {
      RelocateCount(b, RookFrom(from, to), RookTo(from, to));
    }
  }

  /**
   * The moves that keep the material: ordinary moves whose castling, if any,
   * starts on the e-file. An a-file king castling to the c-file takes the
   * h-file rook to the f-file, a square canCastle never looks at, so a piece
   * standing there vanishes without being recorded as captured.
   */
  predicate KeepsMaterial(p: Position, from: Square, to: Square)
    requires p.board[from].Some?
  {
    Ordinary(p, from, to) && (IsCastling(p.board, from, to) ==> Col(from) == 4)
  }

  /** Removing the en-passant victim touches neither end of an ordinary move, nor an empty square. */
  lemma VictimClearedFrame(p: Position, from: Square, to: Square, sq: Square)
    requires RawMove(p, from, to, false) && Ordinary(p, from, to)
    ensures var b1 := VictimCleared(p, from, to);
            b1[from] == p.board[from] && b1[to] == p.board[to]
            && (p.board[sq].None? ==> b1[sq].None?)
  {
    if TakesEnPassant(p, from, to) {
      var victim := EnPassantVictim(p.board[from].value.color, to);
      assert Col(victim) == Col(to) && victim != to;
    }
  }

  /** Moving the castling rook of an e-file king touches neither end of the king's move. */
  lemma RookMovedFrame(b: Board, piece: Piece, from: Square, to: Square)
    requires piece.kind == King && ColDist(from, to) == 2 ==>
             Col(from) == 4 && Row(from) == Row(to) && (Col(to) == 2 || Col(to) == 6)
    ensures var b2 := RookMoved(b, piece, from, to);
            b2[from] == b[from] && b2[to] == b[to]
  {
  }

  /** The castling rook of an ordinary move lands on an empty square. */
  lemma RookLandingFree(p: Position, from: Square, to: Square)
    requires RawMove(p, from, to, false) && KeepsMaterial(p, from, to)
    ensures var piece := p.board[from].value;
            piece.kind == King && ColDist(from, to) == 2 ==>
              Col(from) == 4 && Row(from) == Row(to) && (Col(to) == 2 || Col(to) == 6)
              && VictimCleared(p, from, to)[RookTo(from, to)].None?
  {
    if IsCastling(p.board, from, to) {
      CastlingLandingEmpty(p, from, to);
      CastlingShape(p, from, to);
      VictimClearedFrame(p, from, to, RookTo(from, to));
    }
  }

  /** The board of an ordinary move loses exactly the pieces it captures. */
  lemma MoveBoardCount(p: Position, from: Square, to: Square)
    requires RawMove(p, from, to, false) && KeepsMaterial(p, from, to)
    ensures |Occupied(MoveBoard(p, from, to))| + Presence(p.board[to])
            + (if TakesEnPassant(p, from, to) then 1 else 0) == |Occupied(p.board)|
  {
    var piece := p.board[from].value;
    var b1 := VictimCleared(p, from, to);
    VictimClearedCount(p, from, to);
    VictimClearedFrame(p, from, to, from);
    RookLandingFree(p, from, to);
    var b2 := RookMoved(b1, piece, from, to);
    RookMovedCount(b1, piece, from, to);
    RookMovedFrame(b1, piece, from, to);
    OccupiedUpdate(b2, to, Some(piece));
    OccupiedUpdate(b2[to := Some(piece)], from, None);
    assert MoveBoard(p, from, to) == b2[to := Some(piece)][from := None];
  }

  /** makeMove keeps the material of an ordinary move: captured pieces move to the captured lists. */
  lemma MakeMoveConserves(g: Game, from: Square, to: Square)
    requires RawMove(g.pos, from, to, false) && KeepsMaterial(g.pos, from, to)
    ensures Material(MakeMove(g, from, to)) == Material(g)
  {
    ApplyConserves(g, from, to);
    var r, m := MakeMove(g, from, to), Apply(g, from, to);
    assert r.pos == m.pos && r.captured == m.captured;
  }

  /**
   * An a-file king castling to the c-file loses whatever stood on the f-file
   * of its row: the h-file rook is written over it, and nothing is recorded
   * as captured.
   */
  lemma AFileCastlingLosesF(g: Game, from: Square, to: Square)
    requires RawMove(g.pos, from, to, false) && IsCastling(g.pos.board, from, to) && Col(from) == 0
    ensures Material(MakeMove(g, from, to)) + Presence(g.pos.board[At(Row(from), 5)]) == Material(g)
  {
    AFileCastlingBoard(g.pos, from, to);
    MoveCapturesCount(g.pos, from, to, g.captured);
    var r, m := MakeMove(g, from, to), Apply(g, from, to);
    assert m.pos.board == MoveBoard(g.pos, from, to);
    assert m.captured == MoveCaptures(g.pos, from, to, g.captured);
    assert r.pos == m.pos && r.captured == m.captured;
  }

  /** The board of an a-file castling loses the f-file square's content and nothing else. */
  lemma AFileCastlingBoard(p: Position, from: Square, to: Square)
    requires RawMove(p, from, to, false) && IsCastling(p.board, from, to) && Col(from) == 0
    ensures p.board[to].None? && !TakesEnPassant(p, from, to)
    ensures |Occupied(MoveBoard(p, from, to))| + Presence(p.board[At(Row(from), 5)]) == |Occupied(p.board)|
  {
    var b, piece := p.board, p.board[from].value;
    assert b[to].None? by {
      CastlingShape(p, from, to);
      RuleFacts.KingCastlingStep(p, from, to);
      RuleFacts.QueenSideConditions(p, from, to, piece.color);
      assert to == At(Row(from), 2);
    }
    var rf, rt := RookFrom(from, to), RookTo(from, to);
    assert rf == At(Row(from), 7) && rt == At(Row(from), 5) by {
      CastlingShape(p, from, to);
    }
    assert MoveBoard(p, from, to) == b[rt := b[rf]][rf := None][to := Some(piece)][from := None];
    OverwriteCount(b, from, to, rf, rt, piece);
  }

  /**
   * The king goes from `from` to the empty `to` and the rook from `rf` onto
   * `rt`: the piece count drops by what stood on `rt`.
   */
  lemma OverwriteCount(b: Board, from: Square, to: Square, rf: Square, rt: Square, piece: Piece)
    requires b[from] == Some(piece) && b[to].None?
    requires from != to && from != rf && from != rt && to != rf && to != rt && rf != rt
    ensures |Occupied(b[rt := b[rf]][rf := None][to := Some(piece)][from := None])| + Presence(b[rt])
            == |Occupied(b)|
  {
    var mid := b[rt := b[rf]];
    var b2 := mid[rf := None];
    OccupiedUpdate(b, rt, b[rf]);
    OccupiedUpdate(mid, rf, None);
    OccupiedUpdate(b2, to, Some(piece));
    OccupiedUpdate(b2[to := Some(piece)], from, None);
  }

  /** The captured lists grow by exactly the pieces a move takes. */
  lemma MoveCapturesCount(p: Position, from: Square, to: Square, c: Captured)
    requires p.board[from].Some?
    ensures var c' := MoveCaptures(p, from, to, c);
            |c'.white| + |c'.black|
            == |c.white| + |c.black| + Presence(p.board[to]) + (if TakesEnPassant(p, from, to) then 1 else 0)
  {
  }

  /** The updates makeMove makes before the promotion check keep the material. */
  lemma ApplyConserves(g: Game, from: Square, to: Square)
    requires RawMove(g.pos, from, to, false) && KeepsMaterial(g.pos, from, to)
    ensures Material(Apply(g, from, to)) == Material(g)
  {
    MoveBoardCount(g.pos, from, to);
    MoveCapturesCount(g.pos, from, to, g.captured);
    var m := Apply(g, from, to);
    assert m.pos.board == MoveBoard(g.pos, from, to);
    assert m.captured == MoveCaptures(g.pos, from, to, g.captured);
  }

  /** completePromotion replaces the pawn and keeps the material. */
  lemma PromotionConserves(g: Game, kind: Kind)
    requires g.pending.Some? && PromotionChoice(kind)
    requires g.pos.board[g.pending.value.to].Some?
    ensures Material(CompletePromotion(g, kind)) == Material(g)
  {
    var pr := g.pending.value;
    OccupiedUpdate(g.pos.board, pr.to, Some(Piece(pr.color, kind)));
  }
}
