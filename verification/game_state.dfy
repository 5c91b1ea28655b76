/**
 * The per-game state ChessGame keeps in fields (board, currentPlayer,
 * castlingRights, enPassantTarget, halfMoveClock, positionHistory,
 * moveHistory, capturedPieces, lastMove, pendingPromotion, the undo stacks
 * and gameOver), as one immutable record, and the position hash used for
 * repetition (getBoardHash in docs/app.js).
 */
module GameState {
  import opened Options
  import opened Pieces
  import opened Rules
  import opened Notation

  datatype Move = Move(from: Square, to: Square)

  /** capturedPieces: the pieces of each colour that have been taken. */
  datatype Captured = Captured(white: seq<Piece>, black: seq<Piece>)

  function AddCaptured(c: Captured, p: Piece): Captured {
    if p.color == White then c.(white := c.white + [p]) else c.(black := c.black + [p])
  }

  /** pendingPromotion: a pawn move waiting for the choice of piece. */
  datatype Promotion = Promotion(from: Square, to: Square, color: Color, isCapture: bool,
                                 special: Option<CastleSide>)

  /** One entry of the undo stacks (boardHistory and stateHistory together). */
  datatype Snapshot = Snapshot(pos: Position, turn: Color, lastMove: Option<Move>,
                               captured: Captured, halfMoves: nat, positionsLen: nat)

  /** How checkGameState classifies a position. */
  datatype Verdict =
    | Continue
    | Check
    | Repetition
    | FiftyMoves
    | DeadPosition
    | Checkmate(winner: Color)
    | Stalemate
  {
    /** The verdicts that end the game. */
    predicate Ends() {
      !(Continue? || Check?)
    }
  }

  datatype Game = Game(
    pos: Position,
    turn: Color,
    halfMoves: nat,
    positions: seq<string>,
    moves: seq<string>,
    captured: Captured,
    lastMove: Option<Move>,
    pending: Option<Promotion>,
    history: seq<Snapshot>,
    ending: Option<Verdict>)

  // ---------------------------------------------------------------------------
  // getBoardHash
  // ---------------------------------------------------------------------------

  function ColorName(c: Color): (s: string)
    ensures |s| == 5
  {
    if c == White then "white" else "black"
  }

  function Bit(b: bool): char {
    if b then '1' else '0'
  }

  /** The four castling rights as "0"/"1" flags. */
  function RightsText(r: Rights): (s: string)
    ensures |s| == 4
  {
    [Bit(r.whiteKingSide), Bit(r.whiteQueenSide), Bit(r.blackKingSide), Bit(r.blackQueenSide)]
  }

  function Digit(d: int): char
    requires 0 <= d < 10
  {
    ('0' as int + d) as char
  }

  /** Number.prototype.toString for a natural number. */
  function Decimal(n: nat): (s: string)
    ensures |s| >= 1
  {
    if n < 10 then [Digit(n)] else Decimal(n / 10) + [Digit(n % 10)]
  }

  /** Different numbers are written differently. */
  lemma {:induction false} DecimalInjective(n: nat, m: nat)
    requires Decimal(n) == Decimal(m)
    ensures n == m
  {
    if n >= 10 && m >= 10 {
      var s := Decimal(n);
      assert s[..|s| - 1] == Decimal(n / 10);
      assert s[|s| - 1] == Digit(n % 10);
      var t := Decimal(m);
      assert t[..|t| - 1] == Decimal(m / 10);
      assert t[|t| - 1] == Digit(m % 10);
      DecimalInjective(n / 10, m / 10);
    } else if n < 10 && m < 10 {
      assert Decimal(n)[0] == Digit(n);
    }
  }

  /** `enPassantTarget ?? ""`. */
  function EnPassantText(ep: Option<Square>): string {
    match ep
    case None => ""
    case Some(n) => Decimal(n)
  }

  /** `board.join("")`: the cell strings one after another, so "" cells vanish. */
  function Join(cells: seq<Cell>): string {
    if cells == [] then "" else CellText(cells[0]) + Join(cells[1..])
  }

  /** getBoardHash as written. */
  function HashAsWritten(p: Position, turn: Color): string {
    Join(p.board) + HashTail(p, turn)
  }

  lemma {:induction false} JoinAppend(a: seq<Cell>, b: seq<Cell>)
    ensures Join(a + b) == Join(a) + Join(b)
  {
    if a == [] {
      assert a + b == b;
    } else {
      assert (a + b)[0] == a[0];
      assert (a + b)[1..] == a[1..] + b;
      JoinAppend(a[1..], b);
    }
  }

  /**
   * Moving a piece into an adjacent empty cell of the row-by-row order keeps
   * `board.join("")` the same, so the hash as written confuses positions that
   * differ on the board, and its repetition count can reach three for
   * positions that never repeated.
   */
  lemma HashAsWrittenCollides(p: Position, turn: Color, i: Square, piece: Piece)
    requires i < 63
    ensures var before := p.(board := p.board[i := Some(piece)][i + 1 := None]);
            var after := p.(board := p.board[i := None][i + 1 := Some(piece)]);
            before != after && HashAsWritten(before, turn) == HashAsWritten(after, turn)
  {
    var b1 := p.board[i := Some(piece)][i + 1 := None];
    var b2 := p.board[i := None][i + 1 := Some(piece)];
    assert b1[i] != b2[i];
    assert b1 == p.board[..i] + [Some(piece), None] + p.board[i + 2..];
    assert b2 == p.board[..i] + [None, Some(piece)] + p.board[i + 2..];
    JoinAppend(p.board[..i] + [Some(piece), None], p.board[i + 2..]);
    JoinAppend(p.board[..i], [Some(piece), None]);
    JoinAppend(p.board[..i] + [None, Some(piece)], p.board[i + 2..]);
    JoinAppend(p.board[..i], [None, Some(piece)]);
    assert Join([Some(piece), None]) == [Glyph(piece)] by {
      assert [Some(piece), None][1..] == [None];
      var rest: seq<Cell> := [None];
      assert rest[1..] == [];
    }
    assert Join([None, Some(piece)]) == [Glyph(piece)] by {
      assert [None, Some(piece)][1..] == [Some(piece)];
      assert [Some(piece)][1..] == [];
    }
  }

  /** The character a cell contributes to the corrected hash: its glyph, or '.'. */
  function CellChar(c: Cell): char {
    match c
    case None => '.'
    case Some(p) => Glyph(p)
  }

  /** `board.map(c => c || ".").join("")`: one character per cell. */
  function BoardText(b: Board): string {
    seq(64, i requires 0 <= i < 64 => CellChar(b[i]))
  }

  /** getBoardHash with every empty cell written as '.'. */
  function PositionHash(p: Position, turn: Color): string {
    BoardText(p.board) + HashTail(p, turn)
  }

  /** The corrected hash tells apart the two boards the hash as written confuses. */
  lemma PositionHashSeparates(p: Position, turn: Color, i: Square, piece: Piece)
    requires i < 63
    ensures var before := p.(board := p.board[i := Some(piece)][i + 1 := None]);
            var after := p.(board := p.board[i := None][i + 1 := Some(piece)]);
            PositionHash(before, turn) != PositionHash(after, turn)
  {
    var before := p.(board := p.board[i := Some(piece)][i + 1 := None]);
    var after := p.(board := p.board[i := None][i + 1 := Some(piece)]);
    assert PositionHash(before, turn)[i] == Glyph(piece) != '.' == PositionHash(after, turn)[i];
  }

  /** The text after the board: side to move, rights and en-passant target. */
  function HashTail(p: Position, turn: Color): string {
    StateText(turn, p.rights) + EnPassantText(p.enPassant)
  }

  /** The fixed-width middle of the hash: "|white|1011|" and the like. */
  function StateText(turn: Color, r: Rights): (t: string)
    ensures |t| == 12
  {
    "|" + ColorName(turn) + "|" + RightsText(r) + "|"
  }

  /** A board is determined by its corrected text. */
  lemma BoardTextInjective(a: Board, b: Board)
    requires BoardText(a) == BoardText(b)
    ensures a == b
  {
    forall i | 0 <= i < 64
      ensures a[i] == b[i]
    {
      assert BoardText(a)[i] == BoardText(b)[i];
      if a[i].Some? && b[i].Some? {
        GlyphInjective(a[i].value, b[i].value);
      }
    }
  }

  /** Equal concatenations with equally long fronts have equal fronts and equal backs. */
  lemma SplitEqual<T>(a: seq<T>, b: seq<T>, c: seq<T>, d: seq<T>)
    requires a + b == c + d && |a| == |c|
    ensures a == c && b == d
  {
    assert a == (a + b)[..|a|] && c == (c + d)[..|c|];
    assert b == (a + b)[|a|..] && d == (c + d)[|c|..];
  }

  /** Side to move and rights are determined by the fixed-width middle. */
  lemma StateTextInjective(c: Color, r: Rights, d: Color, s: Rights)
    requires StateText(c, r) == StateText(d, s)
    ensures c == d && r == s
  {
    var front, front' := "|" + ColorName(c) + "|" + RightsText(r), "|" + ColorName(d) + "|" + RightsText(s);
    SplitEqual(front, "|", front', "|");
    var name, name' := "|" + ColorName(c) + "|", "|" + ColorName(d) + "|";
    SplitEqual(name, RightsText(r), name', RightsText(s));
    SplitEqual("|" + ColorName(c), "|", "|" + ColorName(d), "|");
    SplitEqual("|", ColorName(c), "|", ColorName(d));
    assert ColorName(c)[0] == ColorName(d)[0];
    var t, u := RightsText(r), RightsText(s);
    assert t[0] == u[0] && t[1] == u[1] && t[2] == u[2] && t[3] == u[3];
  }

  /** Side to move, rights and en-passant target are determined by the tail. */
  lemma HashTailInjective(p: Position, c: Color, q: Position, d: Color)
    requires HashTail(p, c) == HashTail(q, d)
    ensures c == d && p.rights == q.rights && p.enPassant == q.enPassant
  {
    SplitEqual(StateText(c, p.rights), EnPassantText(p.enPassant), StateText(d, q.rights), EnPassantText(q.enPassant));
    StateTextInjective(c, p.rights, d, q.rights);
    if p.enPassant.Some? && q.enPassant.Some? {
      DecimalInjective(p.enPassant.value, q.enPassant.value);
    }
  }

  /**
   * Two positions have the same corrected hash exactly when they agree on
   * board, side to move, castling rights and en-passant target.
   */
  lemma PositionHashInjective(p: Position, c: Color, q: Position, d: Color)
    ensures PositionHash(p, c) == PositionHash(q, d) <==> p == q && c == d
  {
    var h, h' := PositionHash(p, c), PositionHash(q, d);
    assert h == BoardText(p.board) + HashTail(p, c);
    assert h' == BoardText(q.board) + HashTail(q, d);
    if h == h' {
      SplitEqual(BoardText(p.board), HashTail(p, c), BoardText(q.board), HashTail(q, d));
      BoardTextInjective(p.board, q.board);
      HashTailInjective(p, c, q, d);
    }
  }
}
