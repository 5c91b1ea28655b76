/**
 * An independent description of how the pieces move, in the terms a chess
 * player uses: a knight or king jumps by one of a fixed set of (row, column)
 * offsets, a pawn captures one row ahead and one column aside, and rooks,
 * bishops and queens slide along a direction over empty squares. Each piece
 * branch of isValidMoveRaw in docs/app.js is proved to agree with it. The
 * castling conditions of canCastle are restated for a king on the e-file in
 * the same terms: the squares between king and rook are empty, and the
 * squares the king crosses and lands on are not attacked.
 */
module MovePatterns {
  import opened Options
  import opened Pieces
  import opened Rules
  import opened RuleFacts

  /** A displacement on the board, in rows and columns. */
  datatype Offset = Offset(dr: int, dc: int)

  /** The displacement from `from` to `to`. */
  function Delta(from: Square, to: Square): Offset {
    Offset(Row(to) - Row(from), Col(to) - Col(from))
  }

  const KnightJumps: set<Offset> :=
    {Offset(-2, -1), Offset(-2, 1), Offset(-1, -2), Offset(-1, 2),
     Offset(1, -2), Offset(1, 2), Offset(2, -1), Offset(2, 1)}

  /** The eight neighbours; also the eight directions a queen slides in. */
  const KingSteps: set<Offset> :=
    {Offset(-1, -1), Offset(-1, 0), Offset(-1, 1), Offset(0, -1),
     Offset(0, 1), Offset(1, -1), Offset(1, 0), Offset(1, 1)}

  const RookDirections: set<Offset> := {Offset(-1, 0), Offset(1, 0), Offset(0, -1), Offset(0, 1)}

  const BishopDirections: set<Offset> := {Offset(-1, -1), Offset(-1, 1), Offset(1, -1), Offset(1, 1)}

  /** The two squares a pawn captures on: white looks toward rank 8 (row 0), black toward rank 1. */
  function PawnCaptures(c: Color): set<Offset> {
    if c == White then {Offset(-1, -1), Offset(-1, 1)} else {Offset(1, -1), Offset(1, 1)}
  }

  /** The directions a sliding piece may take. */
  function Directions(k: Kind): set<Offset> {
    match k
    case Rook => RookDirections
    case Bishop => BishopDirections
    case _ => KingSteps
  }

  // ---------------------------------------------------------------------------
  // Sliding along a direction
  // ---------------------------------------------------------------------------

  /** A coordinate after `m` unit steps in direction `s` (one of -1, 0, 1). */
  function Shift(a: int, s: int, m: int): int {
    if s > 0 then a + m else if s < 0 then a - m else a
  }

  /** `to` is `n` steps from `from` in direction `d`. */
  predicate Lands(from: Square, d: Offset, n: int, to: Square) {
    Row(to) == Shift(Row(from), d.dr, n) && Col(to) == Shift(Col(from), d.dc, n)
  }

  /** The cell `m` steps from `from` in direction `d`; nothing off the board. */
  function CellAlong(b: Board, from: Square, d: Offset, m: int): Cell {
    var r, c := Shift(Row(from), d.dr, m), Shift(Col(from), d.dc, m);
    if 0 <= r < 8 && 0 <= c < 8 then b[r * 8 + c] else None
  }

  /** Every cell before the `n`-th step in direction `d` is empty. */
  predicate ClearAlong(b: Board, from: Square, d: Offset, n: int) {
    forall m | 0 < m < n :: CellAlong(b, from, d, m).None?
  }

  /** A slide in one of `dirs` reaches `to` over empty squares only. */
  predicate Slides(b: Board, from: Square, to: Square, dirs: set<Offset>) {
    exists d, n | d in dirs && 1 <= n <= 7 :: Lands(from, d, n, to) && ClearAlong(b, from, d, n)
  }

  /** The direction from `from` toward `to`. */
  function Heading(from: Square, to: Square): Offset {
    Offset(Sign(Row(to) - Row(from)), Sign(Col(to) - Col(from)))
  }

  /** Walking toward a square is shifting by the sign of the difference. */
  lemma TowardIsShift(a: int, b: int, k: int)
    ensures Toward(a, b, k) == Shift(a, Sign(b - a), k)
  {
  }

  /** The path isPathClear walks is the slide along the heading. */
  lemma HeadingWalk(b: Board, from: Square, to: Square)
    requires OnLine(from, to) && from != to
    ensures 1 <= Steps(from, to) <= 7 && Lands(from, Heading(from, to), Steps(from, to), to)
    ensures PathClear(b, from, to) <==> ClearAlong(b, from, Heading(from, to), Steps(from, to))
  {
    var d, n := Heading(from, to), Steps(from, to);
    forall m | 0 < m < n
      ensures CellAlong(b, from, d, m) == b[Waypoint(from, to, m)]
    {
      TowardIsShift(Row(from), Row(to), m);
      TowardIsShift(Col(from), Col(to), m);
    }
  }

  /** A slide of `n` steps in a unit direction goes along a line, and its heading and length are `d` and `n`. */
  lemma LandsOnLine(from: Square, d: Offset, n: int, to: Square)
    requires d in KingSteps && 1 <= n && Lands(from, d, n, to)
    ensures OnLine(from, to) && from != to && Heading(from, to) == d && Steps(from, to) == n
    ensures d in RookDirections <==> Straight(from, to)
    ensures d in BishopDirections <==> Diagonal(from, to)
  {
  }

  /** The heading of two distinct squares on a line is a unit direction matching the line's shape. */
  lemma HeadingShape(from: Square, to: Square)
    requires OnLine(from, to) && from != to
    ensures Heading(from, to) in KingSteps
    ensures Heading(from, to) in RookDirections <==> Straight(from, to)
    ensures Heading(from, to) in BishopDirections <==> Diagonal(from, to)
  {
  }

  /** A slide in `dirs` is the line shape of `dirs` with every square between empty. */
  lemma SlidesIsShapeAndPath(b: Board, from: Square, to: Square, k: Kind)
    requires k in {Rook, Bishop, Queen}
    ensures Slides(b, from, to, Directions(k))
        <==> from != to && OnLine(from, to) && PathClear(b, from, to)
             && (k == Rook ==> Straight(from, to)) && (k == Bishop ==> Diagonal(from, to))
  {
    var dirs := Directions(k);
    if Slides(b, from, to, dirs) {
      var d, n :| d in dirs && 1 <= n <= 7 && Lands(from, d, n, to) && ClearAlong(b, from, d, n);
      LandsOnLine(from, d, n, to);
      HeadingWalk(b, from, to);
    }
    if from != to && OnLine(from, to) && PathClear(b, from, to)
       && (k == Rook ==> Straight(from, to)) && (k == Bishop ==> Diagonal(from, to)) {
      HeadingShape(from, to);
      HeadingWalk(b, from, to);
      var d, n := Heading(from, to), Steps(from, to);
      assert d in dirs && 1 <= n <= 7 && Lands(from, d, n, to) && ClearAlong(b, from, d, n);
    }
  }

  // ---------------------------------------------------------------------------
  // isValidMoveRaw against the reference
  // ---------------------------------------------------------------------------

  /** A knight reaches exactly the eight knight jumps that do not land on an own piece. */
  lemma KnightMoves(p: Position, from: Square, to: Square, forAttack: bool)
    requires p.board[from].Some? && p.board[from].value.kind == Knight
    ensures RawMove(p, from, to, forAttack)
        <==> !IsColor(p.board[to], p.board[from].value.color) && Delta(from, to) in KnightJumps
  {
    KnightPattern(p, from, to, forAttack);
  }

  /**
   * A rook, bishop or queen reaches exactly the squares it slides to along
   * one of its directions over empty squares, without landing on an own piece.
   */
  lemma SliderMoves(p: Position, from: Square, to: Square, forAttack: bool)
    requires p.board[from].Some? && p.board[from].value.kind in {Rook, Bishop, Queen}
    ensures RawMove(p, from, to, forAttack)
        <==> !IsColor(p.board[to], p.board[from].value.color)
             && Slides(p.board, from, to, Directions(p.board[from].value.kind))
  {
    SliderPattern(p, from, to, forAttack);
    SlidesIsShapeAndPath(p.board, from, to, p.board[from].value.kind);
  }

  /** A pawn attacks exactly its two forward diagonal neighbours. */
  lemma PawnAttacks(p: Position, from: Square, to: Square, c: Color)
    requires p.board[from] == Some(Piece(c, Pawn))
    ensures RawMove(p, from, to, true) <==> !IsColor(p.board[to], c) && Delta(from, to) in PawnCaptures(c)
  {
    PawnAttackPattern(p, from, to, c);
  }

  /** A king attacks exactly its eight neighbours. */
  lemma KingAttacks(p: Position, from: Square, to: Square)
    requires p.board[from].Some? && p.board[from].value.kind == King
    ensures RawMove(p, from, to, true)
        <==> !IsColor(p.board[to], p.board[from].value.color) && Delta(from, to) in KingSteps
  {
    KingAttackIsAdjacent(p, from, to);
  }

  /**
   * Outside attack mode a king steps to a neighbour, or castles: two columns
   * along its row when canCastle allows it. Nothing else.
   */
  lemma KingMoves(p: Position, from: Square, to: Square)
    requires p.board[from].Some? && p.board[from].value.kind == King
    ensures RawMove(p, from, to, false)
        <==> !IsColor(p.board[to], p.board[from].value.color)
             && (Delta(from, to) in KingSteps
                 || (Delta(from, to) in {Offset(0, -2), Offset(0, 2)} && CanCastle(p, from, to)))
  {
    if Row(from) == Row(to) && ColDist(from, to) == 2 {
      KingCastlingStep(p, from, to);
    }
  }

  // ---------------------------------------------------------------------------
  // canCastle against the rule
  // ---------------------------------------------------------------------------

  /** The squares strictly between two squares of one row are that row's columns in between. */
  lemma BetweenOnRow(from: Square, to: Square, sq: Square)
    requires Row(from) == Row(to)
    ensures Between(from, to, sq)
        <==> Row(sq) == Row(from)
             && ((Col(from) < Col(sq) < Col(to)) || (Col(to) < Col(sq) < Col(from)))
  {
  }

  /** The castling right of colour `c` on the side of column `col`. */
  function RightFor(r: Rights, c: Color, col: int): bool {
    if col > 4 then (if c == White then r.whiteKingSide else r.blackKingSide)
    else (if c == White then r.whiteQueenSide else r.blackQueenSide)
  }

  /** Every square strictly between the king and the rook's corner is empty. */
  predicate EmptyToCorner(p: Position, from: Square, to: Square) {
    forall sq: Square | Between(from, RookFrom(from, to), sq) :: p.board[sq].None?
  }

  /** No square the king crosses or lands on is attacked by `opponent`. */
  predicate SafePassage(p: Position, from: Square, to: Square, opponent: Color) {
    forall sq: Square | Between(from, to, sq) || sq == to :: !SquareAttacked(p, sq, opponent)
  }

  lemma KingSideSquares(p: Position, from: Square, to: Square, opponent: Color)
    requires Col(from) == 4 && Row(to) == Row(from) && Col(to) == 6
    ensures EmptyToCorner(p, from, to)
        <==> p.board[At(Row(from), 5)].None? && p.board[At(Row(from), 6)].None?
    ensures SafePassage(p, from, to, opponent)
        <==> !SquareAttacked(p, At(Row(from), 5), opponent) && !SquareAttacked(p, At(Row(from), 6), opponent)
  {
    var row := Row(from);
    var corner := RookFrom(from, to);
    forall sq: Square
      ensures Between(from, corner, sq) <==> sq == At(row, 5) || sq == At(row, 6)
      ensures (Between(from, to, sq) || sq == to) <==> sq == At(row, 5) || sq == At(row, 6)
    {
      BetweenOnRow(from, corner, sq);
      BetweenOnRow(from, to, sq);
    }
  }

  lemma QueenSideSquares(p: Position, from: Square, to: Square, opponent: Color)
    requires Col(from) == 4 && Row(to) == Row(from) && Col(to) == 2
    ensures EmptyToCorner(p, from, to)
        <==> p.board[At(Row(from), 1)].None? && p.board[At(Row(from), 2)].None?
             && p.board[At(Row(from), 3)].None?
    ensures SafePassage(p, from, to, opponent)
        <==> !SquareAttacked(p, At(Row(from), 2), opponent) && !SquareAttacked(p, At(Row(from), 3), opponent)
  {
    var row := Row(from);
    var corner := RookFrom(from, to);
    forall sq: Square
      ensures Between(from, corner, sq) <==> sq == At(row, 1) || sq == At(row, 2) || sq == At(row, 3)
      ensures (Between(from, to, sq) || sq == to) <==> sq == At(row, 2) || sq == At(row, 3)
    {
      BetweenOnRow(from, corner, sq);
      BetweenOnRow(from, to, sq);
    }
  }

  /**
   * Castling rule for a king on the e-file stepping two columns along its
   * row: allowed exactly when the king is not in check, the right for that
   * side is held, every square between king and rook is empty, and no square
   * the king crosses or lands on is attacked.
   */
  lemma CastlingRule(p: Position, from: Square, to: Square, c: Color)
    requires p.board[from].Some? && p.board[from].value.color == c
    requires Col(from) == 4 && Row(to) == Row(from) && ColDist(from, to) == 2
    ensures CanCastle(p, from, to)
        <==> !InCheck(p, c) && RightFor(p.rights, c, Col(to))
             && EmptyToCorner(p, from, to) && SafePassage(p, from, to, Opponent(c))
  {
    if Col(to) == 6 {
      KingSideConditions(p, from, to, c);
      KingSideSquares(p, from, to, Opponent(c));
    } else {
      QueenSideConditions(p, from, to, c);
      QueenSideSquares(p, from, to, Opponent(c));
    }
  }
}
