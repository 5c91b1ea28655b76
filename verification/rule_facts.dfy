/**
 * What the movement rules of docs/app.js promise, stated about the model in
 * Rules: per-piece patterns, the castling preconditions, the independence of
 * attack mode from en-passant and castling state, and the geometry of
 * isPathClear.
 */
module RuleFacts {
  import opened Options
  import opened Pieces
  import opened Rules

  /** A knight jumps in an L, whatever stands between. */
  lemma KnightPattern(p: Position, from: Square, to: Square, forAttack: bool)
    requires p.board[from].Some? && p.board[from].value.kind == Knight
    ensures RawMove(p, from, to, forAttack)
        <==> !IsColor(p.board[to], p.board[from].value.color)
             && ((RowDist(from, to) == 2 && ColDist(from, to) == 1)
                 || (RowDist(from, to) == 1 && ColDist(from, to) == 2))
  {
  }

  /** Rook, bishop and queen need their line shape and every square between empty. */
  lemma SliderPattern(p: Position, from: Square, to: Square, forAttack: bool)
    requires p.board[from].Some? && p.board[from].value.kind in {Rook, Bishop, Queen}
    ensures RawMove(p, from, to, forAttack)
        <==> from != to
             && !IsColor(p.board[to], p.board[from].value.color)
             && (match p.board[from].value.kind
                 case Rook => Straight(from, to)
                 case Bishop => Diagonal(from, to)
                 case _ => OnLine(from, to))
             && OnLine(from, to) && PathClear(p.board, from, to)
  {
  }

  /** In attack mode a pawn covers exactly the two diagonal squares one row ahead. */
  lemma PawnAttackPattern(p: Position, from: Square, to: Square, c: Color)
    requires p.board[from] == Some(Piece(c, Pawn))
    ensures RawMove(p, from, to, true)
        <==> !IsColor(p.board[to], c) && ColDist(from, to) == 1 && Row(to) == Row(from) + Forward(c)
  {
  }

  /**
   * Outside attack mode a pawn steps one square ahead onto an empty cell,
   * two from its start row over an empty cell onto an empty cell, or one
   * diagonally onto an enemy piece or onto the en-passant target.
   */
  lemma PawnMovePattern(p: Position, from: Square, to: Square, c: Color)
    requires p.board[from] == Some(Piece(c, Pawn))
    ensures RawMove(p, from, to, false)
        <==> || (Col(to) == Col(from) && Row(to) == Row(from) + Forward(c) && p.board[to].None?)
             || (Col(to) == Col(from) && Row(from) == PawnStartRow(c) && Row(to) == Row(from) + 2 * Forward(c)
                 && p.board[to].None? && p.board[At(Row(from) + Forward(c), Col(from))].None?)
             || (ColDist(from, to) == 1 && Row(to) == Row(from) + Forward(c)
                 && (IsColor(p.board[to], Opponent(c))
                     || (p.board[to].None? && p.enPassant == Some(to))))
  {
    if p.board[to].Some? {
      assert IsColor(p.board[to], c) || IsColor(p.board[to], Opponent(c));
    }
  }

  /** A king attacks only its neighbours; two-column steps exist only outside attack mode. */
  lemma KingAttackIsAdjacent(p: Position, from: Square, to: Square)
    requires p.board[from].Some? && p.board[from].value.kind == King
    ensures RawMove(p, from, to, true)
        <==> from != to && !IsColor(p.board[to], p.board[from].value.color)
             && RowDist(from, to) <= 1 && ColDist(from, to) <= 1
  {
  }

  /** A king's two-column step is exactly a castling the position allows. */
  lemma KingCastlingStep(p: Position, from: Square, to: Square)
    requires p.board[from].Some? && p.board[from].value.kind == King
    requires Row(from) == Row(to) && ColDist(from, to) == 2
    ensures RawMove(p, from, to, false)
        <==> !IsColor(p.board[to], p.board[from].value.color) && CanCastle(p, from, to)
  {
  }

  /**
   * King-side castling (toward column 6) is allowed exactly when the king is
   * not in check, the right is held, columns 5 and 6 of its row are empty
   * and neither is attacked.
   */
  lemma KingSideConditions(p: Position, from: Square, to: Square, c: Color)
    requires p.board[from].Some? && p.board[from].value.color == c && Col(to) == 6
    ensures CanCastle(p, from, to)
        <==> && !InCheck(p, c)
             && (if c == White then p.rights.whiteKingSide else p.rights.blackKingSide)
             && p.board[At(Row(from), 5)].None? && p.board[At(Row(from), 6)].None?
             && !SquareAttacked(p, At(Row(from), 5), Opponent(c))
             && !SquareAttacked(p, At(Row(from), 6), Opponent(c))
  {
  }

  /**
   * Queen-side castling (toward column 2) is allowed exactly when the king
   * is not in check, the right is held, columns 1 to 3 of its row are empty
   * and columns 2 and 3 are not attacked.
   */
  lemma QueenSideConditions(p: Position, from: Square, to: Square, c: Color)
    requires p.board[from].Some? && p.board[from].value.color == c && Col(to) == 2
    ensures CanCastle(p, from, to)
        <==> && !InCheck(p, c)
             && (if c == White then p.rights.whiteQueenSide else p.rights.blackQueenSide)
             && p.board[At(Row(from), 1)].None? && p.board[At(Row(from), 2)].None?
             && p.board[At(Row(from), 3)].None?
             && !SquareAttacked(p, At(Row(from), 2), Opponent(c))
             && !SquareAttacked(p, At(Row(from), 3), Opponent(c))
  {
  }

  /** Castling toward any column other than 2 or 6 is refused. */
  lemma CastlingOnlyToColumnsTwoAndSix(p: Position, from: Square, to: Square)
    requires p.board[from].Some? && Col(to) != 2 && Col(to) != 6
    ensures !CanCastle(p, from, to)
  {
  }

  /** Attack mode reads neither the en-passant target nor the castling rights. */
  lemma AttackIgnoresFlags(p: Position, ep: Option<Square>, rights: Rights, from: Square, to: Square)
    ensures RawMove(p, from, to, true) == RawMove(p.(enPassant := ep, rights := rights), from, to, true)
  {
  }

  /** Hence neither do the attack and check queries. */
  lemma CheckIgnoresFlags(p: Position, ep: Option<Square>, rights: Rights, c: Color)
    ensures InCheck(p, c) == InCheck(p.(enPassant := ep, rights := rights), c)
    ensures forall sq: Square, a: Color ::
      SquareAttacked(p, sq, a) == SquareAttacked(p.(enPassant := ep, rights := rights), sq, a)
  {
    var q := p.(enPassant := ep, rights := rights);
    forall sq: Square, a: Color
      ensures SquareAttacked(p, sq, a) == SquareAttacked(q, sq, a)
    {
      forall i | 0 <= i < 64
        ensures RawMove(p, i, sq, true) == RawMove(q, i, sq, true)
      {
        AttackIgnoresFlags(p, ep, rights, i, sq);
      }
    }
  }

  /** Math.sign. */
  function Sign(x: int): int {
    if x < 0 then -1 else if x > 0 then 1 else 0
  }

  /**
   * `sq` lies strictly between `from` and `to` on their line: it is reached
   * from `from` in the same direction as `to`, along a line, in fewer steps.
   */
  predicate Between(from: Square, to: Square, sq: Square) {
    && sq != from
    && Sign(Row(sq) - Row(from)) == Sign(Row(to) - Row(from))
    && Sign(Col(sq) - Col(from)) == Sign(Col(to) - Col(from))
    && OnLine(from, sq)
    && Steps(from, sq) < Steps(from, to)
  }

  lemma WaypointIsBetween(from: Square, to: Square, k: int)
    requires OnLine(from, to) && 0 < k < Steps(from, to)
    ensures Between(from, to, Waypoint(from, to, k)) && Steps(from, Waypoint(from, to, k)) == k
  {
  }

  lemma BetweenIsWaypoint(from: Square, to: Square, sq: Square)
    requires OnLine(from, to) && Between(from, to, sq)
    ensures 0 < Steps(from, sq) < Steps(from, to) && sq == Waypoint(from, to, Steps(from, sq))
  {
    var w := Waypoint(from, to, Steps(from, sq));
    assert Row(w) == Row(sq) && Col(w) == Col(sq);
  }

  /** isPathClear holds exactly when every square strictly between is empty. */
  lemma PathClearGeometric(b: Board, from: Square, to: Square)
    requires OnLine(from, to)
    ensures PathClear(b, from, to) <==> forall sq: Square | Between(from, to, sq) :: b[sq].None?
  {
    if PathClear(b, from, to) {
      forall sq: Square | Between(from, to, sq)
        ensures b[sq].None?
      {
        BetweenIsWaypoint(from, to, sq);
      }
    }
    if forall sq: Square | Between(from, to, sq) :: b[sq].None? {
      forall k | 0 < k < Steps(from, to)
        ensures b[Waypoint(from, to, k)].None?
      {
        WaypointIsBetween(from, to, k);
      }
    }
  }

  /** A move from an empty square, onto itself, or onto an own piece is never legal. */
  lemma IllegalBasics(p: Position, from: Square, to: Square)
    requires p.board[from].None? || from == to
             || (p.board[from].Some? && IsColor(p.board[to], p.board[from].value.color))
    ensures !IsLegalMove(p, from, to) && !RawMove(p, from, to, true)
  {
  }
}
