/**
 * The loops of docs/app.js as written: isPathClear walks square by square,
 * isSquareAttacked and hasLegalMoves scan the board in index order and stop
 * at the first hit. Each method is proved to compute the declarative
 * predicate of the Rules module.
 */
module Scans {
  import opened Options
  import opened Pieces
  import opened Rules
  import RuleFacts

  /** isPathClear: step from `from` toward `to` by Math.sign of each coordinate difference. */
  method PathClearWalk(b: Board, from: Square, to: Square) returns (clear: bool)
    requires OnLine(from, to)
    ensures clear == PathClear(b, from, to)
  {
    var rowDir := RuleFacts.Sign(Row(to) - Row(from));
    var colDir := RuleFacts.Sign(Col(to) - Col(from));
    var r := Row(from) + rowDir;
    var c := Col(from) + colDir;
    ghost var k := 1;
    WalkFacts(from, to, k);
    while r != Row(to) || c != Col(to)
      invariant 1 <= k && (Steps(from, to) > 0 ==> k <= Steps(from, to)) && (Steps(from, to) == 0 ==> k == 1)
      invariant r == Toward(Row(from), Row(to), k) && c == Toward(Col(from), Col(to), k)
      invariant (r == Row(to) && c == Col(to)) <==> k >= Steps(from, to)
      invariant WalkedClear(b, from, to, k)
      decreases Steps(from, to) - k
    {
      WalkFacts(from, to, k);
      if b[r * 8 + c].Some? {
        assert 0 < k < Steps(from, to) && b[Waypoint(from, to, k)].Some?;
        return false;
      }
      WalkedClearStep(b, from, to, k);
      r, c, k := r + rowDir, c + colDir, k + 1;
      WalkFacts(from, to, k);
    }
    WalkedClearAll(b, from, to, k);
    return true;
  }

  /** Every square between that the walk has passed after `k` steps was empty. */
  predicate WalkedClear(b: Board, from: Square, to: Square, k: int)
    requires OnLine(from, to)
  {
    forall j | 0 < j < k && j < Steps(from, to) :: b[Waypoint(from, to, j)].None?
  }

  lemma WalkedClearStep(b: Board, from: Square, to: Square, k: int)
    requires OnLine(from, to) && 0 < k < Steps(from, to)
    requires WalkedClear(b, from, to, k) && b[Waypoint(from, to, k)].None?
    ensures WalkedClear(b, from, to, k + 1)
  {
  }

  lemma WalkedClearAll(b: Board, from: Square, to: Square, k: int)
    requires OnLine(from, to) && k >= Steps(from, to) && WalkedClear(b, from, to, k)
    ensures PathClear(b, from, to)
  {
  }

  /**
   * Where the walk stands after `k` steps: on the target exactly once all
   * steps are made, and before that on the k-th square between.
   */
  lemma WalkFacts(from: Square, to: Square, k: int)
    requires OnLine(from, to) && 1 <= k
    requires (Steps(from, to) > 0 ==> k <= Steps(from, to)) && (Steps(from, to) == 0 ==> k == 1)
    ensures var r, c := Toward(Row(from), Row(to), k), Toward(Col(from), Col(to), k);
            ((r == Row(to) && c == Col(to)) <==> k >= Steps(from, to))
            && (k < Steps(from, to) ==> 0 <= r < 8 && 0 <= c < 8 && r * 8 + c == Waypoint(from, to, k))
            && Toward(Row(from), Row(to), k) + RuleFacts.Sign(Row(to) - Row(from)) == Toward(Row(from), Row(to), k + 1)
            && Toward(Col(from), Col(to), k) + RuleFacts.Sign(Col(to) - Col(from)) == Toward(Col(from), Col(to), k + 1)
  {
  }

  /** isSquareAttacked: the first piece of colour `attacker` with an attack-mode move onto `sq`. */
  method SquareAttackedScan(p: Position, sq: Square, attacker: Color) returns (attacked: bool)
    ensures attacked == SquareAttacked(p, sq, attacker)
  {
    var i := 0;
    while i < 64
      invariant 0 <= i <= 64
      invariant forall j | 0 <= j < i :: !(IsColor(p.board[j], attacker) && RawMove(p, j, sq, true))
    {
      if p.board[i].Some? && IsColor(p.board[i], attacker) {
        if RawMove(p, i, sq, true) {
          return true;
        }
      }
      i := i + 1;
    }
    return false;
  }

  /** hasLegalMoves: origins of colour `c` in index order, every target in index order. */
  method HasLegalMovesScan(p: Position, c: Color) returns (found: bool)
    ensures found == HasLegalMoves(p, c)
  {
    var from := 0;
    while from < 64
      invariant 0 <= from <= 64
      invariant forall f, t | 0 <= f < from && 0 <= t < 64 :: !(IsColor(p.board[f], c) && IsLegalMove(p, f, t))
    {
      if p.board[from].Some? && IsColor(p.board[from], c) {
        var to := 0;
        while to < 64
          invariant 0 <= to <= 64
          invariant forall t | 0 <= t < to :: !IsLegalMove(p, from, t)
        {
          if IsLegalMove(p, from, to) {
            return true;
          }
          to := to + 1;
        }
      }
      from := from + 1;
    }
    return false;
  }

  /** findKing: `board.indexOf` of the king, by a scan in index order. */
  method FindKingScan(b: Board, c: Color) returns (k: int)
    ensures k == FindKing(b, c)
  {
    var i := 0;
    while i < 64
      invariant 0 <= i <= 64
      invariant Some(Piece(c, King)) !in b[..i]
    {
      if b[i] == Some(Piece(c, King)) {
        assert b[..i + 1] == b[..i] + [b[i]];
        return i;
      }
      assert b[..i + 1] == b[..i] + [b[i]];
      i := i + 1;
    }
    assert b[..64] == b;
    return -1;
  }
}
