/**
 * Move validation and the check oracle: the rule methods of ChessGame in
 * docs/app.js (isValidMoveRaw, isValidPawnMove, isPathClear, canCastle,
 * findKing, isSquareAttacked, isInCheck, wouldBeInCheck, isLegalMove,
 * hasLegalMoves).
 *
 * RawMove, CanCastle, InCheck and SquareAttacked are one mutually recursive
 * group, as in the source. The recursion ends because SquareAttacked only asks
 * RawMove in attack mode, and attack mode never reaches CanCastle; the
 * `forAttack` flag is the first component of every decreases clause.
 */
module Rules {
  import opened Options
  import opened Pieces
  import opened Seqs

  /** castlingRights: which castlings each side may still make. */
  datatype Rights = Rights(whiteKingSide: bool, whiteQueenSide: bool,
                           blackKingSide: bool, blackQueenSide: bool)

  /** What the rules read: the cells, the en-passant target and the castling rights. */
  datatype Position = Position(board: Board, enPassant: Option<Square>, rights: Rights)

  function Abs(x: int): nat {
    if x < 0 then -x else x
  }

  /** isPieceColor: the cell holds a piece of colour `c`. */
  predicate IsColor(cell: Cell, c: Color) {
    cell.Some? && cell.value.color == c
  }

  // ---------------------------------------------------------------------------
  // Geometry and isPathClear
  // ---------------------------------------------------------------------------

  function RowDist(from: Square, to: Square): nat {
    Abs(Row(from) - Row(to))
  }

  function ColDist(from: Square, to: Square): nat {
    Abs(Col(from) - Col(to))
  }

  /** Same rank or same file. */
  predicate Straight(from: Square, to: Square) {
    Row(from) == Row(to) || Col(from) == Col(to)
  }

  predicate Diagonal(from: Square, to: Square) {
    RowDist(from, to) == ColDist(from, to)
  }

  predicate OnLine(from: Square, to: Square) {
    Straight(from, to) || Diagonal(from, to)
  }

  /** Number of single steps from `from` to `to` along their line. */
  function Steps(from: Square, to: Square): nat {
    if RowDist(from, to) >= ColDist(from, to) then RowDist(from, to) else ColDist(from, to)
  }

  /** One coordinate after `k` unit steps from `a` toward `b` (Math.sign direction). */
  function Toward(a: int, b: int, k: int): int {
    if a < b then a + k else if a > b then a - k else a
  }

  /** The square `k` steps from `from` toward `to`. */
  function Waypoint(from: Square, to: Square, k: int): Square
    requires OnLine(from, to) && 0 <= k <= Steps(from, to)
  {
    At(Toward(Row(from), Row(to), k), Toward(Col(from), Col(to), k))
  }

  /** isPathClear: every square strictly between `from` and `to` is empty. */
  predicate PathClear(b: Board, from: Square, to: Square)
    requires OnLine(from, to)
  {
    forall k | 0 < k < Steps(from, to) :: b[Waypoint(from, to, k)].None?
  }

  // ---------------------------------------------------------------------------
  // isValidPawnMove, isValidMoveRaw, canCastle, findKing, isSquareAttacked, isInCheck
  // ---------------------------------------------------------------------------

  /** Row direction a pawn of colour `c` moves in (white moves toward row 0). */
  function Forward(c: Color): int {
    if c == White then -1 else 1
  }

  function PawnStartRow(c: Color): int {
    if c == White then 6 else 1
  }

  /** isValidPawnMove. */
  function PawnMove(p: Position, pawn: Piece, from: Square, to: Square, forAttack: bool): bool {
    var dir := Forward(pawn.color);
    var startRow := PawnStartRow(pawn.color);
    var jumpRow := if pawn.color == White then 4 else 3;
    var oneAhead := Row(from) + dir == Row(to);
    if forAttack then
      ColDist(from, to) == 1 && oneAhead
    else if Col(from) == Col(to) && p.board[to].None?
         && (oneAhead
             || (Row(from) == startRow && Row(to) == jumpRow
                 && p.board[At(startRow + dir, Col(from))].None?)) then
      true
    else
      ColDist(from, to) == 1 && oneAhead && (p.board[to].Some? || p.enPassant == Some(to))
  }

  /**
   * isValidMoveRaw: the movement pattern of the piece on `from`, ignoring
   * whether the mover's own king is left attacked. With `forAttack` a pawn
   * only covers its two forward diagonals and a king never castles.
   */
  function RawMove(p: Position, from: Square, to: Square, forAttack: bool): (r: bool)
    ensures r ==> p.board[from].Some? && from != to
    ensures r ==> !IsColor(p.board[to], p.board[from].value.color)
    decreases if forAttack then 0 else 3, 0
  {
    var b := p.board;
    if b[from].None? then false
    else if from == to then false
    else if IsColor(b[to], b[from].value.color) then false
    else
      var piece := b[from].value;
      match piece.kind
      case Pawn => PawnMove(p, piece, from, to, forAttack)
      case Rook => Straight(from, to) && PathClear(b, from, to)
      case Knight =>
        (RowDist(from, to) == 2 && ColDist(from, to) == 1)
        || (RowDist(from, to) == 1 && ColDist(from, to) == 2)
      case Bishop => Diagonal(from, to) && PathClear(b, from, to)
      case Queen => OnLine(from, to) && PathClear(b, from, to)
      case King =>
        if RowDist(from, to) <= 1 && ColDist(from, to) <= 1 then true
        else if !forAttack && Row(from) == Row(to) && ColDist(from, to) == 2 then CanCastle(p, from, to)
        else false
  }

  /**
   * canCastle: not in check, the right still held, the squares between king
   * and rook empty, and the squares the king crosses and lands on not attacked.
   */
  function CanCastle(p: Position, from: Square, to: Square): bool
    requires p.board[from].Some?
    decreases 2, 0
  {
    var color := p.board[from].value.color;
    var row := Row(from);
    var opponent := Opponent(color);
    if InCheck(p, color) then false
    else if Col(to) == 6 then
      var right := if color == White then p.rights.whiteKingSide else p.rights.blackKingSide;
      right
      && p.board[At(row, 5)].None? && p.board[At(row, 6)].None?
      && !SquareAttacked(p, At(row, 5), opponent)
      && !SquareAttacked(p, At(row, 6), opponent)
    else if Col(to) == 2 then
      var right := if color == White then p.rights.whiteQueenSide else p.rights.blackQueenSide;
      right
      && p.board[At(row, 1)].None? && p.board[At(row, 2)].None? && p.board[At(row, 3)].None?
      && !SquareAttacked(p, At(row, 2), opponent)
      && !SquareAttacked(p, At(row, 3), opponent)
    else false
  }

  /** findKing: the first square holding the king of colour `c`, or -1. */
  function FindKing(b: Board, c: Color): (k: int)
    ensures k == -1 <==> Some(Piece(c, King)) !in b
    ensures k != -1 ==> 0 <= k < 64 && b[k] == Some(Piece(c, King))
  {
    IndexOf(b, Some(Piece(c, King)))
  }

  /** isSquareAttacked: some piece of colour `attacker` has an attack-mode move onto `sq`. */
  predicate SquareAttacked(p: Position, sq: Square, attacker: Color)
    decreases 1, 0
  {
    exists i | 0 <= i < 64 :: IsColor(p.board[i], attacker) && RawMove(p, i, sq, true)
  }

  /** isInCheck: the king of colour `c` stands on a square the opponent attacks. */
  predicate InCheck(p: Position, c: Color)
    decreases 1, 1
  {
    var k := FindKing(p.board, c);
    k != -1 && SquareAttacked(p, k, Opponent(c))
  }

  // ---------------------------------------------------------------------------
  // wouldBeInCheck, isLegalMove, hasLegalMoves
  // ---------------------------------------------------------------------------

  /** Empties a cell; an index off the board leaves the board as it is. */
  function Clear(b: Board, i: int): (r: Board)
    ensures forall j | 0 <= j < 64 && j != i :: r[j] == b[j]
    ensures 0 <= i < 64 ==> r[i] == None
  {
    if 0 <= i < 64 then b[i := None] else b
  }

  /** The pawn an en-passant capture by colour `c` onto `to` removes. */
  function EnPassantVictim(c: Color, to: Square): int {
    if c == White then to + 8 else to - 8
  }

  /** A king step of two columns, which the engine treats as castling. */
  predicate IsCastling(b: Board, from: Square, to: Square) {
    b[from].Some? && b[from].value.kind == King && ColDist(from, to) == 2
  }

  /** The rook's origin and destination for a castling king move. */
  function RookFrom(from: Square, to: Square): Square {
    if Col(to) > Col(from) then At(Row(from), 7) else At(Row(from), 0)
  }

  function RookTo(from: Square, to: Square): Square {
    if Col(to) > Col(from) then At(Row(from), 5) else At(Row(from), 3)
  }

  /** The squares a simulated move may write. */
  function Touched(p: Position, from: Square, to: Square, c: Color): set<int> {
    {from, to}
    + (if p.board[from].Some? && p.board[from].value.kind == Pawn && p.enPassant == Some(to)
       then {EnPassantVictim(c, to)} else {})
    + (if IsCastling(p.board, from, to) then {RookFrom(from, to), RookTo(from, to)} else {})
  }

  /**
   * The scratch board of wouldBeInCheck: remove an en-passant victim, move
   * the piece, then move the castling rook. The caller's position is not
   * changed: the result is a new board.
   */
  function Simulate(p: Position, from: Square, to: Square, c: Color): (sim: Board)
    ensures forall i | 0 <= i < 64 && i !in Touched(p, from, to, c) :: sim[i] == p.board[i]
  {
    var piece := p.board[from];
    var b0 := if piece.Some? && piece.value.kind == Pawn && p.enPassant == Some(to)
              then Clear(p.board, EnPassantVictim(c, to)) else p.board;
    var b1 := b0[to := b0[from]][from := None];
    if IsCastling(p.board, from, to) then
      var rookFrom := RookFrom(from, to);
      var rookTo := RookTo(from, to);
      b1[rookTo := b1[rookFrom]][rookFrom := None]
    else b1
  }

  /** wouldBeInCheck: the king of colour `c` is attacked on the scratch board. */
  predicate WouldBeInCheck(p: Position, from: Square, to: Square, c: Color) {
    InCheck(p.(board := Simulate(p, from, to, c)), c)
  }

  /**
   * isLegalMove: the raw pattern holds and the mover's king is not attacked
   * afterwards. Whose turn it is is not checked here; the caller filters it.
   */
  predicate IsLegalMove(p: Position, from: Square, to: Square) {
    RawMove(p, from, to, false) && !WouldBeInCheck(p, from, to, p.board[from].value.color)
  }

  /** hasLegalMoves: some piece of colour `c` has a legal move. */
  predicate HasLegalMoves(p: Position, c: Color) {
    exists from, to | 0 <= from < 64 && 0 <= to < 64 :: IsColor(p.board[from], c) && IsLegalMove(p, from, to)
  }
}
