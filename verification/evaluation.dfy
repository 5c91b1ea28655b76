/**
 * The end-of-move classification of docs/app.js: isThreefoldRepetition,
 * isInsufficientMaterial and checkGameState, which marks the last move text
 * with "+" or "#" and ends the game.
 */
module Evaluation {
  import opened Options
  import opened Pieces
  import opened Seqs
  import opened Rules
  import opened GameState

  // ---------------------------------------------------------------------------
  // isThreefoldRepetition
  // ---------------------------------------------------------------------------

  /** The current position's hash occurs at least three times in the history. */
  predicate Threefold(g: Game) {
    Count(g.positions, PositionHash(g.pos, g.turn)) >= 3
  }

  /** Repetition is a multiplicity of at least three in the multiset of recorded hashes. */
  lemma ThreefoldIsMultiplicity(g: Game)
    ensures Threefold(g) <==> multiset(g.positions)[PositionHash(g.pos, g.turn)] >= 3
  {
    CountIsMultiplicity(g.positions, PositionHash(g.pos, g.turn));
  }

  /**
   * Recording the current position a third time is what triggers the draw:
   * with two earlier records it is not yet a repetition, after the third it is.
   */
  lemma ThirdOccurrenceTriggers(g: Game)
    requires Count(g.positions, PositionHash(g.pos, g.turn)) == 2
    ensures !Threefold(g)
    ensures Threefold(g.(positions := g.positions + [PositionHash(g.pos, g.turn)]))
  {
    var h := PositionHash(g.pos, g.turn);
    CountAppend(g.positions, h, h);
  }

  // ---------------------------------------------------------------------------
  // isInsufficientMaterial
  // ---------------------------------------------------------------------------

  /** `board.filter(Boolean)`: the pieces in board order. */
  function Occupied(cells: seq<Cell>): (ps: seq<Piece>)
    ensures |ps| <= |cells|
    ensures forall p :: p in ps <==> Some(p) in cells
  {
    if cells == [] then []
    else (if cells[0].Some? then [cells[0].value] else []) + Occupied(cells[1..])
  }

  /** The pieces whose kind is in `ks`, in order. */
  function OfKinds(ps: seq<Piece>, ks: set<Kind>): (r: seq<Piece>)
    ensures |r| <= |ps|
    ensures forall p :: p in r <==> p in ps && p.kind in ks
  {
    if ps == [] then []
    else (if ps[0].kind in ks then [ps[0]] else []) + OfKinds(ps[1..], ks)
  }

  /** The colour of a square as `(row + col) % 2`. */
  function Shade(i: Square): int {
    (Row(i) + Col(i)) % 2
  }

  /**
   * isInsufficientMaterial as written: at most four pieces, no pawn, rook or
   * queen, and then at most one minor piece, or exactly two bishops whose
   * squares share a colour. The squares are looked up with `indexOf` of the
   * bishop's glyph, so two bishops of one side are both found on the first
   * one's square.
   */
  predicate InsufficientMaterial(b: Board) {
    var pieces := Occupied(b);
    if |pieces| > 4 then false
    else if exists p | p in pieces :: p.kind in {Pawn, Rook, Queen} then false
    else
      var minors := OfKinds(pieces, {Knight, Bishop});
      if |minors| <= 1 then true
      else if |minors| == 2 && forall p | p in minors :: p.kind == Bishop then
        var bishops := OfKinds(pieces, {Bishop});
        if |bishops| == 2 then
          assert bishops[0] in bishops && bishops[1] in bishops;
          var i1 := IndexOf(b, Some(bishops[0]));
          var i2 := IndexOf(b, Some(bishops[1]));
          Shade(i1) == Shade(i2)
        else false
      else false
  }

  /** Only kings, knights and bishops, and at most four pieces, can be declared dead. */
  lemma InsufficientMaterialShape(b: Board)
    requires InsufficientMaterial(b)
    ensures |Occupied(b)| <= 4
    ensures forall i | 0 <= i < 64 && b[i].Some? :: b[i].value.kind in {King, Knight, Bishop}
  {
    forall i | 0 <= i < 64 && b[i].Some?
      ensures b[i].value.kind in {King, Knight, Bishop}
    {
      var p := b[i].value;
      assert p in Occupied(b);
      match p.kind
      case King =>
      case Knight =>
      case Bishop =>
      case _ =>
    }
  }

  lemma {:induction false} OccupiedAppend(a: seq<Cell>, c: seq<Cell>)
    ensures Occupied(a + c) == Occupied(a) + Occupied(c)
  {
    if a == [] {
      assert a + c == c;
    } else {
      assert (a + c)[0] == a[0];
      assert (a + c)[1..] == a[1..] + c;
      OccupiedAppend(a[1..], c);
    }
  }

  lemma {:induction false} OfKindsAppend(a: seq<Piece>, c: seq<Piece>, ks: set<Kind>)
    ensures OfKinds(a + c, ks) == OfKinds(a, ks) + OfKinds(c, ks)
  {
    if a == [] {
      assert a + c == c;
    } else {
      assert (a + c)[0] == a[0];
      assert (a + c)[1..] == a[1..] + c;
      OfKindsAppend(a[1..], c, ks);
    }
  }

  /** The pieces of kinds `ks` on two stretches of cells, one after the other. */
  lemma PickAppend(a: seq<Cell>, c: seq<Cell>, ks: set<Kind>)
    ensures OfKinds(Occupied(a + c), ks) == OfKinds(Occupied(a), ks) + OfKinds(Occupied(c), ks)
  {
    OccupiedAppend(a, c);
    OfKindsAppend(Occupied(a), Occupied(c), ks);
  }

  lemma PickSingle(cell: Cell, ks: set<Kind>)
    ensures OfKinds(Occupied([cell]), ks)
            == if cell.Some? && cell.value.kind in ks then [cell.value] else []
  {
    var one: seq<Cell> := [cell];
    assert one[1..] == [];
    if cell.Some? {
      assert [cell.value][1..] == [];
    }
  }

  /** A stretch of cells holding nothing but kings has no minor piece. */
  lemma {:induction false} NoMinors(cells: seq<Cell>, ks: set<Kind>)
    requires King !in ks
    requires forall i | 0 <= i < |cells| :: cells[i].None? || cells[i].value.kind == King
    ensures OfKinds(Occupied(cells), ks) == []
  {
    if cells != [] {
      NoMinors(cells[1..], ks);
      assert cells == [cells[0]] + cells[1..];
      PickAppend([cells[0]], cells[1..], ks);
      PickSingle(cells[0], ks);
    }
  }

  /** A board of kings, knights and bishops has no pawn, rook or queen among its pieces. */
  lemma NoHeavy(b: Board)
    requires forall i | 0 <= i < 64 :: b[i].None? || b[i].value.kind in {King, Knight, Bishop}
    ensures !exists p | p in Occupied(b) :: p.kind in {Pawn, Rook, Queen}
  {
  }

  /** With nothing but kings on the board (at most four pieces) the position is dead. */
  lemma BareKingsAreDrawn(b: Board)
    requires |Occupied(b)| <= 4
    requires forall i | 0 <= i < 64 :: b[i].None? || b[i].value.kind == King
    ensures InsufficientMaterial(b)
  {
    NoHeavy(b);
    NoMinors(b, {Knight, Bishop});
  }

  /** A single knight or bishop besides the kings is a dead position. */
  lemma LoneMinorIsDrawn(b: Board, s: Square)
    requires |Occupied(b)| <= 4
    requires b[s].Some? && b[s].value.kind in {Knight, Bishop}
    requires forall i | 0 <= i < 64 && i != s :: b[i].None? || b[i].value.kind == King
    ensures InsufficientMaterial(b)
  {
    NoHeavy(b);
    PickAround(b, s, {Knight, Bishop});
    PickSingle(b[s], {Knight, Bishop});
  }

  /** Around a single square holding something else, only that square can contribute. */
  lemma PickAround(cells: seq<Cell>, s: int, ks: set<Kind>)
    requires 0 <= s < |cells| && King !in ks
    requires forall i | 0 <= i < |cells| && i != s :: cells[i].None? || cells[i].value.kind == King
    ensures OfKinds(Occupied(cells), ks) == OfKinds(Occupied([cells[s]]), ks)
  {
    assert cells == cells[..s] + [cells[s]] + cells[s + 1..];
    NoMinors(cells[..s], ks);
    NoMinors(cells[s + 1..], ks);
    PickAppend(cells[..s] + [cells[s]], cells[s + 1..], ks);
    PickAppend(cells[..s], [cells[s]], ks);
  }

  /** Every cell but `s1` and `s2` is empty or holds a king. */
  predicate KingsElsewhere(b: Board, s1: Square, s2: Square) {
    forall i | 0 <= i < 64 && i != s1 && i != s2 :: b[i].None? || b[i].value.kind == King
  }

  /** The picked pieces of a stretch are those of its front part, then those of its back part. */
  lemma SplitPick(cells: seq<Cell>, k: int, ks: set<Kind>)
    requires 0 <= k <= |cells|
    ensures OfKinds(Occupied(cells), ks) == OfKinds(Occupied(cells[..k]), ks) + OfKinds(Occupied(cells[k..]), ks)
  {
    assert cells == cells[..k] + cells[k..];
    PickAppend(cells[..k], cells[k..], ks);
  }

  /** The pieces on `s1` and `s2` are the only ones of kinds `ks`, in board order. */
  lemma TwoPicked(b: Board, s1: Square, s2: Square, ks: set<Kind>)
    requires s1 < s2 && King !in ks
    requires b[s1].Some? && b[s1].value.kind in ks
    requires b[s2].Some? && b[s2].value.kind in ks
    requires KingsElsewhere(b, s1, s2)
    ensures OfKinds(Occupied(b), ks) == [b[s1].value, b[s2].value]
  {
    SplitPick(b, s1 + 1, ks);
    var x := FrontPick(b, s1, s2, ks);
    var y := BackPick(b, s1, s2, ks);
    Glue(OfKinds(Occupied(b), ks), OfKinds(Occupied(b[..s1 + 1]), ks), OfKinds(Occupied(b[s1 + 1..]), ks), x, y);
  }

  lemma Glue<T>(whole: seq<T>, front: seq<T>, back: seq<T>, x: T, y: T)
    requires whole == front + back && front == [x] && back == [y]
    ensures whole == [x, y]
  {
  }

  lemma FrontPick(b: Board, s1: Square, s2: Square, ks: set<Kind>) returns (x: Piece)
    requires s1 < s2 && King !in ks
    requires b[s1].Some? && b[s1].value.kind in ks
    requires KingsElsewhere(b, s1, s2)
    ensures x == b[s1].value && OfKinds(Occupied(b[..s1 + 1]), ks) == [x]
  {
    var front := b[..s1 + 1];
    forall i | 0 <= i < |front| && i != s1
      ensures front[i].None? || front[i].value.kind == King
    {
      assert front[i] == b[i];
    }
    PickAround(front, s1, ks);
    PickSingle(b[s1], ks);
    x := b[s1].value;
  }

  lemma BackPick(b: Board, s1: Square, s2: Square, ks: set<Kind>) returns (y: Piece)
    requires s1 < s2 && King !in ks
    requires b[s2].Some? && b[s2].value.kind in ks
    requires KingsElsewhere(b, s1, s2)
    ensures y == b[s2].value && OfKinds(Occupied(b[s1 + 1..]), ks) == [y]
  {
    var back := b[s1 + 1..];
    var t := s2 - s1 - 1;
    forall i | 0 <= i < |back| && i != t
      ensures back[i].None? || back[i].value.kind == King
    {
      assert back[i] == b[s1 + 1 + i];
    }
    assert back[t] == b[s2];
    PickAround(back, t, ks);
    PickSingle(b[s2], ks);
    y := b[s2].value;
  }

  /**
   * Kings and exactly two bishops, on `s1` before `s2`: the position counts
   * as dead when the bishops' squares share a colour, and also whenever both
   * bishops belong to the same side, wherever they stand, because the lookup
   * by glyph finds the same square for both.
   */
  lemma TwoBishops(b: Board, s1: Square, s2: Square)
    requires s1 < s2 && |Occupied(b)| <= 4
    requires b[s1].Some? && b[s1].value.kind == Bishop
    requires b[s2].Some? && b[s2].value.kind == Bishop
    requires KingsElsewhere(b, s1, s2)
    ensures InsufficientMaterial(b) <==> b[s1] == b[s2] || Shade(s1) == Shade(s2)
  {
    NoHeavyBesidesBishops(b, s1, s2);
    TwoPicked(b, s1, s2, {Knight, Bishop});
    TwoPicked(b, s1, s2, {Bishop});
    InsufficientWithTwoBishops(b, b[s1].value, b[s2].value);
    BishopsIndexed(b, s1, s2);
  }

  /**
   * Kings and two minor pieces of which at least one is a knight (two
   * knights, or a knight and a bishop) are never declared dead: only a pair
   * of bishops gets the shade test.
   */
  lemma KnightAndMinorAreNotDrawn(b: Board, s1: Square, s2: Square)
    requires s1 < s2
    requires b[s1].Some? && b[s1].value.kind in {Knight, Bishop}
    requires b[s2].Some? && b[s2].value.kind in {Knight, Bishop}
    requires b[s1].value.kind == Knight || b[s2].value.kind == Knight
    requires KingsElsewhere(b, s1, s2)
    ensures !InsufficientMaterial(b)
  {
    TwoPicked(b, s1, s2, {Knight, Bishop});
    var minors := OfKinds(Occupied(b), {Knight, Bishop});
    assert minors[0] in minors && minors[1] in minors;
    assert !forall p | p in minors :: p.kind == Bishop;
  }

  /**
   * Three or more knights and bishops, on any squares and whatever else
   * stands on the board, are never declared dead.
   */
  lemma ThreeMinorsAreNotDrawn(b: Board, s1: Square, s2: Square, s3: Square)
    requires s1 < s2 < s3
    requires b[s1].Some? && b[s1].value.kind in {Knight, Bishop}
    requires b[s2].Some? && b[s2].value.kind in {Knight, Bishop}
    requires b[s3].Some? && b[s3].value.kind in {Knight, Bishop}
    ensures !InsufficientMaterial(b)
  {
    ThreePicked(b, s1, s2, s3, {Knight, Bishop});
    ManyMinors(b);
  }

  lemma ManyMinors(b: Board)
    requires |OfKinds(Occupied(b), {Knight, Bishop})| >= 3
    ensures !InsufficientMaterial(b)
  {
  }

  /** Three pieces of kinds `ks` on the board are three picked pieces. */
  lemma ThreePicked(b: Board, s1: Square, s2: Square, s3: Square, ks: set<Kind>)
    requires s1 < s2 < s3
    requires b[s1].Some? && b[s1].value.kind in ks
    requires b[s2].Some? && b[s2].value.kind in ks
    requires b[s3].Some? && b[s3].value.kind in ks
    ensures |OfKinds(Occupied(b), ks)| >= 3
  {
    PickedTwicePast(b, s1, s2, ks);
    var rest := b[s2 + 1..];
    assert rest[s3 - s2 - 1] == b[s3];
    PickedPast(rest, s3 - s2 - 1, ks);
  }

  /** Two pieces of kinds `ks` are picked on top of everything picked after the second. */
  lemma PickedTwicePast(cells: seq<Cell>, t1: int, t2: int, ks: set<Kind>)
    requires 0 <= t1 < t2 < |cells|
    requires cells[t1].Some? && cells[t1].value.kind in ks
    requires cells[t2].Some? && cells[t2].value.kind in ks
    ensures |OfKinds(Occupied(cells), ks)| >= 2 + |OfKinds(Occupied(cells[t2 + 1..]), ks)|
  {
    PickedPast(cells, t1, ks);
    var rest := cells[t1 + 1..];
    assert rest[t2 - t1 - 1] == cells[t2] && rest[t2 - t1..] == cells[t2 + 1..];
    PickedPast(rest, t2 - t1 - 1, ks);
  }

  /** A piece of kinds `ks` on `t` is picked on top of everything picked after it. */
  lemma {:induction false} PickedPast(cells: seq<Cell>, t: int, ks: set<Kind>)
    requires 0 <= t < |cells| && cells[t].Some? && cells[t].value.kind in ks
    ensures |OfKinds(Occupied(cells), ks)| >= 1 + |OfKinds(Occupied(cells[t + 1..]), ks)|
    decreases t
  {
    PickFirst(cells, ks);
    if t > 0 {
      assert cells[1..][t - 1] == cells[t] && cells[1..][t..] == cells[t + 1..];
      PickedPast(cells[1..], t - 1, ks);
    }
  }

  /** The picked pieces of a stretch are its first cell's, then the rest's. */
  lemma PickFirst(cells: seq<Cell>, ks: set<Kind>)
    requires cells != []
    ensures OfKinds(Occupied(cells), ks)
            == (if cells[0].Some? && cells[0].value.kind in ks then [cells[0].value] else [])
               + OfKinds(Occupied(cells[1..]), ks)
  {
    assert cells == [cells[0]] + cells[1..];
    PickAppend([cells[0]], cells[1..], ks);
    PickSingle(cells[0], ks);
  }

  lemma NoHeavyBesidesBishops(b: Board, s1: Square, s2: Square)
    requires b[s1].Some? && b[s1].value.kind == Bishop
    requires b[s2].Some? && b[s2].value.kind == Bishop
    requires KingsElsewhere(b, s1, s2)
    ensures !exists p | p in Occupied(b) :: p.kind in {Pawn, Rook, Queen}
  {
    NoHeavy(b);
  }

  /** indexOf finds the first bishop on its square, and the second too when the glyphs differ. */
  lemma BishopsIndexed(b: Board, s1: Square, s2: Square)
    requires s1 < s2
    requires b[s1].Some? && b[s1].value.kind == Bishop
    requires b[s2].Some? && b[s2].value.kind == Bishop
    requires KingsElsewhere(b, s1, s2)
    ensures IndexOf(b, b[s1]) == s1 && (b[s1] != b[s2] ==> IndexOf(b, b[s2]) == s2)
  {
    FirstIndex(b, s1);
    if b[s1] != b[s2] {
      FirstIndex(b, s2);
    }
  }

  /** With exactly two bishops as minor pieces the verdict rests on the squares indexOf finds. */
  lemma InsufficientWithTwoBishops(b: Board, x: Piece, y: Piece)
    requires |Occupied(b)| <= 4 && !exists p | p in Occupied(b) :: p.kind in {Pawn, Rook, Queen}
    requires x.kind == Bishop && y.kind == Bishop
    requires OfKinds(Occupied(b), {Knight, Bishop}) == [x, y] && OfKinds(Occupied(b), {Bishop}) == [x, y]
    ensures InsufficientMaterial(b) <==> Shade(IndexOf(b, Some(x))) == Shade(IndexOf(b, Some(y)))
  {
    assert forall p | p in [x, y] :: p.kind == Bishop;
  }

  /** indexOf finds a cell whose content occurs nowhere before it. */
  lemma FirstIndex(b: Board, s: Square)
    requires forall i | 0 <= i < s :: b[i] != b[s]
    ensures IndexOf(b, b[s]) == s
  {
    Seqs.IndexOfFinds(b, s);
  }

  // ---------------------------------------------------------------------------
  // checkGameState
  // ---------------------------------------------------------------------------

  /**
   * The classification checkGameState makes, in its order: repetition,
   * fifty-move rule, insufficient material, then mate or stalemate when the
   * side to move has no legal move, then check.
   */
  function Evaluate(g: Game): (v: Verdict)
    ensures v.Ends() <==> Threefold(g) || g.halfMoves >= 100
                          || InsufficientMaterial(g.pos.board) || !HasLegalMoves(g.pos, g.turn)
    ensures v.Checkmate? ==> v.winner == Opponent(g.turn) && InCheck(g.pos, g.turn)
                             && !HasLegalMoves(g.pos, g.turn)
    ensures v == Stalemate ==> !InCheck(g.pos, g.turn) && !HasLegalMoves(g.pos, g.turn)
    ensures !v.Ends() ==> HasLegalMoves(g.pos, g.turn) && (v == Check <==> InCheck(g.pos, g.turn))
    ensures v == Repetition <==> Threefold(g)
    ensures v == FiftyMoves <==> !Threefold(g) && g.halfMoves >= 100
    ensures v == DeadPosition <==> !Threefold(g) && g.halfMoves < 100 && InsufficientMaterial(g.pos.board)
    ensures v.Checkmate? <==> !Threefold(g) && g.halfMoves < 100 && !InsufficientMaterial(g.pos.board)
                              && !HasLegalMoves(g.pos, g.turn) && InCheck(g.pos, g.turn)
    ensures v == Stalemate <==> !Threefold(g) && g.halfMoves < 100 && !InsufficientMaterial(g.pos.board)
                                && !HasLegalMoves(g.pos, g.turn) && !InCheck(g.pos, g.turn)
  {
    if Threefold(g) then Repetition
    else if g.halfMoves >= 100 then FiftyMoves
    else if InsufficientMaterial(g.pos.board) then DeadPosition
    else if !HasLegalMoves(g.pos, g.turn) then
      if InCheck(g.pos, g.turn) then Checkmate(Opponent(g.turn)) else Stalemate
    else if InCheck(g.pos, g.turn) then Check
    else Continue
  }

  /** Appends a suffix to the last move text, if there is one. */
  function MarkLast(moves: seq<string>, suffix: string): (r: seq<string>)
    ensures |r| == |moves|
    ensures |moves| > 0 ==> r[..|moves| - 1] == moves[..|moves| - 1]
                            && r[|moves| - 1] == moves[|moves| - 1] + suffix
    ensures |moves| == 0 ==> r == moves
  {
    if |moves| > 0 then moves[..|moves| - 1] + [moves[|moves| - 1] + suffix] else moves
  }

  /**
   * checkGameState: mate marks the last move "#", check marks it "+", and
   * every verdict but check and continue ends the game.
   */
  function CheckGameState(g: Game): (r: Game)
    ensures r == g.(moves := r.moves, ending := r.ending)
    ensures var v := Evaluate(g);
            (v.Ends() ==> r.ending == Some(v)) && (!v.Ends() ==> r.ending == g.ending)
    ensures Evaluate(g).Checkmate? ==> r.moves == MarkLast(g.moves, "#")
    ensures Evaluate(g) == Check ==> r.moves == MarkLast(g.moves, "+")
    ensures !(Evaluate(g).Checkmate? || Evaluate(g) == Check) ==> r.moves == g.moves
  {
    var v := Evaluate(g);
    var moves := if v.Checkmate? then MarkLast(g.moves, "#")
                 else if v == Check then MarkLast(g.moves, "+")
                 else g.moves;
    g.(moves := moves, ending := if v.Ends() then Some(v) else g.ending)
  }
}
