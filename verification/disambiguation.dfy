/**
 * getDisambiguation in docs/app.js: the file, rank or both of the origin
 * square, written when another piece of the same colour and kind could also
 * move legally to the target.
 */
module Disambiguation {
  import opened Options
  import opened Pieces
  import opened Rules
  import opened Notation

  function FileOf(sq: Square): char {
    Files[Col(sq)]
  }

  function RankOf(sq: Square): char {
    RankChar(8 - Row(sq))
  }

  /** Files are the letters a-h, ranks the digits 1-8; each names one column or row. */
  lemma SquareChars(a: Square, b: Square)
    ensures 'a' <= FileOf(a) <= 'h' && '1' <= RankOf(a) <= '8'
    ensures FileOf(a) == FileOf(b) <==> Col(a) == Col(b)
    ensures RankOf(a) == RankOf(b) <==> Row(a) == Row(b)
  {
    FileLetter(Col(a));
    FileLetter(Col(b));
    assert RankOf(a) as int == '0' as int + 8 - Row(a);
    assert RankOf(b) as int == '0' as int + 8 - Row(b);
  }

  /** Each character of `d` is the file or the rank of `sq`: `d` is true of a move from `sq`. */
  predicate Fits(d: string, sq: Square) {
    forall k | 0 <= k < |d| :: d[k] == FileOf(sq) || d[k] == RankOf(sq)
  }

  /** Another piece like `piece` that could also move legally to `to`. */
  predicate Rival(p: Position, piece: Piece, from: Square, to: Square, i: Square) {
    i != from && p.board[i] == Some(piece) && IsLegalMove(p, i, to)
  }

  /** The `others` list of getDisambiguation, as a set. */
  function Rivals(p: Position, piece: Piece, from: Square, to: Square): (rivals: set<Square>)
    ensures from !in rivals
    ensures forall i: Square :: i in rivals <==> Rival(p, piece, from, to, i)
  {
    set i: Square | 0 <= i < 64 && Rival(p, piece, from, to, i)
  }

  /**
   * The choice getDisambiguation makes once the rivals are known: nothing
   * without rivals, else the file if no rival shares it, else the rank if no
   * rival shares it, else the whole origin square.
   */
  function Choose(from: Square, rivals: set<Square>): (d: string)
    ensures IsDisambiguation(d) && Fits(d, from)
    ensures rivals != {} && (forall i | i in rivals :: Col(i) != Col(from)) ==> d == [FileOf(from)]
    ensures (exists i | i in rivals :: Col(i) == Col(from)) && (forall i | i in rivals :: Row(i) != Row(from))
            ==> d == [RankOf(from)]
    ensures |d| == 2 ==> d == SquareName(from)
  {
    SquareChars(from, from);
    if rivals == {} then ""
    else if forall i | i in rivals :: Col(i) != Col(from) then [FileOf(from)]
    else if forall i | i in rivals :: Row(i) != Row(from) then [RankOf(from)]
    else SquareName(from)
  }

  /**
   * What a good choice `d` for a move from `from` is, given the rivals: empty
   * exactly when there is none; otherwise the file when no rival shares it,
   * else the rank when no rival shares it, else the whole square; and never
   * true of a rival.
   */
  predicate ChoiceRule(from: Square, rivals: set<Square>, d: string) {
    var sameFile := exists i | i in rivals :: Col(i) == Col(from);
    var sameRank := exists i | i in rivals :: Row(i) == Row(from);
    && (d == "" <==> rivals == {})
    && (forall i | i in rivals :: !Fits(d, i))
    && (rivals != {} && !sameFile ==> d == [FileOf(from)])
    && (sameFile && !sameRank ==> d == [RankOf(from)])
    && (sameFile && sameRank ==> d == SquareName(from))
  }

  /** The choice follows the rule and rules out every rival. */
  lemma ChooseSeparates(from: Square, rivals: set<Square>)
    requires from !in rivals
    ensures ChoiceRule(from, rivals, Choose(from, rivals))
  {
    var d := Choose(from, rivals);
    forall i | i in rivals
      ensures !Fits(d, i)
    {
      ChoiceExcludes(from, rivals, i);
    }
    if (exists i | i in rivals :: Col(i) == Col(from)) && (exists i | i in rivals :: Row(i) == Row(from)) {
      assert d == SquareName(from);
    }
  }

  /** The chosen characters are not all true of a rival. */
  lemma ChoiceExcludes(from: Square, rivals: set<Square>, i: Square)
    requires from !in rivals && i in rivals
    ensures !Fits(Choose(from, rivals), i)
  {
    var d := Choose(from, rivals);
    SquareChars(from, i);
    if |d| == 2 {
      assert d == [FileOf(from), RankOf(from)];
      if Col(i) != Col(from) {
        assert !(d[0] == FileOf(i) || d[0] == RankOf(i));
      } else {
        assert Row(i) != Row(from);
        assert !(d[1] == FileOf(i) || d[1] == RankOf(i));
      }
    } else {
      assert !(d[0] == FileOf(i) || d[0] == RankOf(i));
    }
  }

  /** getDisambiguation: nothing for pawns and kings, else the choice among the rivals. */
  function Disambiguate(p: Position, piece: Piece, from: Square, to: Square): (d: string)
    ensures IsDisambiguation(d) && Fits(d, from)
  {
    if piece.kind == Pawn || piece.kind == King then ""
    else Choose(from, Rivals(p, piece, from, to))
  }

  /**
   * Pawns and kings get no disambiguation. For other pieces the result
   * follows the choice rule over the rivals that could also move legally to
   * the target: empty exactly when there is none, the file first, then the
   * rank, then both, and never true of a rival.
   */
  lemma DisambiguationSeparates(p: Position, piece: Piece, from: Square, to: Square)
    ensures var d := Disambiguate(p, piece, from, to);
            if piece.kind == Pawn || piece.kind == King then d == ""
            else ChoiceRule(from, Rivals(p, piece, from, to), d)
  {
    if piece.kind != Pawn && piece.kind != King {
      ChooseSeparates(from, Rivals(p, piece, from, to));
    }
  }
}
