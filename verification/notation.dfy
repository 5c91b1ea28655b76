/**
 * Short algebraic notation with German piece letters (PIECE_NOTATION and
 * getAlgebraicNotation in docs/pieces.js), and a reader for the text it
 * produces, so that what the encoder writes can be stated as a round trip.
 */
module Notation {
  import opened Options
  import opened Pieces

  /** PIECE_NOTATION: Koenig, Dame, Turm, Laeufer, Springer; pawns have no letter. */
  function Letter(k: Kind): string {
    match k
    case King => "K"
    case Queen => "D"
    case Rook => "T"
    case Bishop => "L"
    case Knight => "S"
    case Pawn => ""
  }

  /** The kind a piece letter stands for. */
  function KindOfLetter(ch: char): Option<Kind> {
    match ch
    case 'K' => Some(King)
    case 'D' => Some(Queen)
    case 'T' => Some(Rook)
    case 'L' => Some(Bishop)
    case 'S' => Some(Knight)
    case _ => None
  }

  /** Every piece but the pawn has a one-letter name that reads back as its kind. */
  lemma LetterRoundTrip(k: Kind)
    ensures k == Pawn <==> Letter(k) == ""
    ensures k != Pawn ==> |Letter(k)| == 1 && KindOfLetter(Letter(k)[0]) == Some(k)
  {
  }

  datatype CastleSide = KingSide | QueenSide

  function CastleText(side: CastleSide): string {
    match side
    case KingSide => "O-O"
    case QueenSide => "O-O-O"
  }

  /** A disambiguation string: at most a file letter and a rank digit. */
  predicate IsDisambiguation(d: string) {
    |d| <= 2 && forall i | 0 <= i < |d| :: 'a' <= d[i] <= 'h' || '1' <= d[i] <= '8'
  }

  /**
   * getAlgebraicNotation. A castling tag wins over everything else; a pawn
   * capture is written with the origin file; every other move is the piece
   * letter, the disambiguation, an "x" for a capture and the target square.
   */
  function MoveText(piece: Piece, from: Square, to: Square, isCapture: bool,
                    special: Option<CastleSide>, disambig: string): (t: string)
    ensures special.Some? ==> t == CastleText(special.value)
    ensures special.None? ==> |t| >= 2 && t[|t| - 2..] == SquareName(to)
  {
    match special
    case Some(side) => CastleText(side)
    case None =>
      var captureText := if isCapture then "x" else "";
      if piece.kind == Pawn && isCapture then
        [Files[Col(from)]] + captureText + SquareName(to)
      else
        Letter(piece.kind) + disambig + captureText + SquareName(to)
  }

  /** What a move text says: a castling, or kind, disambiguation, capture and target. */
  datatype Reading =
    | Castling(side: CastleSide)
    | Plain(kind: Kind, disambig: string, capture: bool, target: Square)

  /** Reads a move text as MoveText writes it. */
  function ReadMoveText(t: string): Option<Reading> {
    if t == "O-O" then Some(Castling(KingSide))
    else if t == "O-O-O" then Some(Castling(QueenSide))
    else if |t| < 2 then None
    else
      match ParseSquare(t[|t| - 2..])
      case None => None
      case Some(target) =>
        var (kind, disambig, capture) := ReadHead(t[..|t| - 2]);
        Some(Plain(kind, disambig, capture, target))
  }

  /** Reads what precedes the target square: letter, disambiguation, "x". */
  function ReadHead(head: string): (Kind, string, bool) {
    if |head| > 0 && KindOfLetter(head[0]).Some? then
      var (d, capture) := ReadRest(head[1..]);
      (KindOfLetter(head[0]).value, d, capture)
    else
      var (d, capture) := ReadRest(head);
      (Pawn, d, capture)
  }

  /** Splits an optional trailing "x" off the disambiguation. */
  function ReadRest(rest: string): (string, bool) {
    if |rest| > 0 && rest[|rest| - 1] == 'x' then (rest[..|rest| - 1], true) else (rest, false)
  }

  /** Castling texts read back as the castling they record. */
  lemma CastleTextRoundTrip(piece: Piece, from: Square, to: Square, isCapture: bool,
                            side: CastleSide, disambig: string)
    ensures ReadMoveText(MoveText(piece, from, to, isCapture, Some(side), disambig)) == Some(Castling(side))
  {
  }

  /** No file letter, rank digit or capture mark is a piece letter. */
  lemma NotALetter(ch: char)
    requires 'a' <= ch <= 'h' || '1' <= ch <= '8' || ch == 'x'
    ensures KindOfLetter(ch).None?
  {
  }

  /** A disambiguation followed by an optional "x" splits back apart. */
  lemma ReadRestParts(d: string, capture: bool)
    requires IsDisambiguation(d)
    ensures ReadRest(d + (if capture then "x" else "")) == (d, capture)
  {
    var rest := d + (if capture then "x" else "");
    if capture {
      assert rest[..|rest| - 1] == d;
    } else {
      assert rest == d;
      if |d| > 0 {
        assert d[|d| - 1] != 'x';
      }
    }
  }

  /** The part before the target reads back into letter, disambiguation and capture. */
  lemma ReadHeadParts(k: Kind, d: string, capture: bool)
    requires IsDisambiguation(d)
    ensures ReadHead(Letter(k) + d + (if capture then "x" else "")) == (k, d, capture)
  {
    var rest := d + (if capture then "x" else "");
    assert Letter(k) + d + (if capture then "x" else "") == Letter(k) + rest;
    if k == Pawn {
      ReadHeadPawn(d, capture);
      assert Letter(k) + rest == rest;
    } else {
      ReadHeadLetter(k, rest);
      ReadRestParts(d, capture);
    }
  }

  /** Without a piece letter the head reads as a pawn move. */
  lemma ReadHeadPawn(d: string, capture: bool)
    requires IsDisambiguation(d)
    ensures ReadHead(d + (if capture then "x" else "")) == (Pawn, d, capture)
  {
    var rest := d + (if capture then "x" else "");
    ReadRestParts(d, capture);
    if |rest| > 0 {
      assert rest[0] == if |d| > 0 then d[0] else 'x';
      NotALetter(rest[0]);
    }
  }

  /** A leading piece letter is read as its kind, and the rest after it. */
  lemma ReadHeadLetter(k: Kind, rest: string)
    requires k != Pawn
    ensures ReadHead(Letter(k) + rest) == (k, ReadRest(rest).0, ReadRest(rest).1)
  {
    var head := Letter(k) + rest;
    assert head[0] == Letter(k)[0];
    assert head[1..] == rest;
  }

  /** The generic text shape reads back into its parts. */
  lemma ReadPlainText(k: Kind, d: string, capture: bool, to: Square)
    requires IsDisambiguation(d)
    ensures ReadMoveText(Letter(k) + d + (if capture then "x" else "") + SquareName(to))
         == Some(Plain(k, d, capture, to))
  {
    var head := Letter(k) + d + (if capture then "x" else "");
    var t := head + SquareName(to);
    SquareNameRoundTrip(to);
    assert t[|t| - 2..] == SquareName(to);
    assert t[..|t| - 2] == head;
    assert t != "O-O" && t != "O-O-O" by {
      assert t[|t| - 1] == SquareName(to)[1];
    }
    ReadHeadParts(k, d, capture);
  }

  /**
   * Every non-castling text reads back as the mover's kind, its capture flag
   * and its target; the disambiguation read back is the one given, except
   * that a pawn capture carries the origin file instead.
   */
  lemma MoveTextRoundTrip(piece: Piece, from: Square, to: Square, isCapture: bool, disambig: string)
    requires IsDisambiguation(disambig)
    ensures ReadMoveText(MoveText(piece, from, to, isCapture, None, disambig))
         == Some(Plain(piece.kind,
                       if piece.kind == Pawn && isCapture then [Files[Col(from)]] else disambig,
                       isCapture, to))
  {
    if piece.kind == Pawn && isCapture {
      var file := [Files[Col(from)]];
      assert IsDisambiguation(file);
      assert MoveText(piece, from, to, isCapture, None, disambig) == Letter(Pawn) + file + "x" + SquareName(to);
      ReadPlainText(Pawn, file, true, to);
    } else {
      ReadPlainText(piece.kind, disambig, isCapture, to);
    }
  }

  /** Distinct non-castling moves to distinct targets have distinct texts. */
  lemma MoveTextNamesTarget(p: Piece, q: Piece, from: Square, from': Square, to: Square, to': Square,
                            c: bool, c': bool, d: string, d': string)
    requires MoveText(p, from, to, c, None, d) == MoveText(q, from', to', c', None, d')
    ensures to == to'
  {
    var t := MoveText(p, from, to, c, None, d);
    SquareNameInjective(to, to');
  }

  /** A castling text never coincides with the text of an ordinary move. */
  lemma CastleTextIsDistinct(p: Piece, from: Square, to: Square, c: bool, d: string, side: CastleSide)
    ensures MoveText(p, from, to, c, None, d) != CastleText(side)
  {
    var t := MoveText(p, from, to, c, None, d);
    assert t[|t| - 1] == SquareName(to)[1];
  }
}
