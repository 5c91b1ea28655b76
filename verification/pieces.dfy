/**
 * Piece vocabulary, board geometry, square names and the start position
 * (docs/pieces.js).
 *
 * The source stores every board cell as a string: "" for an empty square or
 * one Unicode chess glyph. The model stores an `Option<Piece>` per cell;
 * `CellText` and `ParseCell` are the two directions of that correspondence.
 */
module Pieces {
  import opened Options

  datatype Color = White | Black
  datatype Kind = Pawn | Rook | Knight | Bishop | Queen | King
  datatype Piece = Piece(color: Color, kind: Kind)

  type Cell = Option<Piece>

  function Opponent(c: Color): (o: Color)
    ensures o != c
  {
    if c == White then Black else White
  }

  // ---------------------------------------------------------------------------
  // Glyphs (PIECES, WHITE_PIECES, BLACK_PIECES)
  // ---------------------------------------------------------------------------

  /** The Unicode glyph the source uses for a piece (U+2654..U+265F). */
  function Glyph(p: Piece): char {
    match p
    case Piece(White, Pawn) => '\U{2659}'
    case Piece(Black, Pawn) => '\U{265F}'
    case Piece(White, Rook) => '\U{2656}'
    case Piece(Black, Rook) => '\U{265C}'
    case Piece(White, Knight) => '\U{2658}'
    case Piece(Black, Knight) => '\U{265E}'
    case Piece(White, Bishop) => '\U{2657}'
    case Piece(Black, Bishop) => '\U{265D}'
    case Piece(White, Queen) => '\U{2655}'
    case Piece(Black, Queen) => '\U{265B}'
    case Piece(White, King) => '\U{2654}'
    case Piece(Black, King) => '\U{265A}'
  }

  /** The strings the source searches to classify a glyph by colour. */
  const WhiteGlyphs: string := "\U{2654}\U{2655}\U{2656}\U{2657}\U{2658}\U{2659}"
  const BlackGlyphs: string := "\U{265A}\U{265B}\U{265C}\U{265D}\U{265E}\U{265F}"

  /** Distinct pieces have distinct glyphs. */
  lemma GlyphInjective(p: Piece, q: Piece)
    requires Glyph(p) == Glyph(q)
    ensures p == q
  {
  }

  /** `s` occurs in `text` starting at index `i`. */
  predicate OccursAt(text: string, s: string, i: int) {
    0 <= i && i + |s| <= |text| && text[i..i + |s|] == s
  }

  /** JavaScript's `text.includes(s)`: `s` occurs as a contiguous substring. */
  predicate Includes(text: string, s: string) {
    exists i | 0 <= i <= |text| :: OccursAt(text, s, i)
  }

  /** A one-character string is included exactly when the character occurs. */
  lemma IncludesSingle(text: string, ch: char)
    ensures Includes(text, [ch]) <==> ch in text
  {
    if ch in text {
      var i :| 0 <= i < |text| && text[i] == ch;
      assert text[i..i + 1] == [ch];
      assert OccursAt(text, [ch], i);
    }
    if Includes(text, [ch]) {
      var i :| 0 <= i <= |text| && OccursAt(text, [ch], i);
      assert text[i..i + 1][0] == text[i];
    }
  }

  /** getPieceColor: colour of a cell string, None for "" or an unknown string. */
  function ColorOfText(s: string): Option<Color> {
    if s == "" then None
    else if Includes(WhiteGlyphs, s) then Some(White)
    else if Includes(BlackGlyphs, s) then Some(Black)
    else None
  }

  /** Every glyph is classified with its own piece's colour. */
  lemma ColorOfGlyph(p: Piece)
    ensures ColorOfText([Glyph(p)]) == Some(p.color)
  {
    IncludesSingle(WhiteGlyphs, Glyph(p));
    IncludesSingle(BlackGlyphs, Glyph(p));
  }

  /**
   * On one-character strings the classification is exact: "white" for the
   * six white glyphs, "black" for the six black ones, nothing otherwise.
   */
  lemma ColorOfSingleChar(ch: char)
    ensures ColorOfText([ch]) == Some(White) <==> ch in WhiteGlyphs
    ensures ColorOfText([ch]) == Some(Black) <==> ch in BlackGlyphs
    ensures ColorOfText([ch]) == None <==> ch !in WhiteGlyphs && ch !in BlackGlyphs
  {
    IncludesSingle(WhiteGlyphs, ch);
    IncludesSingle(BlackGlyphs, ch);
  }

  /**
   * Because the test is a substring search, a run of several glyphs of one
   * colour is also classified with that colour; no cell of a board ever
   * holds such a string.
   */
  lemma ColorOfTextIsSubstringTest()
    ensures ColorOfText("\U{2654}\U{2655}") == Some(White)
    ensures ColorOfText("\U{265E}\U{265F}") == Some(Black)
    ensures ColorOfText("\U{2659}\U{265A}") == None
  {
    assert OccursAt(WhiteGlyphs, "\U{2654}\U{2655}", 0);
    assert OccursAt(BlackGlyphs, "\U{265E}\U{265F}", 4);
    MissingCharNotIncluded(WhiteGlyphs, "\U{265E}\U{265F}", 0);
    MissingCharNotIncluded(WhiteGlyphs, "\U{2659}\U{265A}", 1);
    MissingCharNotIncluded(BlackGlyphs, "\U{2659}\U{265A}", 0);
  }

  /** A string with a character the text lacks is not included in it. */
  lemma MissingCharNotIncluded(text: string, s: string, k: nat)
    requires k < |s| && s[k] !in text
    ensures !Includes(text, s)
  {
    forall i | 0 <= i <= |text|
      ensures !OccursAt(text, s, i)
    {
      if i + |s| <= |text| {
        assert text[i..i + |s|][k] == text[i + k];
      }
    }
  }

  /** A string longer than the six-glyph runs has no colour. */
  lemma ColorOfLongText(s: string)
    requires |s| > 6
    ensures ColorOfText(s) == None
  {
  }

  /**
   * getPieceType: the kind whose white or black glyph equals the string, in
   * the order the source's PIECES table lists them.
   */
  function KindOfText(s: string): Option<Kind> {
    if s == "" then None
    else if s == [Glyph(Piece(White, Pawn))] || s == [Glyph(Piece(Black, Pawn))] then Some(Pawn)
    else if s == [Glyph(Piece(White, Rook))] || s == [Glyph(Piece(Black, Rook))] then Some(Rook)
    else if s == [Glyph(Piece(White, Knight))] || s == [Glyph(Piece(Black, Knight))] then Some(Knight)
    else if s == [Glyph(Piece(White, Bishop))] || s == [Glyph(Piece(Black, Bishop))] then Some(Bishop)
    else if s == [Glyph(Piece(White, Queen))] || s == [Glyph(Piece(Black, Queen))] then Some(Queen)
    else if s == [Glyph(Piece(White, King))] || s == [Glyph(Piece(Black, King))] then Some(King)
    else None
  }

  /** A string has kind `k` exactly when it is the glyph of a `k` of either colour. */
  lemma KindOfTextExact(s: string, k: Kind)
    ensures KindOfText(s) == Some(k) <==> s == [Glyph(Piece(White, k))] || s == [Glyph(Piece(Black, k))]
  {
  }

  /** The string the source stores in a cell. */
  function CellText(c: Cell): string {
    match c
    case None => ""
    case Some(p) => [Glyph(p)]
  }

  /** How the source reads a cell string back: its colour and its kind. */
  function ParseCell(s: string): Option<Piece> {
    match (ColorOfText(s), KindOfText(s))
    case (Some(c), Some(k)) => Some(Piece(c, k))
    case _ => None
  }

  /** Reading a stored cell gives back the cell. */
  lemma ParseCellText(c: Cell)
    ensures ParseCell(CellText(c)) == c
  {
    if c.Some? {
      ColorOfGlyph(c.value);
    }
  }

  /** A string that reads as a piece is exactly that piece's glyph. */
  lemma CellTextParse(s: string)
    requires ParseCell(s).Some?
    ensures CellText(ParseCell(s)) == s
  {
    var p := ParseCell(s).value;
    assert |s| == 1;
    ColorOfSingleChar(s[0]);
    assert s == [s[0]];
  }

  // ---------------------------------------------------------------------------
  // Squares and square names (BOARD_SIZE, COL_LETTERS, indexToAlgebraic)
  // ---------------------------------------------------------------------------

  /** A board index: 0 is a8, 7 is h8, 56 is a1, 63 is h1. */
  type Square = i: int | 0 <= i < 64

  /** Row counted from the top (rank 8 is row 0). */
  function Row(i: Square): int {
    i / 8
  }

  function Col(i: Square): int {
    i % 8
  }

  /** The square at a row and column. */
  function At(row: int, col: int): (i: Square)
    requires 0 <= row < 8 && 0 <= col < 8
    ensures Row(i) == row && Col(i) == col
  {
    row * 8 + col
  }

  const Files: string := "abcdefgh"

  /** The digit character of a rank number 1..8. */
  function RankChar(rank: int): char
    requires 1 <= rank <= 8
  {
    ('0' as int + rank) as char
  }

  /** indexToAlgebraic: file letter of the column, then rank 8 - row. */
  function SquareName(i: Square): string {
    [Files[Col(i)], RankChar(8 - Row(i))]
  }

  /** The inverse of SquareName on well-formed names. */
  function ParseSquare(name: string): Option<Square> {
    if |name| == 2 && 'a' <= name[0] <= 'h' && '1' <= name[1] <= '8' then
      Some(At(8 - (name[1] as int - '0' as int), name[0] as int - 'a' as int))
    else
      None
  }

  /** The file letter of column `c` is the c-th letter from 'a'. */
  lemma FileLetter(c: int)
    requires 0 <= c < 8
    ensures Files[c] as int == 'a' as int + c
  {
  }

  /** The name built from a row and a column reads back as the square there. */
  lemma NameAt(row: int, col: int)
    requires 0 <= row < 8 && 0 <= col < 8
    ensures ParseSquare([Files[col], RankChar(8 - row)]) == Some(row * 8 + col)
  {
    var f, k := Files[col], RankChar(8 - row);
    FileLetter(col);
    assert k as int == '0' as int + 8 - row;
    assert 'a' <= f <= 'h' && '1' <= k <= '8';
    assert 8 - (k as int - '0' as int) == row && f as int - 'a' as int == col;
  }

  /** Reading a square name gives back the square. */
  lemma SquareNameRoundTrip(i: Square)
    ensures ParseSquare(SquareName(i)) == Some(i)
  {
    var row, col := Row(i), Col(i);
    assert i == row * 8 + col;
    NameAt(row, col);
  }

  /** A name that reads as a square is that square's name. */
  lemma ParseSquareRoundTrip(name: string)
    requires ParseSquare(name).Some?
    ensures SquareName(ParseSquare(name).value) == name
  {
    var i := ParseSquare(name).value;
    assert Files[Col(i)] == name[0];
    assert SquareName(i) == [name[0], name[1]];
  }

  /** Distinct squares have distinct names; the corners are a8 and h1. */
  lemma SquareNameInjective(i: Square, j: Square)
    ensures SquareName(i) == SquareName(j) ==> i == j
    ensures SquareName(0) == "a8" && SquareName(63) == "h1"
  {
    SquareNameRoundTrip(i);
    SquareNameRoundTrip(j);
  }

  // ---------------------------------------------------------------------------
  // Board and start position (START_POSITION)
  // ---------------------------------------------------------------------------

  /** The 64 cells, row by row from a8 to h1. */
  type Board = b: seq<Cell> | |b| == 64 witness seq(64, i => None)

  const BackRank: seq<Kind> := [Rook, Knight, Bishop, Queen, King, Bishop, Knight, Rook]

  /** The square seen from the other side of the board: same file, mirrored rank. */
  function Mirror(i: Square): Square {
    At(7 - Row(i), Col(i))
  }

  /** The same cell with the piece's colour swapped. */
  function SwapColor(c: Cell): Cell {
    match c
    case None => None
    case Some(p) => Some(Piece(Opponent(p.color), p.kind))
  }

  /** One cell of START_POSITION, by row: back rank, pawns, four empty rows. */
  function StartCell(i: Square): Cell {
    var row := Row(i);
    if row == 0 then Some(Piece(Black, BackRank[Col(i)]))
    else if row == 1 then Some(Piece(Black, Pawn))
    else if row == 6 then Some(Piece(White, Pawn))
    else if row == 7 then Some(Piece(White, BackRank[Col(i)]))
    else None
  }

  /** START_POSITION: black on rows 0-1, white on rows 6-7, the middle empty. */
  function StartPosition(): (b: Board)
    ensures b[4] == Some(Piece(Black, King)) && b[60] == Some(Piece(White, King))
    ensures b[3] == Some(Piece(Black, Queen)) && b[59] == Some(Piece(White, Queen))
    ensures forall i | 16 <= i < 48 :: b[i] == None
    ensures forall i | 0 <= i < 64 :: b[Mirror(i)] == SwapColor(b[i])
  {
    var b := seq(64, i requires 0 <= i < 64 => StartCell(i));
    assert b[4] == StartCell(4) && b[60] == StartCell(60);
    assert b[3] == StartCell(3) && b[59] == StartCell(59);
    b
  }
}
