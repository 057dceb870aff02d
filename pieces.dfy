/** Piece vocabulary of the engine: piece types, colours, pieces and their glyphs. */
module Pieces {
  /** The six kinds of chess piece. */
  datatype PieceType = Pawn | Rook | Knight | Bishop | Queen | King

  /** The two sides. */
  datatype ChessColor = White | Black

  /** An immutable piece value; equality is structural. */
  datatype ChessPiece = ChessPiece(kind: PieceType, color: ChessColor)

  const AllPieceTypes: seq<PieceType> := [Pawn, Rook, Knight, Bishop, Queen, King]
  const AllColors: seq<ChessColor> := [White, Black]

  /** There are exactly six piece types and two colours. */
  lemma EnumerationsAreComplete(t: PieceType, c: ChessColor)
    ensures t in AllPieceTypes && |AllPieceTypes| == 6
    ensures forall i, j :: 0 <= i < j < |AllPieceTypes| ==> AllPieceTypes[i] != AllPieceTypes[j]
    ensures c in AllColors && |AllColors| == 2 && AllColors[0] != AllColors[1]
  {
  }

  /** Two pieces are equal exactly when their type and colour agree. */
  lemma PieceEquality(a: ChessPiece, b: ChessPiece)
    ensures a == b <==> a.kind == b.kind && a.color == b.color
  {
  }

  /** `toBoolean`: true for the white side. */
  function ToBoolean(c: ChessColor): (b: bool)
    ensures b <==> c == White
  {
    c == White
  }

  /** The boolean identifies the colour: comparing booleans is comparing colours. */
  lemma ToBooleanSeparates(a: ChessColor, b: ChessColor)
    ensures ToBoolean(a) == ToBoolean(b) <==> a == b
  {
  }

  /**
   * Position of a kind inside each block of Unicode chess symbols:
   * the blocks run king, queen, rook, bishop, knight, pawn.
   */
  function UnicodeRank(t: PieceType): (k: int)
    ensures 0 <= k < 6
  {
    match t
    case King => 0
    case Queen => 1
    case Rook => 2
    case Bishop => 3
    case Knight => 4
    case Pawn => 5
  }

  /** First code point of the white (U+2654) and black (U+265A) symbol blocks. */
  function UnicodeBase(c: ChessColor): int
  {
    if c == White then 0x2654 else 0x265A
  }

  /** `getPieceUnicode`: the one-character chess symbol of a piece. */
  function PieceUnicode(piece: ChessPiece): (s: string)
    ensures |s| == 1
    ensures s[0] as int == UnicodeBase(piece.color) + UnicodeRank(piece.kind)
    ensures piece.color == White <==> '\U{2654}' <= s[0] <= '\U{2659}'
    ensures piece.color == Black <==> '\U{265A}' <= s[0] <= '\U{265F}'
  {
    if piece.color == White then
      match piece.kind
      case Pawn => "\U{2659}"    // ♙
      case Rook => "\U{2656}"    // ♖
      case Knight => "\U{2658}"  // ♘
      case Bishop => "\U{2657}"  // ♗
      case Queen => "\U{2655}"   // ♕
      case King => "\U{2654}"    // ♔
    else
      match piece.kind
      case Pawn => "\U{265F}"    // ♟
      case Rook => "\U{265C}"    // ♜
      case Knight => "\U{265E}"  // ♞
      case Bishop => "\U{265D}"  // ♝
      case Queen => "\U{265B}"   // ♛
      case King => "\U{265A}"    // ♚
  }

  /** Distinct pieces are drawn with distinct glyphs. */
  lemma PieceUnicodeInjective(a: ChessPiece, b: ChessPiece)
    ensures PieceUnicode(a) == PieceUnicode(b) ==> a == b
  {
    if PieceUnicode(a) == PieceUnicode(b) {
      assert PieceUnicode(a)[0] == PieceUnicode(b)[0];
      assert a.color == b.color;
      assert UnicodeRank(a.kind) == UnicodeRank(b.kind);
    }
  }
}
