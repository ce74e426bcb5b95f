/** Value types of the chess engine: colours, piece kinds, pieces and squares. */
module Models {

  datatype Option<+T> = None | Some(value: T)

  /** A square is a (file, rank) pair; file 0 is 'a', rank 0 is rank '1'. */
  type Square = (int, int)

  datatype Color = White | Black

  /** The side that is not `c`. */
  function Opposite(c: Color): (r: Color)
    ensures r != c
  {
    if c == White then Black else White
  }

  lemma OppositeInvolution(c: Color)
    ensures Opposite(Opposite(c)) == c
  {
  }

  datatype PieceType = Pawn | Rook | Knight | Bishop | Queen | King

  datatype Piece = Piece(color: Color, kind: PieceType)

  /** The lower-case letter that names a piece kind. */
  function Letter(t: PieceType): (ch: char)
    ensures ch in {'p', 'r', 'n', 'b', 'q', 'k'}
  {
    match t
    case Pawn => 'p'
    case Rook => 'r'
    case Knight => 'n'
    case Bishop => 'b'
    case Queen => 'q'
    case King => 'k'
  }

  predicate IsLower(ch: char) { 'a' <= ch <= 'z' }

  predicate IsUpper(ch: char) { 'A' <= ch <= 'Z' }

  /** ASCII upper-casing of a letter (other characters are left alone). */
  function ToUpper(ch: char): char
  {
    if IsLower(ch) then (ch as int - 32) as char else ch
  }

  /** ASCII lower-casing of a letter (other characters are left alone). */
  function ToLower(ch: char): char
  {
    if IsUpper(ch) then (ch as int + 32) as char else ch
  }

  /** The one-character display symbol: the kind's letter, upper case for White. */
  function Symbol(p: Piece): (s: string)
    ensures |s| == 1
    ensures p.color == White ==> IsUpper(s[0]) && s[0] in {'P', 'R', 'N', 'B', 'Q', 'K'}
    ensures p.color == Black ==> IsLower(s[0]) && s[0] in {'p', 'r', 'n', 'b', 'q', 'k'}
    ensures ToLower(s[0]) == Letter(p.kind)
  {
    var base := Letter(p.kind);
    if p.color == White then [ToUpper(base)] else [base]
  }

  /** Distinct pieces have distinct symbols: the twelve pieces give twelve characters. */
  lemma SymbolInjective(p: Piece, q: Piece)
    ensures Symbol(p) == Symbol(q) ==> p == q
  {
    if Symbol(p) == Symbol(q) {
      assert IsUpper(Symbol(p)[0]) <==> p.color == White;
      assert IsUpper(Symbol(q)[0]) <==> q.color == White;
      assert Letter(p.kind) == Letter(q.kind);
    }
  }

  /** Ignoring case, a symbol depends on the kind only. */
  lemma SymbolIgnoresColorUpToCase(t: PieceType)
    ensures ToLower(Symbol(Piece(White, t))[0]) == Symbol(Piece(Black, t))[0]
    ensures Symbol(Piece(White, t))[0] == ToUpper(Symbol(Piece(Black, t))[0])
  {
  }
}
