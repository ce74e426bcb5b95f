/** The board's contents as a value: an 8x8 grid of optional pieces indexed [file][rank]. */
module Grids {
  import opened Models

  const BoardSize: int := 8

  type Grid = seq<seq<Option<Piece>>>

  /** Eight files of eight ranks each. */
  ghost predicate WellFormed(g: Grid)
  {
    |g| == BoardSize && forall f :: 0 <= f < BoardSize ==> |g[f]| == BoardSize
  }

  /** Both coordinates lie in [0, 7]. */
  predicate InBounds(sq: Square)
  {
    0 <= sq.0 < BoardSize && 0 <= sq.1 < BoardSize
  }

  /** The squares of the board listed file by file, a1 a2 ... a8 b1 ... h8. */
  function AllSquares(): (squares: seq<Square>)
    ensures |squares| == BoardSize * BoardSize
  {
    seq(BoardSize * BoardSize, i requires 0 <= i < BoardSize * BoardSize => (i / BoardSize, i % BoardSize))
  }

  /** A square is on the board exactly when it is one of the sixty-four listed, each listed once. */
  lemma OnBoardSquares()
    ensures forall sq :: InBounds(sq) <==> sq in AllSquares()
    ensures forall i, j :: 0 <= i < j < |AllSquares()| ==> AllSquares()[i] != AllSquares()[j]
  {
    var all := AllSquares();
    forall sq | InBounds(sq) ensures sq in all {
      var i := sq.0 * BoardSize + sq.1;
      assert all[i] == sq;
    }
  }

  /** The (optional) piece on an in-bounds square. */
  function At(g: Grid, sq: Square): Option<Piece>
    requires WellFormed(g) && InBounds(sq)
  {
    g[sq.0][sq.1]
  }

  predicate IsEmpty(g: Grid, sq: Square)
    requires WellFormed(g) && InBounds(sq)
  {
    At(g, sq).None?
  }

  /** `sq` holds a piece of colour `c`. */
  predicate IsFriendly(g: Grid, c: Color, sq: Square)
    requires WellFormed(g) && InBounds(sq)
  {
    At(g, sq).Some? && At(g, sq).value.color == c
  }

  /** `sq` holds a piece of the colour opposing `c`. */
  predicate IsEnemy(g: Grid, c: Color, sq: Square)
    requires WellFormed(g) && InBounds(sq)
  {
    At(g, sq).Some? && At(g, sq).value.color != c
  }

  /** The back rank, file a to file h. */
  const BackRank: seq<PieceType> := [Rook, Knight, Bishop, Queen, King, Bishop, Knight, Rook]

  /** What the standard starting position puts on (f, r). */
  function StartCell(f: int, r: int): Option<Piece>
    requires 0 <= f < BoardSize
  {
    if r == 0 then Some(Piece(White, BackRank[f]))
    else if r == 1 then Some(Piece(White, Pawn))
    else if r == 6 then Some(Piece(Black, Pawn))
    else if r == 7 then Some(Piece(Black, BackRank[f]))
    else None
  }

  /** The standard starting position square by square. */
  function StartGrid(): (g: Grid)
    ensures WellFormed(g)
    ensures forall f :: 0 <= f < BoardSize ==>
      At(g, (f, 0)) == Some(Piece(White, BackRank[f])) &&
      At(g, (f, 1)) == Some(Piece(White, Pawn)) &&
      At(g, (f, 6)) == Some(Piece(Black, Pawn)) &&
      At(g, (f, 7)) == Some(Piece(Black, BackRank[f]))
    ensures forall f, r :: 0 <= f < BoardSize && 2 <= r <= 5 ==> IsEmpty(g, (f, r))
  {
    seq(BoardSize, f requires 0 <= f < BoardSize => seq(BoardSize, r => StartCell(f, r)))
  }

  /** Each side starts with exactly one king, on file e. */
  lemma StartingKings()
    ensures forall f, r ::
      (InBounds((f, r)) && At(StartGrid(), (f, r)).Some? && At(StartGrid(), (f, r)).value.kind == King) ==>
      f == 4 && (r == 0 || r == 7)
  {
    forall f, r | InBounds((f, r)) && At(StartGrid(), (f, r)).Some? && At(StartGrid(), (f, r)).value.kind == King
      ensures f == 4 && (r == 0 || r == 7)
    {
      assert r == 0 || r == 7;
      assert BackRank[f] == King;
    }
  }

  /** The grid after the piece on `src` is written to `dst` and `src` is cleared. */
  function Apply(g: Grid, src: Square, dst: Square): (h: Grid)
    requires WellFormed(g) && InBounds(src) && InBounds(dst)
    ensures WellFormed(h)
    ensures At(h, src) == None
    ensures src != dst ==> At(h, dst) == At(g, src)
    ensures forall sq :: InBounds(sq) && sq != src && sq != dst ==> At(h, sq) == At(g, sq)
  {
    var placed := g[dst.0 := g[dst.0][dst.1 := At(g, src)]];
    placed[src.0 := placed[src.0][src.1 := None]]
  }
}
