/**
 * The board object: an 8x8 array of optional pieces, indexed [file][rank], that
 * move generation reads and a successful move writes in place.
 */
module Chessboard {
  import opened Models
  import opened Grids
  import MoveRules
  import Ascii

  class Board {
    const grid: array2<Option<Piece>>

    /** The contents of the array as a grid value. */
    ghost var cells: Grid

    ghost predicate Valid()
      reads this, grid
    {
      grid.Length0 == BoardSize && grid.Length1 == BoardSize && WellFormed(cells) &&
      forall f, r :: 0 <= f < BoardSize && 0 <= r < BoardSize ==> cells[f][r] == grid[f, r]
    }

    /** A board in the standard starting position. */
    constructor ()
      ensures Valid() && fresh(grid)
      ensures cells == StartGrid()
    {
      var a := new Option<Piece>[BoardSize, BoardSize]((f, r) => None);
      for f := 0 to BoardSize
        invariant forall i, j :: 0 <= i < BoardSize && 0 <= j < BoardSize ==>
          a[i, j] == if i < f then StartCell(i, j) else None
      {
        a[f, 0] := Some(Piece(White, BackRank[f]));
        a[f, 1] := Some(Piece(White, Pawn));
        a[f, 6] := Some(Piece(Black, Pawn));
        a[f, 7] := Some(Piece(Black, BackRank[f]));
      }
      grid := a;
      this.cells := StartGrid();
    }

    /** The (optional) piece on an in-bounds square. */
    function PieceAt(sq: Square): (p: Option<Piece>)
      reads this, grid
      requires Valid() && InBounds(sq)
      ensures p == At(cells, sq)
    {
      grid[sq.0, sq.1]
    }

    /** The pseudo-legal candidates for the piece on `sq`, built up candidate by candidate. */
    method GenerateMoves(sq: Square) returns (moves: seq<Square>)
      requires Valid() && InBounds(sq)
      ensures moves == MoveRules.Moves(cells, sq)
    {
      var p := PieceAt(sq);
      if p.None? {
        return [];
      }
      var piece := p.value;
      var c := piece.color;
      match piece.kind {
        case Pawn =>
          moves := PawnMoves(sq, c);
        case Knight =>
          moves := StepMoves(sq, c, MoveRules.KnightOffsets);
        case King =>
          moves := StepMoves(sq, c, MoveRules.KingOffsets);
        case _ =>
          moves := SlidingMoves(sq, piece);
      }
    }

    /** `sq` holds a piece of colour `c`. */
    predicate SameColor(sq: Square, c: Color)
      reads this, grid
      requires Valid() && InBounds(sq)
      ensures SameColor(sq, c) <==> IsFriendly(cells, c, sq)
    {
      var q := PieceAt(sq);
      q.Some? && q.value.color == c
    }

    method PawnMoves(sq: Square, c: Color) returns (moves: seq<Square>)
      requires Valid() && InBounds(sq)
      ensures moves == MoveRules.PawnMoves(cells, c, sq)
    {
      ghost var g := cells;
      var (f, r) := sq;
      var dir := if c == White then 1 else -1;
      moves := [];
      var one := (f, r + dir);
      if InBounds(one) && PieceAt(one).None? {
        moves := moves + [one];
        var two := (f, r + 2 * dir);
        var startRank := if c == White then 1 else 6;
        if r == startRank && PieceAt(two).None? {
          moves := moves + [two];
        }
      }
      assert moves == MoveRules.PawnAdvance(g, c, sq);
      var captures := PawnCaptures(sq, c);
      moves := moves + captures;
    }

    /** The diagonal squares, left then right, that hold an enemy of colour `c`. */
    method PawnCaptures(sq: Square, c: Color) returns (captures: seq<Square>)
      requires Valid() && InBounds(sq)
      ensures captures == MoveRules.PawnCaptures(cells, c, sq, MoveRules.PawnCaptureFiles)
    {
      var (f, r) := sq;
      var dir := if c == White then 1 else -1;
      var files := MoveRules.PawnCaptureFiles;
      captures := [];
      for i := 0 to |files|
        invariant captures == MoveRules.PawnCaptures(cells, c, sq, files[..i])
      {
        var tgt := (f + files[i], r + dir);
        if InBounds(tgt) && PieceAt(tgt).Some? && !SameColor(tgt, c) {
          captures := captures + [tgt];
        }
        assert files[..i + 1][..i] == files[..i];
      }
      assert files[..|files|] == files;
    }

    /** The squares one of `offsets` away from `sq` that are on the board and not
        occupied by colour `c`, offset by offset. */
    method StepMoves(sq: Square, c: Color, offsets: seq<(int, int)>) returns (moves: seq<Square>)
      requires Valid() && InBounds(sq)
      ensures moves == MoveRules.Steps(cells, c, sq, offsets)
    {
      moves := [];
      for i := 0 to |offsets|
        invariant moves == MoveRules.Steps(cells, c, sq, offsets[..i])
      {
        MoveRules.StepsSnoc(cells, c, sq, offsets, i);
        var step := StepTo(sq, c, offsets[i]);
        moves := moves + step;
      }
      assert offsets[..|offsets|] == offsets;
    }

    /** The square `d` away from `sq`, if it is on the board and not occupied by colour `c`. */
    method StepTo(sq: Square, c: Color, d: (int, int)) returns (step: seq<Square>)
      requires Valid()
      ensures step == MoveRules.Step(cells, c, sq, d)
    {
      var tgt := (sq.0 + d.0, sq.1 + d.1);
      if InBounds(tgt) && !SameColor(tgt, c) {
        step := [tgt];
      } else {
        step := [];
      }
    }

    method SlidingMoves(sq: Square, piece: Piece) returns (moves: seq<Square>)
      requires Valid() && InBounds(sq)
      ensures moves == MoveRules.Rays(cells, piece.color, sq, MoveRules.SliderDirections(piece.kind))
    {
      ghost var g := cells;
      var c := piece.color;
      var lines := MoveRules.SliderDirections(piece.kind);
      moves := [];
      for i := 0 to |lines|
        invariant moves == MoveRules.Rays(g, c, sq, lines[..i])
      {
        var d := lines[i];
        ghost var prev := moves;
        var ray := WalkRay(MoveRules.Offset(sq, d), d, c);
        assert lines[..i + 1][..i] == lines[..i];
        assert MoveRules.Rays(g, c, sq, lines[..i + 1]) == prev + ray;
        moves := moves + ray;
      }
      assert lines[..|lines|] == lines;
    }

    /** Walks from `sq` in direction `d`, collecting empty squares, up to and including
        the first occupied square if it holds an enemy. */
    method WalkRay(sq: Square, d: (int, int), c: Color) returns (ray: seq<Square>)
      requires Valid() && MoveRules.IsUnit(d)
      ensures ray == MoveRules.Ray(cells, c, sq, d)
    {
      ghost var g := cells;
      var (df, dr) := d;
      var (nf, nr) := sq;
      ray := [];
      while InBounds((nf, nr))
        invariant ray + MoveRules.Ray(g, c, (nf, nr), d) == MoveRules.Ray(g, c, sq, d)
        decreases MoveRules.Budget((nf, nr), d)
      {
        if PieceAt((nf, nr)).Some? {
          if !SameColor((nf, nr), c) {
            ray := ray + [(nf, nr)];
          }
          return;
        }
        var here := (nf, nr);
        ghost var rest := MoveRules.Ray(g, c, (nf + df, nr + dr), d);
        assert (ray + [here]) + rest == ray + ([here] + rest);
        ray := ray + [here];
        nf, nr := nf + df, nr + dr;
      }
    }

    /** Moves the piece on `src` to `dst` when `dst` is one of its candidates;
        otherwise reports failure and leaves the board alone. */
    method Move(src: Square, dst: Square) returns (ok: bool)
      requires Valid() && InBounds(src)
      modifies this, grid
      ensures Valid()
      ensures ok <==> old(PieceAt(src)).Some? && dst in old(MoveRules.Moves(cells, src))
      ensures ok ==> InBounds(dst) && src != dst
      ensures ok ==> cells == Apply(old(cells), src, dst)
      ensures !ok ==> cells == old(cells)
    {
      var p := PieceAt(src);
      if p.None? {
        return false;
      }
      var moves := GenerateMoves(src);
      if dst !in moves {
        return false;
      }
      MoveRules.MovesSafe(cells, src);
      grid[dst.0, dst.1] := p;
      grid[src.0, src.1] := None;
      cells := Apply(cells, src, dst);
      ok := true;
    }

    /** The board as text, rank 7 first, built rank by rank. */
    method Render() returns (s: string)
      requires Valid()
      ensures s == Ascii.Render(cells)
    {
      ghost var g := cells;
      var rows: seq<string> := [];
      var r := BoardSize;
      while r > 0
        invariant 0 <= r <= BoardSize
        invariant |rows| == BoardSize - r
        invariant forall i :: 0 <= i < |rows| ==> rows[i] == Ascii.RowText(g, BoardSize - 1 - i)
      {
        r := r - 1;
        var line := RenderRank(r);
        rows := rows + [line];
      }
      assert rows == seq(BoardSize, i requires 0 <= i < BoardSize => Ascii.RowText(g, BoardSize - 1 - i));
      s := Ascii.Join(rows, "\n");
    }

    /** Rank `r` as text, cell by cell, separated by spaces. */
    method RenderRank(r: int) returns (line: string)
      requires Valid() && 0 <= r < BoardSize
      ensures line == Ascii.RowText(cells, r)
    {
      ghost var g := cells;
      var row: seq<string> := [];
      for f := 0 to BoardSize
        invariant |row| == f
        invariant forall i :: 0 <= i < f ==> row[i] == Ascii.CellText(At(g, (i, r)))
      {
        var piece := grid[f, r];
        row := row + [if piece.Some? then Symbol(piece.value) else "."];
      }
      assert row == seq(BoardSize, i requires 0 <= i < BoardSize => Ascii.CellText(At(g, (i, r))));
      line := Ascii.Join(row, " ");
    }
  }
}
