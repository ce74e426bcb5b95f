/** The text picture of a board: rank 8 on top, files a to h left to right. */
module Ascii {
  import opened Models
  import opened Grids

  /** `parts` with `sep` between consecutive elements. */
  function Join(parts: seq<string>, sep: string): string
  {
    if |parts| == 0 then ""
    else if |parts| == 1 then parts[0]
    else parts[0] + sep + Join(parts[1..], sep)
  }

  /** How a cell is drawn: the piece's symbol, or "." when empty. */
  function CellText(cell: Option<Piece>): (s: string)
    ensures |s| == 1
    ensures cell.None? <==> s == "."
  {
    if cell.Some? then Symbol(cell.value) else "."
  }

  /** Character `j` of the picture, from the layout alone: lines of fifteen characters
      and a newline, cells at even columns, spaces at odd ones, rank 7 first. */
  function LayoutChar(g: Grid, j: int): char
    requires WellFormed(g) && 0 <= j < 8 * 16 - 1
  {
    var line, col := j / 16, j % 16;
    if col == 15 then '\n'
    else if col % 2 == 1 then ' '
    else CellText(At(g, (col / 2, BoardSize - 1 - line)))[0]
  }

  /** Joining one-character cells with a one-character separator puts cell `j / 2` at
      every even column and the separator at every odd one. */
  lemma {:induction false} JoinCells(parts: seq<string>, sep: char)
    requires |parts| > 0
    requires forall i :: 0 <= i < |parts| ==> |parts[i]| == 1
    ensures |Join(parts, [sep])| == 2 * |parts| - 1
    ensures forall j :: 0 <= j < 2 * |parts| - 1 ==>
      Join(parts, [sep])[j] == if j % 2 == 1 then sep else parts[j / 2][0]
    decreases |parts|
  {
    if |parts| > 1 {
      var rest := parts[1..];
      JoinCells(rest, sep);
      var s, t := Join(parts, [sep]), Join(rest, [sep]);
      assert s == parts[0] + [sep] + t;
      forall j | 2 <= j < 2 * |parts| - 1
        ensures s[j] == if j % 2 == 1 then sep else parts[j / 2][0]
      {
        assert s[j] == t[j - 2];
        assert rest[(j - 2) / 2] == parts[j / 2];
      }
    }
  }

  /** Joining fifteen-character lines with a newline puts character `j % 16` of line
      `j / 16` at position `j`, and the newline at every sixteenth position. */
  lemma {:induction false} JoinLines(parts: seq<string>, sep: char)
    requires |parts| > 0
    requires forall i :: 0 <= i < |parts| ==> |parts[i]| == 15
    ensures |Join(parts, [sep])| == 16 * |parts| - 1
    ensures forall j :: 0 <= j < 16 * |parts| - 1 ==>
      Join(parts, [sep])[j] == if j % 16 == 15 then sep else parts[j / 16][j % 16]
    decreases |parts|
  {
    if |parts| > 1 {
      var rest := parts[1..];
      JoinLines(rest, sep);
      var s, t := Join(parts, [sep]), Join(rest, [sep]);
      assert s == parts[0] + [sep] + t;
      forall j | 16 <= j < 16 * |parts| - 1
        ensures s[j] == if j % 16 == 15 then sep else parts[j / 16][j % 16]
      {
        assert s[j] == t[j - 16];
        assert rest[(j - 16) / 16] == parts[j / 16];
      }
    }
  }

  /** One rank, its cells separated by single spaces: fifteen characters, the cells
      of files a to h at even columns and a space at every odd one. */
  function RowText(g: Grid, r: int): (line: string)
    requires WellFormed(g) && 0 <= r < BoardSize
    ensures |line| == 15
    ensures forall k :: 0 <= k < 15 ==>
      line[k] == if k % 2 == 1 then ' ' else CellText(At(g, (k / 2, r)))[0]
  {
    var cells := seq(BoardSize, f requires 0 <= f < BoardSize => CellText(At(g, (f, r))));
    JoinCells(cells, ' ');
    Join(cells, " ")
  }

  /** The ranks from the top (rank 7) down to rank 0, one per line: eight lines of
      fifteen characters, each character what the layout puts there. */
  function Render(g: Grid): (picture: string)
    requires WellFormed(g)
    ensures |picture| == 8 * 16 - 1
    ensures forall j :: 0 <= j < 8 * 16 - 1 ==> picture[j] == LayoutChar(g, j)
  {
    var rows := seq(BoardSize, i requires 0 <= i < BoardSize => RowText(g, BoardSize - 1 - i));
    JoinLines(rows, '\n');
    Join(rows, "\n")
  }
}
