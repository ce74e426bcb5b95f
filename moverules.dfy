/**
 * Pseudo-legal move generation as pure functions of a grid value and a source
 * square, in the order the engine produces candidates, with the rules each
 * piece kind obeys stated and proved as lemmas.
 */
module MoveRules {
  import opened Models
  import opened Grids

  /** A direction with each component in {-1, 0, 1}, not both zero. */
  predicate IsUnit(d: (int, int))
  {
    -1 <= d.0 <= 1 && -1 <= d.1 <= 1 && d != (0, 0)
  }

  function Offset(sq: Square, d: (int, int)): Square
  {
    (sq.0 + d.0, sq.1 + d.1)
  }

  const KnightOffsets: seq<(int, int)> :=
    [(1, 2), (2, 1), (-1, 2), (-2, 1), (1, -2), (2, -1), (-1, -2), (-2, -1)]

  /** The eight neighbours, file offset outermost, each axis from -1 to 1. */
  const KingOffsets: seq<(int, int)> :=
    [(-1, -1), (-1, 0), (-1, 1), (0, -1), (0, 1), (1, -1), (1, 0), (1, 1)]

  const RookDirections: seq<(int, int)> := [(1, 0), (-1, 0), (0, 1), (0, -1)]

  const BishopDirections: seq<(int, int)> := [(1, 1), (1, -1), (-1, 1), (-1, -1)]

  /** The ray directions of a sliding piece: orthogonals first, then diagonals. */
  function SliderDirections(t: PieceType): (dirs: seq<(int, int)>)
    ensures forall i :: 0 <= i < |dirs| ==> IsUnit(dirs[i])
  {
    (if t == Rook || t == Queen then RookDirections else []) +
    (if t == Bishop || t == Queen then BishopDirections else [])
  }

  /** No element occurs twice. */
  predicate NoRepeats<T(==)>(s: seq<T>)
  {
    forall i, j :: 0 <= i < j < |s| ==> s[i] != s[j]
  }

  /** The rook's directions are the four unit steps along a file or rank, each once. */
  lemma RookDirectionsSpec()
    ensures forall d :: d in RookDirections <==> (IsUnit(d) && (d.0 == 0 || d.1 == 0))
    ensures NoRepeats(RookDirections)
  {
    forall d | IsUnit(d) && (d.0 == 0 || d.1 == 0) ensures d in RookDirections {
      if d.0 == 1 {
        assert d == RookDirections[0];
      } else if d.0 == -1 {
        assert d == RookDirections[1];
      } else if d.1 == 1 {
        assert d == RookDirections[2];
      } else {
        assert d == RookDirections[3];
      }
    }
  }

  /** The bishop's directions are the four diagonal unit steps, each once. */
  lemma BishopDirectionsSpec()
    ensures forall d :: d in BishopDirections <==> (IsUnit(d) && d.0 != 0 && d.1 != 0)
    ensures NoRepeats(BishopDirections)
  {
    forall d | IsUnit(d) && d.0 != 0 && d.1 != 0 ensures d in BishopDirections {
      if d.0 == 1 && d.1 == 1 {
        assert d == BishopDirections[0];
      } else if d.0 == 1 {
        assert d == BishopDirections[1];
      } else if d.1 == 1 {
        assert d == BishopDirections[2];
      } else {
        assert d == BishopDirections[3];
      }
    }
  }

  /** A rook walks the four directions along a file or rank, a bishop the four
      diagonals, a queen all eight, each once; the other kinds do not slide. */
  lemma SliderDirectionsSpec(t: PieceType)
    ensures forall d :: d in SliderDirections(t) <==> (IsUnit(d) &&
      (((t == Rook || t == Queen) && (d.0 == 0 || d.1 == 0)) ||
       ((t == Bishop || t == Queen) && d.0 != 0 && d.1 != 0)))
    ensures NoRepeats(SliderDirections(t))
  {
    RookDirectionsSpec();
    BishopDirectionsSpec();
    var dirs := SliderDirections(t);
    if t == Queen {
      assert dirs == RookDirections + BishopDirections;
      forall i, j | 0 <= i < j < |dirs| ensures dirs[i] != dirs[j] {
        if i < 4 && 4 <= j {
          assert dirs[i] in RookDirections && dirs[j] in BishopDirections;
        }
      }
    }
  }

  function PawnDirection(c: Color): int
  {
    if c == White then 1 else -1
  }

  function PawnStartRank(c: Color): int
  {
    if c == White then 1 else 6
  }

  // ---------------------------------------------------------------- stepping pieces

  /** The square one offset away, if it is on the board and not friendly-occupied. */
  function Step(g: Grid, c: Color, from: Square, d: (int, int)): seq<Square>
    requires WellFormed(g)
  {
    var t := Offset(from, d);
    if InBounds(t) && !IsFriendly(g, c, t) then [t] else []
  }

  /** Candidates of a non-sliding piece, offset by offset. */
  function Steps(g: Grid, c: Color, from: Square, offsets: seq<(int, int)>): (moves: seq<Square>)
    requires WellFormed(g)
    ensures |moves| <= |offsets|
    ensures forall t :: t in moves ==> InBounds(t) && !IsFriendly(g, c, t)
    decreases |offsets|
  {
    if offsets == [] then []
    else Steps(g, c, from, offsets[..|offsets| - 1]) + Step(g, c, from, offsets[|offsets| - 1])
  }

  /** Taking one more offset appends that offset's square, if any. */
  lemma StepsSnoc(g: Grid, c: Color, from: Square, offsets: seq<(int, int)>, i: int)
    requires WellFormed(g) && 0 <= i < |offsets|
    ensures Steps(g, c, from, offsets[..i + 1]) == Steps(g, c, from, offsets[..i]) + Step(g, c, from, offsets[i])
  {
    assert offsets[..i + 1][..i] == offsets[..i];
  }

  /** A stepping piece's candidates are exactly the in-bounds, not friendly-occupied
      squares one of its offsets away, and each offset contributes at most one. */
  lemma {:induction false} StepsSpec(g: Grid, c: Color, from: Square, offsets: seq<(int, int)>)
    requires WellFormed(g)
    ensures forall t :: t in Steps(g, c, from, offsets) <==>
      (InBounds(t) && !IsFriendly(g, c, t) &&
       exists i :: 0 <= i < |offsets| && t == Offset(from, offsets[i]))
    decreases |offsets|
  {
    if offsets != [] {
      var init := offsets[..|offsets| - 1];
      StepsSpec(g, c, from, init);
      forall t ensures t in Steps(g, c, from, offsets) <==>
        (InBounds(t) && !IsFriendly(g, c, t) &&
         exists i :: 0 <= i < |offsets| && t == Offset(from, offsets[i]))
      {
        if InBounds(t) && !IsFriendly(g, c, t) {
          if i :| 0 <= i < |offsets| && t == Offset(from, offsets[i]) {
            if i < |offsets| - 1 {
              assert init[i] == offsets[i];
            }
          }
        }
        if exists i :: 0 <= i < |init| && t == Offset(from, init[i]) {
          var i :| 0 <= i < |init| && t == Offset(from, init[i]);
          assert offsets[i] == init[i];
        }
      }
    }
  }

  /** Distinct offsets give distinct candidates: no square is offered twice. */
  lemma {:induction false} StepsDistinct(g: Grid, c: Color, from: Square, offsets: seq<(int, int)>)
    requires WellFormed(g) && NoRepeats(offsets)
    ensures NoRepeats(Steps(g, c, from, offsets))
    decreases |offsets|
  {
    if offsets != [] {
      var init, last := offsets[..|offsets| - 1], offsets[|offsets| - 1];
      assert forall i :: 0 <= i < |init| ==> init[i] == offsets[i];
      StepsDistinct(g, c, from, init);
      StepsSpec(g, c, from, init);
      forall i | 0 <= i < |init| ensures Offset(from, init[i]) != Offset(from, last) {
        assert init[i] == offsets[i];
      }
      assert Offset(from, last) !in Steps(g, c, from, init);
    }
  }

  // ---------------------------------------------------------------- sliding pieces

  /** The termination measure of a walk along one axis: how many steps it can still take
      before that coordinate leaves [0, 7], and 0 when the axis does not move. */
  function AxisBudget(x: int, dx: int): int
  {
    if dx == 1 then BoardSize - x else if dx == -1 then x + 1 else 0
  }

  /** How far a walk in direction `d` from `sq` can still go before leaving the board. */
  function Budget(sq: Square, d: (int, int)): int
  {
    AxisBudget(sq.0, d.0) + AxisBudget(sq.1, d.1)
  }

  /** The walk from `sq` (inclusive) in direction `d`: empty squares are taken and the
      walk goes on; the first occupied square is taken only if it holds an enemy, and
      ends the walk; leaving the board ends it too. */
  function Ray(g: Grid, c: Color, sq: Square, d: (int, int)): (ray: seq<Square>)
    requires WellFormed(g) && IsUnit(d)
    ensures forall t :: t in ray ==> InBounds(t) && !IsFriendly(g, c, t)
    decreases Budget(sq, d)
  {
    if !InBounds(sq) then []
    else if At(g, sq).Some? then (if IsFriendly(g, c, sq) then [] else [sq])
    else [sq] + Ray(g, c, Offset(sq, d), d)
  }

  /** Candidates of a sliding piece, direction by direction. */
  function Rays(g: Grid, c: Color, from: Square, dirs: seq<(int, int)>): (moves: seq<Square>)
    requires WellFormed(g)
    requires forall i :: 0 <= i < |dirs| ==> IsUnit(dirs[i])
    ensures forall t :: t in moves ==> InBounds(t) && !IsFriendly(g, c, t)
    decreases |dirs|
  {
    if dirs == [] then []
    else
      var d := dirs[|dirs| - 1];
      Rays(g, c, from, dirs[..|dirs| - 1]) + Ray(g, c, Offset(from, d), d)
  }

  /** Where a walk that produced `s` from `from` stands after its last candidate. */
  function RayNext(from: Square, d: (int, int), s: seq<Square>): Square
  {
    if s == [] then Offset(from, d) else Offset(s[|s| - 1], d)
  }

  /**
   * What it means for `s` to be the candidates along direction `d` from `from`:
   * consecutive squares starting next to `from`, all on the board, all empty except
   * possibly the last, which is never friendly; and if the last one is empty (or
   * there is none), the walk stopped because the next square is off the board or
   * holds a friendly piece.
   */
  ghost predicate IsRay(g: Grid, c: Color, from: Square, d: (int, int), s: seq<Square>)
    requires WellFormed(g)
  {
    (forall i :: 0 <= i < |s| ==> InBounds(s[i])) &&
    (|s| > 0 ==> s[0] == Offset(from, d)) &&
    (forall i :: 0 < i < |s| ==> s[i] == Offset(s[i - 1], d)) &&
    (forall i :: 0 <= i < |s| - 1 ==> IsEmpty(g, s[i])) &&
    (|s| > 0 ==> !IsFriendly(g, c, s[|s| - 1])) &&
    ((s == [] || IsEmpty(g, s[|s| - 1])) ==>
      var next := RayNext(from, d, s);
      !InBounds(next) || IsFriendly(g, c, next))
  }

  /** The walk computed by `Ray` is a ray in the sense of `IsRay`. */
  lemma {:induction false} RayIsRay(g: Grid, c: Color, from: Square, d: (int, int))
    requires WellFormed(g) && IsUnit(d)
    ensures IsRay(g, c, from, d, Ray(g, c, Offset(from, d), d))
    decreases Budget(Offset(from, d), d)
  {
    var sq := Offset(from, d);
    var s := Ray(g, c, sq, d);
    if InBounds(sq) && At(g, sq).None? {
      RayIsRay(g, c, sq, d);
      var rest := Ray(g, c, Offset(sq, d), d);
      RayExtends(g, c, from, d, rest);
      assert s == [sq] + rest;
    }
  }

  /** A ray from the next square along, preceded by that empty next square, is a ray. */
  lemma RayExtends(g: Grid, c: Color, from: Square, d: (int, int), rest: seq<Square>)
    requires WellFormed(g)
    requires InBounds(Offset(from, d)) && IsEmpty(g, Offset(from, d))
    requires IsRay(g, c, Offset(from, d), d, rest)
    ensures IsRay(g, c, from, d, [Offset(from, d)] + rest)
  {
    var sq := Offset(from, d);
    var s := [sq] + rest;
    assert forall i :: 0 < i < |s| ==> s[i] == rest[i - 1];
    assert s[|s| - 1] == if rest == [] then sq else rest[|rest| - 1];
    assert RayNext(from, d, s) == RayNext(sq, d, rest);
  }

  /** There is only one ray per direction: `IsRay` determines the candidates. */
  lemma RayUnique(g: Grid, c: Color, from: Square, d: (int, int), s1: seq<Square>, s2: seq<Square>)
    requires WellFormed(g)
    requires IsRay(g, c, from, d, s1) && IsRay(g, c, from, d, s2)
    ensures s1 == s2
  {
    forall i | 0 <= i < |s1| && i < |s2| ensures s1[i] == s2[i] {
      RaySquaresAgree(g, c, from, d, s1, s2, i);
    }
    if |s1| < |s2| {
      RayGoesOnPast(g, c, from, d, s1, s2);
      assert false;
    } else if |s2| < |s1| {
      RayGoesOnPast(g, c, from, d, s2, s1);
      assert false;
    }
  }

  /** Two rays from the same square in the same direction agree wherever both are defined. */
  lemma {:induction false} RaySquaresAgree(g: Grid, c: Color, from: Square, d: (int, int),
                                           s1: seq<Square>, s2: seq<Square>, i: nat)
    requires WellFormed(g)
    requires IsRay(g, c, from, d, s1) && IsRay(g, c, from, d, s2)
    requires i < |s1| && i < |s2|
    ensures s1[i] == s2[i]
    decreases i
  {
    if i > 0 {
      RaySquaresAgree(g, c, from, d, s1, s2, i - 1);
      assert s1[i] == Offset(s1[i - 1], d) && s2[i] == Offset(s2[i - 1], d);
    }
  }

  /** Where a ray `s2` goes on past the end of a shorter prefix `s1`, that prefix ends on
      an empty square (or is empty) and the square after it is on the board and not friendly. */
  lemma RayGoesOnPast(g: Grid, c: Color, from: Square, d: (int, int), s1: seq<Square>, s2: seq<Square>)
    requires WellFormed(g)
    requires IsRay(g, c, from, d, s2)
    requires forall i :: 0 <= i < |s1| ==> InBounds(s1[i])
    requires forall i :: 0 <= i < |s1| && i < |s2| ==> s1[i] == s2[i]
    requires |s1| < |s2|
    ensures s1 == [] || IsEmpty(g, s1[|s1| - 1])
    ensures InBounds(RayNext(from, d, s1)) && !IsFriendly(g, c, RayNext(from, d, s1))
  {
    var n := |s1|;
    if n > 0 {
      assert s1[n - 1] == s2[n - 1];
      assert s2[n] == Offset(s2[n - 1], d);
    }
    assert s2[n] == RayNext(from, d, s1);
    if n < |s2| - 1 {
      assert IsEmpty(g, s2[n]);
    }
  }

  /** A sliding piece's candidates are the union of its rays. */
  lemma {:induction false} RaysSpec(g: Grid, c: Color, from: Square, dirs: seq<(int, int)>)
    requires WellFormed(g)
    requires forall i :: 0 <= i < |dirs| ==> IsUnit(dirs[i])
    ensures forall t :: t in Rays(g, c, from, dirs) <==>
      exists i :: 0 <= i < |dirs| && t in Ray(g, c, Offset(from, dirs[i]), dirs[i])
    decreases |dirs|
  {
    if dirs != [] {
      var init := dirs[..|dirs| - 1];
      RaysSpec(g, c, from, init);
      forall t ensures t in Rays(g, c, from, dirs) <==>
        exists i :: 0 <= i < |dirs| && t in Ray(g, c, Offset(from, dirs[i]), dirs[i])
      {
        if i :| 0 <= i < |dirs| && t in Ray(g, c, Offset(from, dirs[i]), dirs[i]) {
          if i < |dirs| - 1 {
            assert init[i] == dirs[i];
          }
        }
        if exists i :: 0 <= i < |init| && t in Ray(g, c, Offset(from, init[i]), init[i]) {
          var i :| 0 <= i < |init| && t in Ray(g, c, Offset(from, init[i]), init[i]);
          assert dirs[i] == init[i];
        }
      }
    }
  }

  /** How many squares a walk from `sq` in direction `d` visits before leaving the board. */
  function EdgeDistance(sq: Square, d: (int, int)): nat
    requires IsUnit(d)
    decreases Budget(sq, d)
  {
    if !InBounds(sq) then 0 else 1 + EdgeDistance(Offset(sq, d), d)
  }

  /** The edge distance along one axis: squares from `x` to the edge, counting `x`, that a
      walk heading `dx` can visit; a still axis never stops the walk, so it allows all eight. */
  function AxisReach(x: int, dx: int): int
  {
    if dx == 1 then BoardSize - x else if dx == -1 then x + 1 else BoardSize
  }

  /** The walk reaches the nearer of the two edges it heads for. */
  lemma {:induction false} EdgeDistanceToNearerEdge(sq: Square, d: (int, int))
    requires IsUnit(d) && InBounds(sq)
    ensures var a, b := AxisReach(sq.0, d.0), AxisReach(sq.1, d.1);
      EdgeDistance(sq, d) == if a < b then a else b
    decreases Budget(sq, d)
  {
    var next := Offset(sq, d);
    if InBounds(next) {
      EdgeDistanceToNearerEdge(next, d);
    }
  }

  /** `sq` lies strictly beyond `from` in direction `d`. */
  predicate Beyond(from: Square, sq: Square, d: (int, int))
  {
    (d.0 == 1 ==> sq.0 > from.0) && (d.0 == -1 ==> sq.0 < from.0) && (d.0 == 0 ==> sq.0 == from.0) &&
    (d.1 == 1 ==> sq.1 > from.1) && (d.1 == -1 ==> sq.1 < from.1) && (d.1 == 0 ==> sq.1 == from.1)
  }

  /** On a board holding nothing but the mover, a ray runs to the edge of the board. */
  lemma {:induction false} RayOnEmptyBoard(g: Grid, c: Color, from: Square, sq: Square, d: (int, int))
    requires WellFormed(g) && IsUnit(d)
    requires forall t :: InBounds(t) && t != from ==> IsEmpty(g, t)
    requires Beyond(from, sq, d)
    ensures |Ray(g, c, sq, d)| == EdgeDistance(sq, d)
    decreases Budget(sq, d)
  {
    if InBounds(sq) {
      assert sq != from;
      RayOnEmptyBoard(g, c, from, Offset(sq, d), d);
    }
  }

  // ---------------------------------------------------------------- pawns

  /** The forward step onto an empty square, followed from the start rank by the
      double step when that square is empty too. */
  function PawnAdvance(g: Grid, c: Color, from: Square): (moves: seq<Square>)
    requires WellFormed(g) && InBounds(from)
    ensures |moves| <= 2
    ensures forall t :: t in moves ==> InBounds(t) && IsEmpty(g, t)
  {
    var dir := PawnDirection(c);
    var one := (from.0, from.1 + dir);
    if InBounds(one) && IsEmpty(g, one) then
      var two := (from.0, from.1 + 2 * dir);
      if from.1 == PawnStartRank(c) && IsEmpty(g, two) then [one, two] else [one]
    else []
  }

  /** The diagonal square `df` files aside, if it holds an enemy. */
  function PawnCapture(g: Grid, c: Color, from: Square, df: int): seq<Square>
    requires WellFormed(g)
  {
    var t := (from.0 + df, from.1 + PawnDirection(c));
    if InBounds(t) && At(g, t).Some? && !IsFriendly(g, c, t) then [t] else []
  }

  function PawnCaptures(g: Grid, c: Color, from: Square, dfs: seq<int>): (moves: seq<Square>)
    requires WellFormed(g)
    ensures |moves| <= |dfs|
    ensures forall t :: t in moves ==> InBounds(t) && IsEnemy(g, c, t)
    decreases |dfs|
  {
    if dfs == [] then []
    else PawnCaptures(g, c, from, dfs[..|dfs| - 1]) + PawnCapture(g, c, from, dfs[|dfs| - 1])
  }

  /** The capture files, left then right. */
  const PawnCaptureFiles: seq<int> := [-1, 1]

  function PawnMoves(g: Grid, c: Color, from: Square): (moves: seq<Square>)
    requires WellFormed(g) && InBounds(from)
    ensures |moves| <= 4
    ensures forall t :: t in moves ==> InBounds(t) && !IsFriendly(g, c, t)
  {
    PawnAdvance(g, c, from) + PawnCaptures(g, c, from, PawnCaptureFiles)
  }

  /**
   * The pawn rule: one square forward onto an empty square; two squares forward
   * only from the start rank and only when both squares are empty; one square
   * diagonally forward only onto an enemy piece.
   */
  ghost predicate PawnTarget(g: Grid, c: Color, from: Square, t: Square)
    requires WellFormed(g) && InBounds(from)
  {
    var dir := PawnDirection(c);
    var one := (from.0, from.1 + dir);
    InBounds(t) &&
    ((t == one && IsEmpty(g, t)) ||
     (from.1 == PawnStartRank(c) && t == (from.0, from.1 + 2 * dir) && IsEmpty(g, one) && IsEmpty(g, t)) ||
     ((t == (from.0 - 1, from.1 + dir) || t == (from.0 + 1, from.1 + dir)) && IsEnemy(g, c, t)))
  }

  lemma PawnMovesSpec(g: Grid, c: Color, from: Square)
    requires WellFormed(g) && InBounds(from)
    ensures forall t :: t in PawnMoves(g, c, from) <==> PawnTarget(g, c, from, t)
    ensures from.1 == PawnStartRank(c) ==> InBounds((from.0, from.1 + 2 * PawnDirection(c)))
  {
    assert PawnMoves(g, c, from) ==
      PawnAdvance(g, c, from) + PawnCapture(g, c, from, -1) + PawnCapture(g, c, from, 1)
    by {
      PawnCaptureBoth(g, c, from);
    }
  }

  /** The captures are looked for to the left, then to the right. */
  lemma PawnCaptureBoth(g: Grid, c: Color, from: Square)
    requires WellFormed(g)
    ensures PawnCaptures(g, c, from, PawnCaptureFiles) ==
      PawnCapture(g, c, from, -1) + PawnCapture(g, c, from, 1)
  {
    assert PawnCaptureFiles[..1] == [-1] && [-1][..0] == [];
  }

  // ---------------------------------------------------------------- dispatch

  /** The pseudo-legal candidates of the piece on `sq`; none for an empty square. */
  function Moves(g: Grid, sq: Square): (moves: seq<Square>)
    requires WellFormed(g) && InBounds(sq)
    ensures IsEmpty(g, sq) ==> moves == []
  {
    match At(g, sq)
    case None => []
    case Some(p) =>
      match p.kind
      case Pawn => PawnMoves(g, p.color, sq)
      case Knight => Steps(g, p.color, sq, KnightOffsets)
      case King => Steps(g, p.color, sq, KingOffsets)
      case _ => Rays(g, p.color, sq, SliderDirections(p.kind))
  }

  /** No candidate is off the board or holds a piece of the mover's colour; in
      particular the source square itself is never a candidate. */
  lemma MovesSafe(g: Grid, sq: Square)
    requires WellFormed(g) && InBounds(sq)
    ensures forall t :: t in Moves(g, sq) ==> InBounds(t) && !IsFriendly(g, At(g, sq).value.color, t)
    ensures sq !in Moves(g, sq)
  {
    match At(g, sq)
    case None =>
    case Some(p) =>
      var c := p.color;
      match p.kind {
        case Pawn =>
          PawnMovesSpec(g, c, sq);
        case Knight =>
          StepsSpec(g, c, sq, KnightOffsets);
        case King =>
          StepsSpec(g, c, sq, KingOffsets);
        case _ =>
          var dirs := SliderDirections(p.kind);
          RaysSpec(g, c, sq, dirs);
      }
      assert IsFriendly(g, c, sq);
  }

  /** A pawn's candidates obey the pawn rule: the forward step, the double step from the
      start rank and the diagonal captures of enemy pieces, and nothing else. */
  lemma PawnRuleSpec(g: Grid, c: Color, sq: Square)
    requires WellFormed(g) && InBounds(sq) && At(g, sq) == Some(Piece(c, Pawn))
    ensures forall t :: t in Moves(g, sq) <==> PawnTarget(g, c, sq, t)
  {
    PawnMovesSpec(g, c, sq);
  }

  /** Knight and king candidates are drawn from their eight fixed offsets, at most one each. */
  lemma SteppingMovesSpec(g: Grid, sq: Square)
    requires WellFormed(g) && InBounds(sq) && At(g, sq).Some?
    requires At(g, sq).value.kind in {Knight, King}
    ensures var p := At(g, sq).value;
      var offsets := if p.kind == Knight then KnightOffsets else KingOffsets;
      |Moves(g, sq)| <= 8 && NoRepeats(Moves(g, sq)) &&
      forall t :: t in Moves(g, sq) <==>
        (InBounds(t) && !IsFriendly(g, p.color, t) &&
         exists i :: 0 <= i < |offsets| && t == Offset(sq, offsets[i]))
  {
    var p := At(g, sq).value;
    var offsets := if p.kind == Knight then KnightOffsets else KingOffsets;
    assert NoRepeats(offsets);
    StepsSpec(g, p.color, sq, offsets);
    StepsDistinct(g, p.color, sq, offsets);
  }

  /** A sliding piece's candidates are exactly the squares of its rays. */
  lemma SlidingMovesSpec(g: Grid, sq: Square)
    requires WellFormed(g) && InBounds(sq) && At(g, sq).Some?
    requires At(g, sq).value.kind in {Rook, Bishop, Queen}
    ensures var p := At(g, sq).value;
      var dirs := SliderDirections(p.kind);
      forall t :: t in Moves(g, sq) <==>
        exists i :: 0 <= i < |dirs| && t in Ray(g, p.color, Offset(sq, dirs[i]), dirs[i])
  {
    var p := At(g, sq).value;
    RaysSpec(g, p.color, sq, SliderDirections(p.kind));
  }

  // ---------------------------------------------------------------- concrete positions

  /** On a board holding nothing but the mover, each ray has as many candidates as
      there are squares between the mover and the edge it heads for. */
  lemma LoneRayLength(g: Grid, c: Color, from: Square, d: (int, int))
    requires WellFormed(g) && IsUnit(d) && InBounds(from)
    requires forall t :: InBounds(t) && t != from ==> IsEmpty(g, t)
    ensures var a, b := AxisReach(from.0, d.0) - 1, AxisReach(from.1, d.1) - 1;
      |Ray(g, c, Offset(from, d), d)| == if a < b then a else b
  {
    var sq := Offset(from, d);
    RayOnEmptyBoard(g, c, from, sq, d);
    if InBounds(sq) {
      EdgeDistanceToNearerEdge(sq, d);
    }
  }

  /** Four rays, in order. */
  lemma RaysOfFour(g: Grid, c: Color, from: Square, dirs: seq<(int, int)>)
    requires WellFormed(g) && |dirs| == 4
    requires forall i :: 0 <= i < |dirs| ==> IsUnit(dirs[i])
    ensures Rays(g, c, from, dirs) ==
      Ray(g, c, Offset(from, dirs[0]), dirs[0]) + Ray(g, c, Offset(from, dirs[1]), dirs[1]) +
      Ray(g, c, Offset(from, dirs[2]), dirs[2]) + Ray(g, c, Offset(from, dirs[3]), dirs[3])
  {
    var r := seq(4, i requires 0 <= i < 4 => Ray(g, c, Offset(from, dirs[i]), dirs[i]));
    assert dirs[..1][..0] == [];
    assert Rays(g, c, from, dirs[..1]) == r[0];
    assert dirs[..2][..1] == dirs[..1];
    assert Rays(g, c, from, dirs[..2]) == r[0] + r[1];
    assert dirs[..3][..2] == dirs[..2];
    assert Rays(g, c, from, dirs[..3]) == r[0] + r[1] + r[2];
    assert dirs[..4][..3] == dirs[..3] && dirs[..4] == dirs;
  }

  /** A lone piece's four orthogonal rays run to the four edges. */
  lemma LoneOrthogonalRays(g: Grid, c: Color, from: Square)
    requires WellFormed(g) && InBounds(from)
    requires forall t :: InBounds(t) && t != from ==> IsEmpty(g, t)
    ensures |Ray(g, c, Offset(from, (1, 0)), (1, 0))| == 7 - from.0
    ensures |Ray(g, c, Offset(from, (-1, 0)), (-1, 0))| == from.0
    ensures |Ray(g, c, Offset(from, (0, 1)), (0, 1))| == 7 - from.1
    ensures |Ray(g, c, Offset(from, (0, -1)), (0, -1))| == from.1
  {
    LoneRayLength(g, c, from, (1, 0));
    LoneRayLength(g, c, from, (-1, 0));
    LoneRayLength(g, c, from, (0, 1));
    LoneRayLength(g, c, from, (0, -1));
  }

  /** A rook alone on the board has fourteen candidates wherever it stands: seven
      along its file and seven along its rank. In the corner a1 they run up the file
      and along the rank. */
  lemma LoneRook(g: Grid, c: Color, from: Square)
    requires WellFormed(g) && InBounds(from) && At(g, from) == Some(Piece(c, Rook))
    requires forall t :: InBounds(t) && t != from ==> IsEmpty(g, t)
    ensures |Moves(g, from)| == 14
  {
    assert Moves(g, from) == Rays(g, c, from, RookDirections) by {
      assert SliderDirections(Rook) == RookDirections;
    }
    assert |Rays(g, c, from, RookDirections)| == 14 by {
      LoneOrthogonalRays(g, c, from);
      RaysOfFour(g, c, from, RookDirections);
    }
  }

  /** A pawn on its start rank with both squares ahead empty and no enemy on either
      diagonal square ahead is offered the single and then the double step, nothing else. */
  lemma OpenStartingPawn(g: Grid, c: Color, from: Square)
    requires WellFormed(g) && InBounds(from) && At(g, from) == Some(Piece(c, Pawn))
    requires from.1 == PawnStartRank(c)
    requires IsEmpty(g, (from.0, from.1 + PawnDirection(c)))
    requires IsEmpty(g, (from.0, from.1 + 2 * PawnDirection(c)))
    requires var t := (from.0 - 1, from.1 + PawnDirection(c)); !InBounds(t) || !IsEnemy(g, c, t)
    requires var t := (from.0 + 1, from.1 + PawnDirection(c)); !InBounds(t) || !IsEnemy(g, c, t)
    ensures Moves(g, from) == [(from.0, from.1 + PawnDirection(c)), (from.0, from.1 + 2 * PawnDirection(c))]
  {
    PawnCaptureBoth(g, c, from);
  }

  /** From the starting position every pawn may advance one or two squares and capture nothing. */
  lemma StartingPawnMoves(f: int)
    requires 0 <= f < BoardSize
    ensures Moves(StartGrid(), (f, 1)) == [(f, 2), (f, 3)]
    ensures Moves(StartGrid(), (f, 6)) == [(f, 5), (f, 4)]
  {
    var g := StartGrid();
    OpenStartingPawn(g, White, (f, 1));
    OpenStartingPawn(g, Black, (f, 6));
  }
}
