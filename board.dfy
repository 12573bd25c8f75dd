/** The pawns-only position and its move generator, on values.

    A position is two sets of occupied cells, one per colour, plus the side to
    move. Cells are (row, col) pairs of the 10x10 padded array the engine
    uses: rows and columns 1..8 are the playable board, row 1 is rank 8 and
    row 8 is rank 1; white moves towards row 1 and black towards row 8.
    A move is represented, as in the engine, by the (white, black) pair of
    grids after it. */
module Board {
  import opened Common

  type Cell = (int, int)
  type Grid = set<Cell>
  type Move = (Grid, Grid)

  datatype Position = Position(white: Grid, black: Grid, whiteTurn: bool)

  /** Row-major enumeration of the 10x10 array: index k is cell (k / 10, k % 10). */
  function CellAt(k: int): Cell {
    (k / 10, k % 10)
  }

  function IndexOf(x: Cell): int {
    10 * x.0 + x.1
  }

  predicate InWindow(x: Cell) {
    0 <= x.0 < 10 && 0 <= x.1 < 10
  }

  predicate InInterior(x: Cell) {
    1 <= x.0 <= 8 && 1 <= x.1 <= 8
  }

  predicate WindowGrid(g: Grid) {
    forall x :: x in g ==> InWindow(x)
  }

  predicate InteriorGrid(g: Grid) {
    forall x :: x in g ==> InInterior(x)
  }

  predicate WindowPos(p: Position) {
    WindowGrid(p.white) && WindowGrid(p.black)
  }

  /** Every pawn on the playable 8x8 board; the padding is empty. */
  predicate InteriorPos(p: Position) {
    InteriorGrid(p.white) && InteriorGrid(p.black)
  }

  lemma CellIndex(x: Cell)
    requires InWindow(x)
    ensures 0 <= IndexOf(x) < 100 && CellAt(IndexOf(x)) == x
  {
  }

  lemma IndexCell(k: int)
    requires 0 <= k < 100
    ensures InWindow(CellAt(k)) && IndexOf(CellAt(k)) == k
  {
  }

  /** Neither colour occupies `x`. */
  predicate Free(w: Grid, b: Grid, x: Cell) {
    x !in w && x !in b
  }

  /** One tag per generator loop of the engine, in the order the loops run. */
  datatype Gen = WhitePush | WhiteLeft | WhiteRight | BlackPush | BlackLeft | BlackRight

  /** The moves the loop `g` contributes at cell `x`: for a push loop `x` is
      the pawn that moves, for a capture loop it is the captured pawn's cell. */
  function GenAt(g: Gen, w: Grid, b: Grid, x: Cell): seq<Move> {
    var r := x.0;
    var c := x.1;
    match g
    case WhitePush =>
      if x in w && Free(w, b, (r - 1, c)) then
        [(w - {x} + {(r - 1, c)}, b)] +
        (if r == 7 && Free(w, b, (r - 2, c)) then [(w - {x} + {(r - 2, c)}, b)] else [])
      else []
    case WhiteLeft =>
      if x in b && (r + 1, c + 1) in w then [(w + {x} - {(r + 1, c + 1)}, b - {x})] else []
    case WhiteRight =>
      if x in b && (r + 1, c - 1) in w then [(w + {x} - {(r + 1, c - 1)}, b - {x})] else []
    case BlackPush =>
      // the double step also clears the white grid at the origin, as the engine does
      if x in b && Free(w, b, (r + 1, c)) then
        [(w, b - {x} + {(r + 1, c)})] +
        (if r == 2 && Free(w, b, (r + 2, c)) then [(w - {x}, b - {x} + {(r + 2, c)})] else [])
      else []
    case BlackLeft =>
      if x in w && (r - 1, c + 1) in b then [(w - {x}, b + {x} - {(r - 1, c + 1)})] else []
    case BlackRight =>
      if x in w && (r - 1, c - 1) in b then [(w - {x}, b + {x} - {(r - 1, c - 1)})] else []
  }

  /** The moves loop `g` produces from the first `n` cells in row-major order. */
  function Collect(g: Gen, w: Grid, b: Grid, n: nat): seq<Move>
    decreases n
  {
    if n == 0 then [] else Collect(g, w, b, n - 1) + GenAt(g, w, b, CellAt(n - 1))
  }

  function WhiteMoves(w: Grid, b: Grid): seq<Move> {
    Collect(WhitePush, w, b, 100) + Collect(WhiteLeft, w, b, 100) + Collect(WhiteRight, w, b, 100)
  }

  function BlackMoves(w: Grid, b: Grid): seq<Move> {
    Collect(BlackPush, w, b, 100) + Collect(BlackLeft, w, b, 100) + Collect(BlackRight, w, b, 100)
  }

  /** `moves`: the side to move's list. */
  function LegalMoves(p: Position): seq<Move> {
    if p.whiteTurn then WhiteMoves(p.white, p.black) else BlackMoves(p.white, p.black)
  }

  /** `opp_moves`: the other side's list. */
  function OppMoves(p: Position): seq<Move> {
    if p.whiteTurn then BlackMoves(p.white, p.black) else WhiteMoves(p.white, p.black)
  }

  /** `is_checkmate`: (game over, white won). */
  function IsCheckmate(p: Position): (bool, bool) {
    if |LegalMoves(p)| == 0 then (true, !p.whiteTurn)
    else if exists c :: 0 <= c < 10 && (1, c) in p.white then (true, true)
    else if exists c :: 0 <= c < 10 && (8, c) in p.black then (true, false)
    else (false, false)
  }

  /** The position a move leads to: the pair becomes the grids and the turn flips. */
  function Successor(p: Position, m: Move): Position {
    Position(m.0, m.1, !p.whiteTurn)
  }

  function Successors(p: Position): (s: seq<Position>)
    ensures |s| == |LegalMoves(p)|
    ensures forall i :: 0 <= i < |s| ==> s[i] == Successor(p, LegalMoves(p)[i])
  {
    var ms := LegalMoves(p);
    seq(|ms|, i requires 0 <= i < |ms| => Successor(p, ms[i]))
  }

  predicate NoDup<T(==)>(s: seq<T>) {
    forall i, j :: 0 <= i < j < |s| ==> s[i] != s[j]
  }

  /** First occurrences, in order. */
  function Dedup<T(==, !new)>(s: seq<T>): (d: seq<T>)
    ensures forall x :: x in d <==> x in s
    ensures NoDup(d)
    decreases |s|
  {
    if s == [] then []
    else
      var d := Dedup(s[..|s| - 1]);
      assert forall x :: x in s[..|s| - 1] ==> x in s;
      assert forall x :: x in s ==> x in s[..|s| - 1] || x == s[|s| - 1];
      if s[|s| - 1] in d then d else d + [s[|s| - 1]]
  }

  /** The distinct successor positions in generation order: the graph's children. */
  function Children(p: Position): seq<Position> {
    Dedup(Successors(p))
  }

  // ---------------------------------------------------------------------------
  // What the generator produces

  predicate WhitePushFrom(w: Grid, b: Grid, x: Cell, m: Move) {
    && x in w && m.1 == b && Free(w, b, (x.0 - 1, x.1))
    && (|| m.0 == w - {x} + {(x.0 - 1, x.1)}
        || (x.0 == 7 && Free(w, b, (x.0 - 2, x.1)) && m.0 == w - {x} + {(x.0 - 2, x.1)}))
  }

  /** White captures the black pawn on `t` with the pawn on (t.0 + 1, t.1 + d). */
  predicate WhiteCaptureTo(w: Grid, b: Grid, t: Cell, d: int, m: Move) {
    var f := (t.0 + 1, t.1 + d);
    t in b && f in w && m == (w + {t} - {f}, b - {t})
  }

  predicate BlackPushFrom(w: Grid, b: Grid, x: Cell, m: Move) {
    && x in b && Free(w, b, (x.0 + 1, x.1))
    && (|| m == (w, b - {x} + {(x.0 + 1, x.1)})
        || (x.0 == 2 && Free(w, b, (x.0 + 2, x.1)) && m == (w - {x}, b - {x} + {(x.0 + 2, x.1)})))
  }

  /** Black captures the white pawn on `t` with the pawn on (t.0 - 1, t.1 + d). */
  predicate BlackCaptureTo(w: Grid, b: Grid, t: Cell, d: int, m: Move) {
    var f := (t.0 - 1, t.1 + d);
    t in w && f in b && m == (w - {t}, b + {t} - {f})
  }

  predicate GenSpec(g: Gen, w: Grid, b: Grid, x: Cell, m: Move) {
    match g
    case WhitePush => WhitePushFrom(w, b, x, m)
    case WhiteLeft => WhiteCaptureTo(w, b, x, 1, m)
    case WhiteRight => WhiteCaptureTo(w, b, x, -1, m)
    case BlackPush => BlackPushFrom(w, b, x, m)
    case BlackLeft => BlackCaptureTo(w, b, x, 1, m)
    case BlackRight => BlackCaptureTo(w, b, x, -1, m)
  }

  lemma GenAtIff(g: Gen, w: Grid, b: Grid, x: Cell, m: Move)
    ensures m in GenAt(g, w, b, x) <==> GenSpec(g, w, b, x, m)
  {
  }

  lemma {:induction false} CollectMember(g: Gen, w: Grid, b: Grid, n: nat, m: Move)
    ensures m in Collect(g, w, b, n) <==> exists k :: 0 <= k < n && m in GenAt(g, w, b, CellAt(k))
    decreases n
  {
    if n > 0 {
      CollectMember(g, w, b, n - 1, m);
      if m in GenAt(g, w, b, CellAt(n - 1)) {
        assert m in Collect(g, w, b, n);
      }
    }
  }

  /** A loop's list holds exactly the moves its rule allows at some cell of the array. */
  lemma CollectExactly(g: Gen, w: Grid, b: Grid, m: Move)
    ensures m in Collect(g, w, b, 100) <==> exists x :: InWindow(x) && GenSpec(g, w, b, x, m)
  {
    CollectMember(g, w, b, 100, m);
    if m in Collect(g, w, b, 100) {
      var k :| 0 <= k < 100 && m in GenAt(g, w, b, CellAt(k));
      GenAtIff(g, w, b, CellAt(k), m);
      IndexCell(k);
    }
    if exists x :: InWindow(x) && GenSpec(g, w, b, x, m) {
      var x :| InWindow(x) && GenSpec(g, w, b, x, m);
      GenAtIff(g, w, b, x, m);
      CellIndex(x);
      assert m in GenAt(g, w, b, CellAt(IndexOf(x)));
    }
  }

  /** White's list: a push or double push into empty cells, or a diagonal
      capture of a black pawn, and nothing else. */
  lemma WhiteMovesExactly(w: Grid, b: Grid, m: Move)
    ensures m in WhiteMoves(w, b) <==>
              exists x :: InWindow(x) &&
                (WhitePushFrom(w, b, x, m) || WhiteCaptureTo(w, b, x, 1, m) || WhiteCaptureTo(w, b, x, -1, m))
  {
    CollectExactly(WhitePush, w, b, m);
    CollectExactly(WhiteLeft, w, b, m);
    CollectExactly(WhiteRight, w, b, m);
  }

  lemma BlackMovesExactly(w: Grid, b: Grid, m: Move)
    ensures m in BlackMoves(w, b) <==>
              exists x :: InWindow(x) &&
                (BlackPushFrom(w, b, x, m) || BlackCaptureTo(w, b, x, 1, m) || BlackCaptureTo(w, b, x, -1, m))
  {
    CollectExactly(BlackPush, w, b, m);
    CollectExactly(BlackLeft, w, b, m);
    CollectExactly(BlackRight, w, b, m);
  }

  // ---------------------------------------------------------------------------
  // Material and disjointness

  /** What one rule does to the pawn counts, for grids with no shared cell:
      the mover keeps its count, a push keeps the opponent's grid, a capture
      removes exactly one opposing pawn, and no cell becomes doubly occupied. */
  predicate MaterialOk(g: Gen, w: Grid, b: Grid, m: Move) {
    && m.0 !! m.1
    && (g.WhitePush? || g.WhiteLeft? || g.WhiteRight? ==> |m.0| == |w|)
    && (g.BlackPush? || g.BlackLeft? || g.BlackRight? ==> |m.1| == |b|)
    && (g.WhitePush? ==> m.1 == b)
    && (g.BlackPush? ==> m.0 == w)
    && (g.WhiteLeft? || g.WhiteRight? ==> |m.1| == |b| - 1)
    && (g.BlackLeft? || g.BlackRight? ==> |m.0| == |w| - 1)
  }

  lemma WhitePushMaterial(w: Grid, b: Grid, x: Cell, m: Move)
    requires w !! b && WhitePushFrom(w, b, x, m)
    ensures m.0 !! m.1 && |m.0| == |w| && m.1 == b
  {
    var y := if m.0 == w - {x} + {(x.0 - 1, x.1)} then (x.0 - 1, x.1) else (x.0 - 2, x.1);
    assert m.0 == (w - {x}) + {y} && Free(w, b, y);
    assert |w - {x}| == |w| - 1;
  }

  lemma WhiteCaptureMaterial(w: Grid, b: Grid, t: Cell, d: int, m: Move)
    requires w !! b && WhiteCaptureTo(w, b, t, d, m)
    ensures m.0 !! m.1 && |m.0| == |w| && |m.1| == |b| - 1
  {
    var f := (t.0 + 1, t.1 + d);
    assert m.0 == (w - {f}) + {t} && t !in w - {f};
    assert |w - {f}| == |w| - 1;
  }

  lemma BlackPushMaterial(w: Grid, b: Grid, x: Cell, m: Move)
    requires w !! b && BlackPushFrom(w, b, x, m)
    ensures m.0 !! m.1 && |m.1| == |b| && m.0 == w
  {
    var y := if m == (w, b - {x} + {(x.0 + 1, x.1)}) then (x.0 + 1, x.1) else (x.0 + 2, x.1);
    assert m.1 == (b - {x}) + {y} && Free(w, b, y);
    assert w - {x} == w;
    assert |b - {x}| == |b| - 1;
  }

  lemma BlackCaptureMaterial(w: Grid, b: Grid, t: Cell, d: int, m: Move)
    requires w !! b && BlackCaptureTo(w, b, t, d, m)
    ensures m.0 !! m.1 && |m.1| == |b| && |m.0| == |w| - 1
  {
    var f := (t.0 - 1, t.1 + d);
    assert m.1 == (b - {f}) + {t} && t !in b - {f};
    assert |b - {f}| == |b| - 1;
  }

  lemma GenMaterial(g: Gen, w: Grid, b: Grid, x: Cell, m: Move)
    requires w !! b
    requires m in GenAt(g, w, b, x)
    ensures MaterialOk(g, w, b, m)
  {
    GenAtIff(g, w, b, x, m);
    match g
    case WhitePush => WhitePushMaterial(w, b, x, m);
    case WhiteLeft => WhiteCaptureMaterial(w, b, x, 1, m);
    case WhiteRight => WhiteCaptureMaterial(w, b, x, -1, m);
    case BlackPush => BlackPushMaterial(w, b, x, m);
    case BlackLeft => BlackCaptureMaterial(w, b, x, 1, m);
    case BlackRight => BlackCaptureMaterial(w, b, x, -1, m);
  }

  lemma CollectMaterial(g: Gen, w: Grid, b: Grid, m: Move)
    requires w !! b
    requires m in Collect(g, w, b, 100)
    ensures MaterialOk(g, w, b, m)
  {
    CollectMember(g, w, b, 100, m);
    var k :| 0 <= k < 100 && m in GenAt(g, w, b, CellAt(k));
    GenMaterial(g, w, b, CellAt(k), m);
  }

  /** Pawn counts across any legal move from a position with no doubly
      occupied cell: the mover keeps all its pawns, the opponent loses at most
      one, and the successor has no doubly occupied cell either. */
  lemma MoveMaterial(p: Position, m: Move)
    requires p.white !! p.black
    requires m in LegalMoves(p)
    ensures m.0 !! m.1
    ensures p.whiteTurn ==> |m.0| == |p.white| && |p.black| - 1 <= |m.1| <= |p.black|
    ensures !p.whiteTurn ==> |m.1| == |p.black| && |p.white| - 1 <= |m.0| <= |p.white|
  {
    var w, b := p.white, p.black;
    if p.whiteTurn {
      if m in Collect(WhitePush, w, b, 100) {
        CollectMaterial(WhitePush, w, b, m);
      } else if m in Collect(WhiteLeft, w, b, 100) {
        CollectMaterial(WhiteLeft, w, b, m);
      } else {
        CollectMaterial(WhiteRight, w, b, m);
      }
    } else {
      if m in Collect(BlackPush, w, b, 100) {
        CollectMaterial(BlackPush, w, b, m);
      } else if m in Collect(BlackLeft, w, b, 100) {
        CollectMaterial(BlackLeft, w, b, m);
      } else {
        CollectMaterial(BlackRight, w, b, m);
      }
    }
  }
  // ---------------------------------------------------------------------------
  // The start position

  const StartWhite: Grid := set c | 1 <= c <= 8 :: (7, c)
  const StartBlack: Grid := set c | 1 <= c <= 8 :: (2, c)
  const Start: Position := Position(StartWhite, StartBlack, true)

  lemma StartMember(x: Cell)
    ensures x in StartWhite <==> x.0 == 7 && 1 <= x.1 <= 8
    ensures x in StartBlack <==> x.0 == 2 && 1 <= x.1 <= 8
  {
    if x.0 == 7 && 1 <= x.1 <= 8 {
      assert x == (7, x.1);
    }
    if x.0 == 2 && 1 <= x.1 <= 8 {
      assert x == (2, x.1);
    }
  }

  function StartPushCount(n: int): int {
    if n <= 71 then 0 else if n <= 79 then 2 * (n - 71) else 16
  }

  lemma {:induction false} StartPushes(n: nat)
    requires n <= 100
    ensures |Collect(WhitePush, StartWhite, StartBlack, n)| == StartPushCount(n)
    ensures forall m :: m in Collect(WhitePush, StartWhite, StartBlack, n) ==> m.1 == StartBlack
    decreases n
  {
    if n > 0 {
      StartPushes(n - 1);
      var x := CellAt(n - 1);
      StartMember(x);
      StartMember((x.0 - 1, x.1));
      StartMember((x.0 - 2, x.1));
      if 71 <= n - 1 <= 78 {
        assert |GenAt(WhitePush, StartWhite, StartBlack, x)| == 2;
      } else {
        assert GenAt(WhitePush, StartWhite, StartBlack, x) == [];
      }
    }
  }

  lemma {:induction false} StartNoCaptures(g: Gen, n: nat)
    requires g == WhiteLeft || g == WhiteRight
    ensures Collect(g, StartWhite, StartBlack, n) == []
    decreases n
  {
    if n > 0 {
      StartNoCaptures(g, n - 1);
      var x := CellAt(n - 1);
      StartMember(x);
      StartMember((x.0 + 1, x.1 + 1));
      StartMember((x.0 + 1, x.1 - 1));
    }
  }

  /** From the start position white has exactly 16 moves (8 single and
      8 double pushes) and none of them captures. */
  lemma StartPositionMoves()
    ensures |LegalMoves(Start)| == 16
    ensures forall m :: m in LegalMoves(Start) ==> m.1 == StartBlack
  {
    StartPushes(100);
    StartNoCaptures(WhiteLeft, 100);
    StartNoCaptures(WhiteRight, 100);
    OnlyPushes(StartWhite, StartBlack);
  }

  lemma OnlyPushes(w: Grid, b: Grid)
    requires Collect(WhiteLeft, w, b, 100) == [] && Collect(WhiteRight, w, b, 100) == []
    ensures LegalMoves(Position(w, b, true)) == Collect(WhitePush, w, b, 100)
  {
  }

  // ---------------------------------------------------------------------------
  // Termination measure: white pawns are worth their row, black pawns 9 - row.
  // Every move lowers the sum, so every line of play is finite.

  function Weight(w: Grid, b: Grid, k: int): nat
    requires 0 <= k < 100
  {
    var x := CellAt(k);
    (if x in w then x.0 else 0) + (if x in b then 9 - x.0 else 0)
  }

  function PotentialUpTo(w: Grid, b: Grid, n: nat): nat
    requires n <= 100
    decreases n
  {
    if n == 0 then 0 else PotentialUpTo(w, b, n - 1) + Weight(w, b, n - 1)
  }

  function Potential(p: Position): nat {
    PotentialUpTo(p.white, p.black, 100)
  }

  function PotentialOfMove(m: Move): nat {
    PotentialUpTo(m.0, m.1, 100)
  }

  /** Two grid pairs that weigh the same everywhere except at cells i and j. */
  lemma {:induction false} PotentialTwoPoints(w: Grid, b: Grid, w': Grid, b': Grid, i: int, j: int, n: nat)
    requires 0 <= i < 100 && 0 <= j < 100 && i != j && n <= 100
    requires forall k :: 0 <= k < 100 && k != i && k != j ==> Weight(w, b, k) == Weight(w', b', k)
    ensures PotentialUpTo(w', b', n) ==
              PotentialUpTo(w, b, n)
              + (if i < n then Weight(w', b', i) - Weight(w, b, i) else 0)
              + (if j < n then Weight(w', b', j) - Weight(w, b, j) else 0)
    decreases n
  {
    if n > 0 {
      PotentialTwoPoints(w, b, w', b', i, j, n - 1);
    }
  }

  /** Moving from `x` to `y` changes the weight only at those two cells. */
  lemma TwoCellChange(w: Grid, b: Grid, w': Grid, b': Grid, x: Cell, y: Cell)
    requires InWindow(x) && InWindow(y) && x != y
    requires forall z :: z != x && z != y ==> (z in w <==> z in w') && (z in b <==> z in b')
    ensures PotentialUpTo(w', b', 100) ==
              PotentialUpTo(w, b, 100)
              + Weight(w', b', IndexOf(x)) - Weight(w, b, IndexOf(x))
              + Weight(w', b', IndexOf(y)) - Weight(w, b, IndexOf(y))
  {
    CellIndex(x);
    CellIndex(y);
    forall k | 0 <= k < 100 && k != IndexOf(x) && k != IndexOf(y)
      ensures Weight(w, b, k) == Weight(w', b', k)
    {
      IndexCell(k);
    }
    PotentialTwoPoints(w, b, w', b', IndexOf(x), IndexOf(y), 100);
  }

  lemma GenLowersPotential(g: Gen, w: Grid, b: Grid, x: Cell, m: Move)
    requires InteriorGrid(w) && InteriorGrid(b) && InWindow(x)
    requires m in GenAt(g, w, b, x)
    ensures PotentialOfMove(m) < PotentialUpTo(w, b, 100)
  {
    if g.WhitePush? || g.WhiteLeft? || g.WhiteRight? {
      WhiteGenLowersPotential(g, w, b, x, m);
    } else {
      BlackGenLowersPotential(g, w, b, x, m);
    }
  }

  lemma WhiteGenLowersPotential(g: Gen, w: Grid, b: Grid, x: Cell, m: Move)
    requires InteriorGrid(w) && InteriorGrid(b) && InWindow(x)
    requires g.WhitePush? || g.WhiteLeft? || g.WhiteRight?
    requires m in GenAt(g, w, b, x)
    ensures PotentialOfMove(m) < PotentialUpTo(w, b, 100)
  {
    GenAtIff(g, w, b, x, m);
    CellIndex(x);
    var r := x.0;
    var c := x.1;
    match g
    case WhitePush =>
      var y := if m.0 == w - {x} + {(r - 1, c)} then (r - 1, c) else (r - 2, c);
      assert m.0 == w - {x} + {y} && Free(w, b, y) && m.1 == b;
      CellIndex(y);
      TwoCellChange(w, b, m.0, m.1, x, y);
    case WhiteLeft =>
      var f := (r + 1, c + 1);
      assert f in w;
      CellIndex(f);
      TwoCellChange(w, b, m.0, m.1, f, x);
    case WhiteRight =>
      var f := (r + 1, c - 1);
      assert f in w;
      CellIndex(f);
      TwoCellChange(w, b, m.0, m.1, f, x);
  }

  lemma BlackGenLowersPotential(g: Gen, w: Grid, b: Grid, x: Cell, m: Move)
    requires InteriorGrid(w) && InteriorGrid(b) && InWindow(x)
    requires g.BlackPush? || g.BlackLeft? || g.BlackRight?
    requires m in GenAt(g, w, b, x)
    ensures PotentialOfMove(m) < PotentialUpTo(w, b, 100)
  {
    GenAtIff(g, w, b, x, m);
    CellIndex(x);
    var r := x.0;
    var c := x.1;
    match g
    case BlackPush =>
      var y := if m == (w, b - {x} + {(r + 1, c)}) then (r + 1, c) else (r + 2, c);
      assert m.1 == b - {x} + {y} && Free(w, b, y);
      CellIndex(y);
      TwoCellChange(w, b, m.0, m.1, x, y);
    case BlackLeft =>
      var f := (r - 1, c + 1);
      assert f in b;
      CellIndex(f);
      TwoCellChange(w, b, m.0, m.1, f, x);
    case BlackRight =>
      var f := (r - 1, c - 1);
      assert f in b;
      CellIndex(f);
      TwoCellChange(w, b, m.0, m.1, f, x);
  }

  lemma CollectLowersPotential(g: Gen, w: Grid, b: Grid, m: Move)
    requires InteriorGrid(w) && InteriorGrid(b)
    requires m in Collect(g, w, b, 100)
    ensures PotentialOfMove(m) < PotentialUpTo(w, b, 100)
  {
    CollectMember(g, w, b, 100, m);
    var k :| 0 <= k < 100 && m in GenAt(g, w, b, CellAt(k));
    IndexCell(k);
    GenLowersPotential(g, w, b, CellAt(k), m);
  }

  /** Every legal move strictly lowers the potential. */
  lemma MoveLowersPotential(p: Position, m: Move)
    requires InteriorPos(p) && m in LegalMoves(p)
    ensures Potential(Successor(p, m)) < Potential(p)
  {
    if p.whiteTurn {
      if m in Collect(WhitePush, p.white, p.black, 100) {
        CollectLowersPotential(WhitePush, p.white, p.black, m);
      } else if m in Collect(WhiteLeft, p.white, p.black, 100) {
        CollectLowersPotential(WhiteLeft, p.white, p.black, m);
      } else {
        CollectLowersPotential(WhiteRight, p.white, p.black, m);
      }
    } else {
      if m in Collect(BlackPush, p.white, p.black, 100) {
        CollectLowersPotential(BlackPush, p.white, p.black, m);
      } else if m in Collect(BlackLeft, p.white, p.black, 100) {
        CollectLowersPotential(BlackLeft, p.white, p.black, m);
      } else {
        CollectLowersPotential(BlackRight, p.white, p.black, m);
      }
    }
  }

  // ---------------------------------------------------------------------------
  // Where successors lie

  /** No white pawn has reached row 1 and no black pawn row 8. */
  ghost predicate NoneArrived(p: Position) {
    && (forall c :: (1, c) !in p.white)
    && (forall c :: (8, c) !in p.black)
  }

  lemma NotOverArrived(p: Position)
    requires InteriorPos(p) && !IsCheckmate(p).0
    ensures NoneArrived(p)
  {
  }

  lemma GenStaysOnBoard(g: Gen, w: Grid, b: Grid, x: Cell, m: Move)
    requires InteriorGrid(w) && InteriorGrid(b)
    requires m in GenAt(g, w, b, x)
    ensures WindowGrid(m.0) && WindowGrid(m.1)
    ensures NoneArrived(Position(w, b, true)) ==> InteriorGrid(m.0) && InteriorGrid(m.1)
  {
    GenAtIff(g, w, b, x, m);
  }

  /** Successors of an interior position stay inside the padded array, and
      those of a position the game has not ended in stay on the 8x8 board. */
  lemma MoveStaysOnBoard(p: Position, m: Move)
    requires InteriorPos(p) && m in LegalMoves(p)
    ensures WindowPos(Successor(p, m))
    ensures !IsCheckmate(p).0 ==> InteriorPos(Successor(p, m))
  {
    var g, k := MoveSource(p, m);
    if !IsCheckmate(p).0 {
      NotOverArrived(p);
    }
    GenStaysOnBoard(g, p.white, p.black, CellAt(k), m);
  }

  /** A legal move comes from one of the side's loops at one cell. */
  lemma MoveSource(p: Position, m: Move) returns (g: Gen, k: nat)
    requires m in LegalMoves(p)
    ensures k < 100 && m in GenAt(g, p.white, p.black, CellAt(k))
  {
    var w, b := p.white, p.black;
    if p.whiteTurn {
      g := if m in Collect(WhitePush, w, b, 100) then WhitePush
           else if m in Collect(WhiteLeft, w, b, 100) then WhiteLeft else WhiteRight;
    } else {
      g := if m in Collect(BlackPush, w, b, 100) then BlackPush
           else if m in Collect(BlackLeft, w, b, 100) then BlackLeft else BlackRight;
    }
    assert m in Collect(g, w, b, 100);
    CollectMember(g, w, b, 100, m);
    var j :| 0 <= j < 100 && m in GenAt(g, w, b, CellAt(j));
    k := j;
  }

  /** Facts about the children of an interior position, used by the graph
      and the search: they lie in the array, have a lower potential, and stay
      on the board when the position is not terminal. */
  lemma ChildrenFacts(p: Position)
    requires InteriorPos(p)
    ensures forall c :: c in Children(p) ==> WindowPos(c) && Potential(c) < Potential(p)
    ensures !IsCheckmate(p).0 ==> forall c :: c in Children(p) ==> InteriorPos(c)
  {
    forall c | c in Children(p)
      ensures WindowPos(c) && Potential(c) < Potential(p)
      ensures !IsCheckmate(p).0 ==> InteriorPos(c)
    {
      var s := Successors(p);
      var i :| 0 <= i < |s| && s[i] == c;
      MoveStaysOnBoard(p, LegalMoves(p)[i]);
      MoveLowersPotential(p, LegalMoves(p)[i]);
    }
  }
}
