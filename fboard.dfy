/** The engine's mutable board: two 10x10 boolean arrays, the side to move and
    the two cached move lists. Each list entry is the (white, black) pair of
    grids after the move, as in the engine; the lists themselves are held as
    values. */
module BitBoards {
  import opened Common
  import opened Board

  /** The set of cells of `a` that hold `true`. */
  function ToGrid(a: array2<bool>): (g: Grid)
    reads a
    ensures forall x :: x in g ==> 0 <= x.0 < a.Length0 && 0 <= x.1 < a.Length1 && a[x.0, x.1]
  {
    set r, c | 0 <= r < a.Length0 && 0 <= c < a.Length1 && a[r, c] :: (r, c)
  }

  lemma ToGridMember(a: array2<bool>, r: int, c: int)
    requires 0 <= r < a.Length0 && 0 <= c < a.Length1
    ensures (r, c) in ToGrid(a) <==> a[r, c]
  {
    if a[r, c] {
      assert (r, c) in ToGrid(a);
    }
  }

  predicate Square(a: array2<bool>) {
    a.Length0 == 10 && a.Length1 == 10
  }

  /** The moves generator loop `g` adds for the cell (r, c), read off the arrays. */
  method MovesAt(g: Gen, white: array2<bool>, black: array2<bool>, r: int, c: int) returns (ms: seq<Move>)
    requires Square(white) && Square(black)
    requires InteriorGrid(ToGrid(white)) && InteriorGrid(ToGrid(black))
    requires 0 <= r < 10 && 0 <= c < 10
    ensures ms == GenAt(g, ToGrid(white), ToGrid(black), (r, c))
  {
    ghost var w, b := ToGrid(white), ToGrid(black);
    var x := (r, c);
    ToGridMember(white, r, c);
    ToGridMember(black, r, c);
    ms := [];
    match g
    case WhitePush =>
      if white[r, c] {
        ToGridMember(white, r - 1, c);
        ToGridMember(black, r - 1, c);
        if !white[r - 1, c] && !black[r - 1, c] {
          ms := [(ToGrid(white) - {x} + {(r - 1, c)}, ToGrid(black))];
          if r == 7 {
            ToGridMember(white, r - 2, c);
            ToGridMember(black, r - 2, c);
            if !white[r - 2, c] && !black[r - 2, c] {
              ms := ms + [(ToGrid(white) - {x} + {(r - 2, c)}, ToGrid(black))];
            }
          }
        }
      }
    case WhiteLeft =>
      if black[r, c] {
        ToGridMember(white, r + 1, c + 1);
        if white[r + 1, c + 1] {
          ms := [(ToGrid(white) + {x} - {(r + 1, c + 1)}, ToGrid(black) - {x})];
        }
      }
    case WhiteRight =>
      if black[r, c] {
        ToGridMember(white, r + 1, c - 1);
        if white[r + 1, c - 1] {
          ms := [(ToGrid(white) + {x} - {(r + 1, c - 1)}, ToGrid(black) - {x})];
        }
      }
    case BlackPush =>
      if black[r, c] {
        ToGridMember(white, r + 1, c);
        ToGridMember(black, r + 1, c);
        if !white[r + 1, c] && !black[r + 1, c] {
          ms := [(ToGrid(white), ToGrid(black) - {x} + {(r + 1, c)})];
          if r == 2 {
            ToGridMember(white, r + 2, c);
            ToGridMember(black, r + 2, c);
            if !white[r + 2, c] && !black[r + 2, c] {
              ms := ms + [(ToGrid(white) - {x}, ToGrid(black) - {x} + {(r + 2, c)})];
            }
          }
        }
      }
    case BlackLeft =>
      if white[r, c] {
        ToGridMember(black, r - 1, c + 1);
        if black[r - 1, c + 1] {
          ms := [(ToGrid(white) - {x}, ToGrid(black) + {x} - {(r - 1, c + 1)})];
        }
      }
    case BlackRight =>
      if white[r, c] {
        ToGridMember(black, r - 1, c - 1);
        if black[r - 1, c - 1] {
          ms := [(ToGrid(white) - {x}, ToGrid(black) + {x} - {(r - 1, c - 1)})];
        }
      }
  }

  /** One generator loop: the cells in row-major order, each contributing its moves. */
  method CollectMoves(g: Gen, white: array2<bool>, black: array2<bool>) returns (ms: seq<Move>)
    requires Square(white) && Square(black)
    requires InteriorGrid(ToGrid(white)) && InteriorGrid(ToGrid(black))
    ensures ms == Collect(g, ToGrid(white), ToGrid(black), 100)
  {
    ms := [];
    var k := 0;
    while k < 100
      invariant 0 <= k <= 100
      invariant ms == Collect(g, ToGrid(white), ToGrid(black), k)
    {
      var more := MovesAt(g, white, black, k / 10, k % 10);
      ms := ms + more;
      k := k + 1;
    }
  }

  /** One colour's list: its pushes, then its left captures, then its right captures. */
  method ColourMoves(forWhite: bool, white: array2<bool>, black: array2<bool>) returns (ms: seq<Move>)
    requires Square(white) && Square(black)
    requires InteriorGrid(ToGrid(white)) && InteriorGrid(ToGrid(black))
    ensures forWhite ==> ms == WhiteMoves(ToGrid(white), ToGrid(black))
    ensures !forWhite ==> ms == BlackMoves(ToGrid(white), ToGrid(black))
  {
    var push, left, right := WhitePush, WhiteLeft, WhiteRight;
    if !forWhite {
      push, left, right := BlackPush, BlackLeft, BlackRight;
    }
    var ps := CollectMoves(push, white, black);
    var ls := CollectMoves(left, white, black);
    var rs := CollectMoves(right, white, black);
    ms := ps + ls + rs;
  }

  /** A fresh 10x10 array holding `g`. */
  method GridArray(g: Grid) returns (a: array2<bool>)
    requires WindowGrid(g)
    ensures fresh(a) && Square(a) && ToGrid(a) == g
  {
    a := new bool[10, 10]((r, c) => (r, c) in g);
    forall x | x in g ensures x in ToGrid(a) {
      ToGridMember(a, x.0, x.1);
    }
  }

  class FBoard {
    var white: array2<bool>
    var black: array2<bool>
    var whiteTurn: bool
    var moves: seq<Move>
    var oppMoves: seq<Move>

    /** `key`: the position the arrays and the turn flag describe. */
    function Key(): Position
      reads this`white, this`black, this`whiteTurn, white, black
    {
      Position(ToGrid(white), ToGrid(black), whiteTurn)
    }

    /** 10x10 arrays whose padding is empty. */
    ghost predicate Shaped()
      reads this`white, this`black, this`whiteTurn, white, black
    {
      Square(white) && Square(black) && InteriorPos(Key())
    }

    /** The cached lists are those of the current position. */
    ghost predicate Valid()
      reads this, white, black
    {
      Shaped() && moves == LegalMoves(Key()) && oppMoves == OppMoves(Key())
    }

    constructor (turn: bool, w: array2<bool>, b: array2<bool>)
      requires Square(w) && Square(b)
      requires InteriorGrid(ToGrid(w)) && InteriorGrid(ToGrid(b))
      ensures white == w && black == b && whiteTurn == turn
      ensures Valid()
    {
      white := w;
      black := b;
      whiteTurn := turn;
      moves := [];
      oppMoves := [];
      new;
      var _ := LegalMovesBoards();
    }

    /** `legal_moves_boards`: both colours' lists, each pushes first, then
        left captures, then right captures; `moves` gets the side to move's. */
    method LegalMovesBoards() returns (ms: seq<Move>)
      requires Shaped()
      modifies this`moves, this`oppMoves
      ensures Key() == old(Key()) && Shaped()
      ensures moves == LegalMoves(Key())
      ensures oppMoves == OppMoves(Key())
      ensures ms == moves
    {
      var wm := ColourMoves(true, white, black);
      var bm := ColourMoves(false, white, black);
      if whiteTurn {
        moves, oppMoves := wm, bm;
      } else {
        moves, oppMoves := bm, wm;
      }
      ms := moves;
    }

    /** `is_checkmate`, read off the arrays and the cached list. */
    function IsCheckmate(): (r: (bool, bool))
      reads this, white, black
      requires Valid()
      ensures r == Board.IsCheckmate(Key())
    {
      ToGridRows();
      if |moves| == 0 then (true, !whiteTurn)
      else if exists c :: 0 <= c < 10 && white[1, c] then (true, true)
      else if exists c :: 0 <= c < 10 && black[8, c] then (true, false)
      else (false, false)
    }

    lemma ToGridRows()
      requires Square(white) && Square(black)
      ensures (exists c :: 0 <= c < 10 && white[1, c]) <==> (exists c :: 0 <= c < 10 && (1, c) in ToGrid(white))
      ensures (exists c :: 0 <= c < 10 && black[8, c]) <==> (exists c :: 0 <= c < 10 && (8, c) in ToGrid(black))
    {
      forall c | 0 <= c < 10 ensures white[1, c] <==> (1, c) in ToGrid(white) {
        ToGridMember(white, 1, c);
      }
      forall c | 0 <= c < 10 ensures black[8, c] <==> (8, c) in ToGrid(black) {
        ToGridMember(black, 8, c);
      }
    }

    /** `make_move`: a pair that is not in `moves` is refused and nothing
        changes; otherwise the pair becomes the board, the turn flips and the
        lists are regenerated. */
    method MakeMove(mv: Move) returns (ok: bool)
      requires Valid()
      requires mv in moves ==> InteriorGrid(mv.0) && InteriorGrid(mv.1)
      modifies this
      ensures ok <==> mv in old(moves)
      ensures !ok ==> unchanged(this) && Valid()
      ensures ok ==> Valid() && fresh(white) && fresh(black)
      ensures ok ==> Key() == Successor(old(Key()), mv)
    {
      if mv !in moves {
        return false;
      }
      var w := GridArray(mv.0);
      var b := GridArray(mv.1);
      ghost var p := Key();
      white := w;
      black := b;
      moves := [];
      whiteTurn := !whiteTurn;
      ghost var q := Key();
      assert q == Successor(p, mv);
      var _ := LegalMovesBoards();
      assert Key() == q;
      ok := true;
    }
  }

  // ---------------------------------------------------------------------------
  // The legality test of `make_move` as written

  /** `new_board in self.moves` on the stacked numpy array of moves:
      numpy's `in` is `(self.moves == new_board).any()`, true when some
      entry agrees with the pair at some cell of either array. */
  ghost predicate ElementwiseIn(ms: seq<Move>, mv: Move) {
    exists i, x :: 0 <= i < |ms| && InWindow(x) && ((x in ms[i].0 <==> x in mv.0) || (x in ms[i].1 <==> x in mv.1))
  }

  /** With the padding empty everywhere, the test passes exactly when the
      list is not empty: the padding cells always agree. */
  lemma ElementwiseInNonEmpty(ms: seq<Move>, mv: Move)
    requires InteriorGrid(mv.0)
    requires forall i :: 0 <= i < |ms| ==> InteriorGrid(ms[i].0)
    ensures ElementwiseIn(ms, mv) <==> |ms| > 0
  {
    if |ms| > 0 {
      assert InWindow((0, 0)) && ((0, 0) in ms[0].0 <==> (0, 0) in mv.0);
    }
  }

  /** From the start position, the empty pair is not a legal move, yet the
      test lets it through. */
  lemma ElementwiseInAcceptsIllegal()
    ensures ({}, {}) !in LegalMoves(Start)
    ensures ElementwiseIn(LegalMoves(Start), ({}, {}))
  {
    StartPositionMoves();
    StartMember((2, 1));
    StartMember((0, 0));
    var ms := LegalMoves(Start);
    assert ms[0] in ms;
    var none: Grid := {};
    assert InWindow((0, 0)) && ((0, 0) in ms[0].1 <==> (0, 0) in none);
  }
}
