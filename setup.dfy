/** The server's setup line (`Wb4 Bg7 ...`): one token per pawn, read into an
    empty board and written out as FEN. */
module Setup {
  import opened Common
  import opened Board
  import opened BitBoards
  import opened Notation

  /** The Python exceptions a malformed token raises. */
  datatype SetupError = IndexError | ValueError

  const TokenSeparators: set<char> := {' '}

  /** The cell a token names: row 9 - rank digit, column file - 'a' + 1. A
      column from -10 to -1 counts from the right end of the array, as
      Python indexing does; anything further out is an index error. A token
      shorter than three characters is an index error and a non-digit rank a
      value error, the rank being read first. */
  function TokenCell(tok: string): (r: Result<Cell, SetupError>)
    ensures r.Ok? ==> InWindow(r.value)
  {
    if |tok| < 3 then Err(IndexError)
    else if !IsDigit(tok[2]) then Err(ValueError)
    else
      var row := 9 - (tok[2] as int - '0' as int);
      var col := tok[1] as int - 'a' as int + 1;
      if col < -10 || col >= 10 then Err(IndexError)
      else Ok((row, if col < 0 then col + 10 else col))
  }

  predicate IsWhiteToken(tok: string) {
    |tok| > 0 && tok[0] == 'W'
  }

  /** Tokens `i..` placed onto (w, b), stopping at the first bad token. */
  function Place(toks: seq<string>, i: nat, w: Grid, b: Grid): Result<(Grid, Grid), SetupError>
    requires i <= |toks|
    decreases |toks| - i
  {
    if i == |toks| then Ok((w, b))
    else
      match TokenCell(toks[i])
      case Err(e) => Err(e)
      case Ok(x) =>
        if IsWhiteToken(toks[i]) then Place(toks, i + 1, w + {x}, b)
        else Place(toks, i + 1, w, b + {x})
  }

  /** `handle_setup`. */
  function SetupFen(setup: string): Result<string, SetupError> {
    match Place(Split(setup, TokenSeparators), 0, {}, {})
    case Err(e) => Err(e)
    case Ok(g) => Ok(GridsToFen(g.0, g.1))
  }

  /** The placement `handle_setup` starts its board from. */
  const EmptyFen: string := "8/8/8/8/8/8/8/8"

  lemma {:induction false} EmptyRowScan(i: int, n: nat)
    requires n <= 8
    ensures RowScan({}, {}, i, n) == ("", n)
    decreases n
  {
    if n > 0 {
      EmptyRowScan(i, n - 1);
    }
  }

  /** `fen2bit` of the starting placement is the empty board, so the arrays
      `handle_setup` writes into start with no pawn on them. */
  lemma EmptyFenIsEmpty()
    ensures FenToGrids(EmptyFen) == Ok(({}, {}))
  {
    EmptyBoardFen();
    FenRoundTrip({}, {});
    var none: Grid := {};
    assert RowsUpTo(none, 8) == none && RowsUpTo(none, 8) - none == none;
  }

  /** The empty board is written as eight rows of eight empty squares. */
  lemma EmptyBoardFen()
    ensures GridsToFen({}, {}) == EmptyFen
  {
    EmptyRows();
    assert FenUpTo({}, {}, 1) == "8/";
    assert FenUpTo({}, {}, 2) == "8/8/";
    assert FenUpTo({}, {}, 3) == "8/8/8/";
    assert FenUpTo({}, {}, 4) == "8/8/8/8/";
    assert FenUpTo({}, {}, 5) == "8/8/8/8/8/";
    assert FenUpTo({}, {}, 6) == "8/8/8/8/8/8/";
    assert FenUpTo({}, {}, 7) == "8/8/8/8/8/8/8/";
  }

  /** Each row of the empty board is one run of eight empty squares. */
  lemma EmptyRows()
    ensures forall i :: 0 <= i < 8 ==> RowText({}, {}, i) == "8"
  {
    forall i | 0 <= i < 8 ensures RowText({}, {}, i) == "8" {
      EmptyRowScan(i, 8);
      assert DigitChar(8) == '8';
    }
  }

  /** Sets cell x of a 10x10 array. */
  method SetCell(a: array2<bool>, x: Cell)
    requires Square(a) && InWindow(x)
    modifies a
    ensures ToGrid(a) == old(ToGrid(a)) + {x}
  {
    ghost var before := ToGrid(a);
    forall y | y in before ensures a[y.0, y.1] {
      ToGridMember(a, y.0, y.1);
    }
    a[x.0, x.1] := true;
    forall y | InWindow(y) ensures y in ToGrid(a) <==> y in before + {x} {
      ToGridMember(a, y.0, y.1);
    }
  }

  /** `handle_setup`, as the engine runs it: split on single spaces, set one
      cell per token in an empty board, then write the board as FEN. */
  method HandleSetup(setup: string) returns (r: Result<string, SetupError>)
    ensures r == SetupFen(setup)
  {
    var pawns := Split(setup, TokenSeparators);
    var white := new bool[10, 10]((_, _) => false);
    var black := new bool[10, 10]((_, _) => false);
    assert ToGrid(white) == {} && ToGrid(black) == {};
    var i := 0;
    while i < |pawns|
      invariant 0 <= i <= |pawns|
      invariant white != black && Square(white) && Square(black)
      invariant Place(pawns, i, ToGrid(white), ToGrid(black)) == Place(pawns, 0, {}, {})
    {
      var pawn := pawns[i];
      var cell := TokenCell(pawn);
      if cell.Err? {
        return Err(cell.error);
      }
      if IsWhiteToken(pawn) {
        SetCell(white, cell.value);
      } else {
        SetCell(black, cell.value);
      }
      i := i + 1;
    }
    var fen := Bit2Fen(white, black);
    r := Ok(fen);
  }

  // ---------------------------------------------------------------------------
  // What the setup line produces

  /** The first bad token at or after `i`, or |toks| if there is none. */
  function FirstBad(toks: seq<string>, i: nat): (j: nat)
    requires i <= |toks|
    ensures i <= j <= |toks|
    ensures forall k :: i <= k < j ==> TokenCell(toks[k]).Ok?
    ensures j < |toks| ==> TokenCell(toks[j]).Err?
    decreases |toks| - i
  {
    if i == |toks| then i
    else if TokenCell(toks[i]).Err? then i
    else FirstBad(toks, i + 1)
  }

  /** The cells named by the tokens `i..` of one colour. */
  function NamedFrom(toks: seq<string>, i: nat, white: bool): Grid {
    set j | i <= j < |toks| && TokenCell(toks[j]).Ok? && IsWhiteToken(toks[j]) == white :: TokenCell(toks[j]).value
  }

  /** Placing tokens fails with the first bad token's error, and otherwise
      adds exactly the named cells to each colour. */
  lemma {:induction false} PlaceResult(toks: seq<string>, i: nat, w: Grid, b: Grid)
    requires i <= |toks|
    ensures Place(toks, i, w, b) ==
              if FirstBad(toks, i) < |toks| then Err(TokenCell(toks[FirstBad(toks, i)]).error)
              else Ok((w + NamedFrom(toks, i, true), b + NamedFrom(toks, i, false)))
    decreases |toks| - i
  {
    if i == |toks| {
      assert NamedFrom(toks, i, true) == {} && NamedFrom(toks, i, false) == {};
      assert w + {} == w && b + {} == b;
    } else if TokenCell(toks[i]).Ok? {
      var x := TokenCell(toks[i]).value;
      var isW := IsWhiteToken(toks[i]);
      var w', b' := if isW then w + {x} else w, if isW then b else b + {x};
      PlaceResult(toks, i + 1, w', b');
      assert Place(toks, i, w, b) == Place(toks, i + 1, w', b');
      assert NamedFrom(toks, i, isW) == NamedFrom(toks, i + 1, isW) + {x};
      assert NamedFrom(toks, i, !isW) == NamedFrom(toks, i + 1, !isW);
      if isW {
        assert w' + NamedFrom(toks, i + 1, true) == w + NamedFrom(toks, i, true);
        assert b' + NamedFrom(toks, i + 1, false) == b + NamedFrom(toks, i, false);
      } else {
        assert w' + NamedFrom(toks, i + 1, true) == w + NamedFrom(toks, i, true);
        assert b' + NamedFrom(toks, i + 1, false) == b + NamedFrom(toks, i, false);
      }
    }
  }

  /** `handle_setup` fails with the error of the first bad token; otherwise
      its FEN is that of the board holding exactly the named cells. */
  lemma SetupResult(setup: string)
    ensures var toks := Split(setup, TokenSeparators);
            SetupFen(setup) ==
              if FirstBad(toks, 0) < |toks| then Err(TokenCell(toks[FirstBad(toks, 0)]).error)
              else Ok(GridsToFen(NamedFrom(toks, 0, true), NamedFrom(toks, 0, false)))
  {
    var toks := Split(setup, TokenSeparators);
    PlaceResult(toks, 0, {}, {});
    assert {} + NamedFrom(toks, 0, true) == NamedFrom(toks, 0, true);
    assert {} + NamedFrom(toks, 0, false) == NamedFrom(toks, 0, false);
  }

  /** The setup line's FEN reads back as the named cells on the playable
      board, a cell named by both colours counting as white. */
  lemma SetupReadsBack(setup: string)
    requires SetupFen(setup).Ok?
    ensures var toks := Split(setup, TokenSeparators);
            var w, b := NamedFrom(toks, 0, true), NamedFrom(toks, 0, false);
            FenToGrids(SetupFen(setup).value) == Ok((RowsUpTo(w, 8), RowsUpTo(b, 8) - w))
  {
    SetupResult(setup);
    var toks := Split(setup, TokenSeparators);
    FenRoundTrip(NamedFrom(toks, 0, true), NamedFrom(toks, 0, false));
  }

  /** A space and a space-free token add one token at the end. */
  lemma SplitAddToken(setup: string, t: string)
    requires forall j :: 0 <= j < |t| ==> t[j] !in TokenSeparators
    ensures Split(setup + " " + t, TokenSeparators) == Split(setup, TokenSeparators) + [t]
  {
    var toks := Split(setup, TokenSeparators);
    SplitAppendSep(setup, ' ', TokenSeparators);
    SplitAppendPiece(setup + " ", t, TokenSeparators);
    var p := toks + [""];
    assert p[..|p| - 1] == toks && p[|p| - 1] + t == t;
  }

  /** Naming a pawn a second time changes nothing. */
  lemma SetupRepeat(setup: string, t: string)
    requires t in Split(setup, TokenSeparators)
    ensures SetupFen(setup + " " + t) == SetupFen(setup)
  {
    var toks := Split(setup, TokenSeparators);
    SplitPartsSeparatorFree(setup, TokenSeparators);
    var k :| 0 <= k < |toks| && toks[k] == t;
    SplitAddToken(setup, t);
    SetupResult(setup);
    SetupResult(setup + " " + t);
    RepeatNamed(toks, k);
  }

  lemma RepeatNamed(toks: seq<string>, k: nat)
    requires k < |toks|
    ensures var toks' := toks + [toks[k]];
            && (FirstBad(toks, 0) < |toks| ==> FirstBad(toks', 0) == FirstBad(toks, 0))
            && (FirstBad(toks, 0) == |toks| ==>
                  FirstBad(toks', 0) == |toks'| &&
                  NamedFrom(toks', 0, true) == NamedFrom(toks, 0, true) &&
                  NamedFrom(toks', 0, false) == NamedFrom(toks, 0, false))
  {
    var t := toks[k];
    var toks' := toks + [t];
    FirstBadAppend(toks, t, 0);
    if FirstBad(toks, 0) == |toks| {
      assert TokenCell(toks[k]).Ok?;
      forall white: bool ensures NamedFrom(toks', 0, white) == NamedFrom(toks, 0, white) {
        forall x | x in NamedFrom(toks', 0, white) ensures x in NamedFrom(toks, 0, white) {
          var j :| 0 <= j < |toks'| && TokenCell(toks'[j]).Ok? && IsWhiteToken(toks'[j]) == white &&
                   TokenCell(toks'[j]).value == x;
          var j' := if j < |toks| then j else k;
          assert toks[j'] == toks'[j];
        }
        forall x | x in NamedFrom(toks, 0, white) ensures x in NamedFrom(toks', 0, white) {
          var j :| 0 <= j < |toks| && TokenCell(toks[j]).Ok? && IsWhiteToken(toks[j]) == white &&
                   TokenCell(toks[j]).value == x;
          assert toks'[j] == toks[j];
        }
      }
    }
  }

  lemma {:induction false} FirstBadAppend(toks: seq<string>, t: string, i: nat)
    requires i <= |toks|
    ensures FirstBad(toks, i) < |toks| ==> FirstBad(toks + [t], i) == FirstBad(toks, i)
    ensures FirstBad(toks, i) == |toks| ==>
              FirstBad(toks + [t], i) == if TokenCell(t).Ok? then |toks| + 1 else |toks|
    decreases |toks| - i
  {
    if i < |toks| {
      assert (toks + [t])[i] == toks[i];
      FirstBadAppend(toks, t, i + 1);
    } else {
      assert (toks + [t])[i] == t;
    }
  }
}
