/** Board notation: the piece-placement field of FEN (section 16.1.3.1 of the
    PGN Standard) as the engine reads and writes it, and the coordinate
    notation it uses to report its own moves. */
module Notation {
  import opened Common
  import opened Board
  import opened BitBoards

  // ---------------------------------------------------------------------------
  // Reading: fen2bit

  datatype FenError = InvalidBoard | SquareOutOfRange

  const FenSeparators: set<char> := {'/', '\n'}

  /** Where the scan of one row stands: the column about to be filled (0-based,
      before padding) and the cells marked so far, in padded coordinates. */
  datatype ScanState = ScanState(col: int, white: Grid, black: Grid)

  predicate IsDigit(ch: char) {
    '0' <= ch <= '9'
  }

  /** The effect of one character of row `i`: a digit skips that many squares,
      `p`/`q` marks black and `P`/`Q` white (moving one square on), `.` moves
      one square on, anything else is ignored. Marking past the eighth column
      is an index error. */
  function Step(i: int, ch: char, st: ScanState): Result<ScanState, FenError> {
    if IsDigit(ch) then Ok(st.(col := st.col + (ch as int - '0' as int)))
    else if ch == 'p' || ch == 'q' then
      if st.col >= 8 then Err(SquareOutOfRange)
      else Ok(ScanState(st.col + 1, st.white, st.black + {(i + 1, st.col + 1)}))
    else if ch == 'P' || ch == 'Q' then
      if st.col >= 8 then Err(SquareOutOfRange)
      else Ok(ScanState(st.col + 1, st.white + {(i + 1, st.col + 1)}, st.black))
    else if ch == '.' then Ok(st.(col := st.col + 1))
    else Ok(st)
  }

  /** The scan of the characters of `row`, left to right. */
  function Scan(i: int, row: string, st: ScanState): Result<ScanState, FenError>
    decreases |row|
  {
    if row == [] then Ok(st)
    else
      match Step(i, row[0], st)
      case Err(e) => Err(e)
      case Ok(st') => Scan(i, row[1..], st')
  }

  /** Rows `i..` of the split string, each scanned from column 0. */
  function ScanRows(rows: seq<string>, i: nat, w: Grid, b: Grid): Result<(Grid, Grid), FenError>
    requires i <= |rows|
    decreases |rows| - i
  {
    if i == |rows| then Ok((w, b))
    else
      match Scan(i, rows[i], ScanState(0, w, b))
      case Err(e) => Err(e)
      case Ok(st) => ScanRows(rows, i + 1, st.white, st.black)
  }

  /** `fen2bit`: the (white, black) grids, padded, of a piece-placement field. */
  function FenToGrids(fen: string): Result<(Grid, Grid), FenError> {
    var rows := Split(fen, FenSeparators);
    if |rows| != 8 then Err(InvalidBoard) else ScanRows(rows, 0, {}, {})
  }

  /** Scanning never reports a wrong row count. */
  lemma {:induction false} ScanRowsNotInvalid(rows: seq<string>, i: nat, w: Grid, b: Grid)
    requires i <= |rows|
    ensures ScanRows(rows, i, w, b) != Err(InvalidBoard)
    decreases |rows| - i
  {
    if i < |rows| {
      ScanNotInvalid(i, rows[i], ScanState(0, w, b));
      match Scan(i, rows[i], ScanState(0, w, b))
      case Err(e) =>
      case Ok(st) => ScanRowsNotInvalid(rows, i + 1, st.white, st.black);
    }
  }

  lemma {:induction false} ScanNotInvalid(i: int, row: string, st: ScanState)
    ensures Scan(i, row, st) != Err(InvalidBoard)
    decreases |row|
  {
    if row != [] {
      match Step(i, row[0], st)
      case Err(e) =>
      case Ok(st') => ScanNotInvalid(i, row[1..], st');
    }
  }

  /** `fen2bit` refuses a text exactly when it does not have seven separators. */
  lemma FenRowCount(fen: string)
    ensures FenToGrids(fen) == Err(InvalidBoard) <==> SepCount(fen, FenSeparators) != 7
  {
    SplitLength(fen, FenSeparators);
    ScanRowsNotInvalid(Split(fen, FenSeparators), 0, {}, {});
  }

  /** Marks land on rows and columns 1..8: the padding stays empty. */
  lemma {:induction false} ScanInterior(i: int, row: string, st: ScanState)
    requires 0 <= i < 8 && 0 <= st.col && InteriorGrid(st.white) && InteriorGrid(st.black)
    ensures Scan(i, row, st).Ok? ==>
              0 <= Scan(i, row, st).value.col &&
              InteriorGrid(Scan(i, row, st).value.white) && InteriorGrid(Scan(i, row, st).value.black)
    decreases |row|
  {
    if row != [] {
      match Step(i, row[0], st)
      case Err(e) =>
      case Ok(st') => ScanInterior(i, row[1..], st');
    }
  }

  lemma {:induction false} ScanRowsInterior(rows: seq<string>, i: nat, w: Grid, b: Grid)
    requires i <= |rows| == 8 && InteriorGrid(w) && InteriorGrid(b)
    ensures ScanRows(rows, i, w, b).Ok? ==>
              InteriorGrid(ScanRows(rows, i, w, b).value.0) && InteriorGrid(ScanRows(rows, i, w, b).value.1)
    decreases |rows| - i
  {
    if i < |rows| {
      ScanInterior(i, rows[i], ScanState(0, w, b));
      match Scan(i, rows[i], ScanState(0, w, b))
      case Err(e) =>
      case Ok(st) => ScanRowsInterior(rows, i + 1, st.white, st.black);
    }
  }

  /** What `fen2bit` accepts lies on the playable board, padding empty. */
  lemma FenInterior(fen: string)
    ensures FenToGrids(fen).Ok? ==> InteriorGrid(FenToGrids(fen).value.0) && InteriorGrid(FenToGrids(fen).value.1)
  {
    var rows := Split(fen, FenSeparators);
    if |rows| == 8 {
      ScanRowsInterior(rows, 0, {}, {});
    }
  }

  /** The 8x8 array `a`, padded by one empty row and column on every side. */
  function Padded(a: array2<bool>): (g: Grid)
    reads a
  {
    set r, c | 0 <= r < 8 && 0 <= c < 8 && r < a.Length0 && c < a.Length1 && a[r, c] :: (r + 1, c + 1)
  }

  lemma PaddedMember(a: array2<bool>, r: int, c: int)
    requires a.Length0 == 8 && a.Length1 == 8
    ensures (r, c) in Padded(a) <==> 1 <= r <= 8 && 1 <= c <= 8 && a[r - 1, c - 1]
  {
    if 1 <= r <= 8 && 1 <= c <= 8 && a[r - 1, c - 1] {
      assert (r - 1 + 1, c - 1 + 1) in Padded(a);
    }
  }

  /** The arrays hold exactly the grids, shifted by the padding. */
  ghost predicate Holds(wa: array2<bool>, ba: array2<bool>, w: Grid, b: Grid)
    reads wa, ba
  {
    wa.Length0 == 8 && wa.Length1 == 8 && ba.Length0 == 8 && ba.Length1 == 8 &&
    Padded(wa) == w && Padded(ba) == b
  }

  /** Marks cell (r, c) of an 8x8 array, keeping `Padded` in step. */
  method Mark(a: array2<bool>, r: int, c: int)
    requires a.Length0 == 8 && a.Length1 == 8 && 0 <= r < 8 && 0 <= c < 8
    modifies a
    ensures Padded(a) == old(Padded(a)) + {(r + 1, c + 1)}
  {
    ghost var before := Padded(a);
    forall x | x in before
      ensures 1 <= x.0 <= 8 && 1 <= x.1 <= 8 && a[x.0 - 1, x.1 - 1]
    {
      PaddedMember(a, x.0, x.1);
    }
    a[r, c] := true;
    forall x ensures x in Padded(a) <==> x in before + {(r + 1, c + 1)} {
      PaddedMember(a, x.0, x.1);
    }
  }

  /** `fen2bit`, as the engine runs it: split the text, then scan each row
      while writing into two 8x8 arrays, and pad the result. */
  method Fen2Bit(fen: string) returns (r: Result<(Grid, Grid), FenError>)
    ensures r == FenToGrids(fen)
  {
    var rows := Split(fen, FenSeparators);
    if |rows| != 8 {
      return Err(InvalidBoard);
    }
    var wa := new bool[8, 8]((_, _) => false);
    var ba := new bool[8, 8]((_, _) => false);
    assert Padded(wa) == {} by {
      forall x | x in Padded(wa) ensures false { PaddedMember(wa, x.0, x.1); }
    }
    assert Padded(ba) == {} by {
      forall x | x in Padded(ba) ensures false { PaddedMember(ba, x.0, x.1); }
    }
    var i := 0;
    while i < 8
      invariant 0 <= i <= 8
      invariant wa != ba
      invariant Holds(wa, ba, Padded(wa), Padded(ba))
      invariant ScanRows(rows, i, Padded(wa), Padded(ba)) == FenToGrids(fen)
    {
      var row := rows[i];
      var col := 0;
      var j := 0;
      ghost var w0, b0 := Padded(wa), Padded(ba);
      while j < |row|
        invariant 0 <= j <= |row| && 0 <= col
        invariant Holds(wa, ba, Padded(wa), Padded(ba))
        invariant Scan(i, row[j..], ScanState(col, Padded(wa), Padded(ba))) == Scan(i, row, ScanState(0, w0, b0))
      {
        var ch := row[j];
        assert row[j..] == [ch] + row[j + 1..];
        if IsDigit(ch) {
          col := col + (ch as int - '0' as int);
        } else if ch == 'p' || ch == 'q' {
          if col >= 8 {
            return Err(SquareOutOfRange);
          }
          Mark(ba, i, col);
          col := col + 1;
        } else if ch == 'P' || ch == 'Q' {
          if col >= 8 {
            return Err(SquareOutOfRange);
          }
          Mark(wa, i, col);
          col := col + 1;
        } else if ch == '.' {
          col := col + 1;
        }
        j := j + 1;
      }
      i := i + 1;
    }
    r := Ok((Padded(wa), Padded(ba)));
  }

  // ---------------------------------------------------------------------------
  // Writing: bit2fen

  function DigitChar(n: int): char
    requires 0 <= n <= 9
  {
    ('0' as int + n) as char
  }

  /** The pending run of empty squares, written out when it is not empty. */
  function Flush(k: nat): string
    requires k <= 9
  {
    if k > 0 then [DigitChar(k)] else ""
  }

  /** Row `i` (0-based, padded row i + 1) after its first `n` squares: the text
      so far and the run of empty squares not yet written. White wins over
      black on a cell both hold. */
  function RowScan(w: Grid, b: Grid, i: int, n: nat): (res: (string, nat))
    requires n <= 8
    ensures res.1 <= n
    decreases n
  {
    if n == 0 then ("", 0)
    else RowStep(RowScan(w, b, i, n - 1), (i + 1, n) in w, (i + 1, n) in b)
  }

  /** One square of a row: a piece writes the pending run and its letter. */
  function RowStep(prev: (string, nat), isWhite: bool, isBlack: bool): (res: (string, nat))
    requires prev.1 <= 8
    ensures res.1 <= prev.1 + 1
  {
    if isWhite then (prev.0 + Flush(prev.1) + "P", 0)
    else if isBlack then (prev.0 + Flush(prev.1) + "p", 0)
    else (prev.0, prev.1 + 1)
  }

  function RowText(w: Grid, b: Grid, i: int): string {
    var res := RowScan(w, b, i, 8);
    res.0 + Flush(res.1)
  }

  /** The first `n` rows, each but the last followed by a slash. */
  function FenUpTo(w: Grid, b: Grid, n: nat): string
    requires n <= 8
  {
    if n == 0 then ""
    else FenUpTo(w, b, n - 1) + RowText(w, b, n - 1) + (if n - 1 != 7 then "/" else "")
  }

  /** `bit2fen` of the (padded) grids. */
  function GridsToFen(w: Grid, b: Grid): string {
    FenUpTo(w, b, 8)
  }

  /** One square of the row loop of `bit2fen`. */
  method RowFenSquare(text: string, counter: nat, isWhite: bool, isBlack: bool) returns (text': string, counter': nat)
    requires counter <= 8
    ensures (text', counter') == RowStep((text, counter), isWhite, isBlack)
  {
    if isWhite || isBlack {
      var piece := if isWhite then "P" else "p";
      if counter > 0 {
        text' := text + [DigitChar(counter)] + piece;
      } else {
        assert text + Flush(counter) == text;
        text' := text + piece;
      }
      counter' := 0;
    } else {
      text', counter' := text, counter + 1;
    }
  }

  /** One row of `bit2fen`: the squares left to right, then the pending run. */
  method RowFen(white: array2<bool>, black: array2<bool>, i: int) returns (text: string)
    requires Square(white) && Square(black) && 0 <= i < 8
    ensures text == RowText(ToGrid(white), ToGrid(black), i)
  {
    ghost var w, b := ToGrid(white), ToGrid(black);
    text := "";
    var counter := 0;
    var j := 0;
    while j < 8
      invariant 0 <= j <= 8
      invariant (text, counter) == RowScan(w, b, i, j)
    {
      ToGridMember(white, i + 1, j + 1);
      ToGridMember(black, i + 1, j + 1);
      text, counter := RowFenSquare(text, counter, white[i + 1, j + 1], black[i + 1, j + 1]);
      j := j + 1;
    }
    text := text + Flush(counter);
  }

  /** `bit2fen`, as the engine runs it, over the 10x10 arrays. */
  method Bit2Fen(white: array2<bool>, black: array2<bool>) returns (fen: string)
    requires Square(white) && Square(black)
    ensures fen == GridsToFen(ToGrid(white), ToGrid(black))
  {
    fen := "";
    var i := 0;
    while i < 8
      invariant 0 <= i <= 8
      invariant fen == FenUpTo(ToGrid(white), ToGrid(black), i)
    {
      var row := RowFen(white, black, i);
      fen := fen + row;
      if i != 7 {
        fen := fen + "/";
      }
      i := i + 1;
    }
  }

  // ---------------------------------------------------------------------------
  // Reading back what was written

  /** Scanning a concatenation scans the second part from where the first stopped. */
  function AndThen(i: int, r: Result<ScanState, FenError>, t: string): Result<ScanState, FenError> {
    match r
    case Err(e) => Err(e)
    case Ok(st) => Scan(i, t, st)
  }

  lemma {:induction false} ScanAppend(i: int, s: string, t: string, st: ScanState)
    ensures Scan(i, s + t, st) == AndThen(i, Scan(i, s, st), t)
    decreases |s|
  {
    if s == [] {
      assert s + t == t;
    } else {
      assert (s + t)[0] == s[0] && (s + t)[1..] == s[1..] + t;
      match Step(i, s[0], st)
      case Err(e) =>
      case Ok(st') => ScanAppend(i, s[1..], t, st');
    }
  }

  /** The cells of `g` on padded row `r`, columns 1..n. */
  function RowCells(g: Grid, r: int, n: int): Grid {
    set x | x in g && x.0 == r && 1 <= x.1 <= n
  }

  /** The cells of `g` on padded rows 1..n and columns 1..8. */
  function RowsUpTo(g: Grid, n: int): Grid {
    set x | x in g && 1 <= x.0 <= n && 1 <= x.1 <= 8
  }

  /** A written run of empty squares moves the scan on by its length. */
  lemma ScanFlushThen(i: int, s: string, k: nat, tail: string, st0: ScanState, st1: ScanState)
    requires k <= 9 && Scan(i, s, st0) == Ok(st1)
    ensures Scan(i, s + Flush(k) + tail, st0) == Scan(i, tail, st1.(col := st1.col + k))
  {
    ScanAppend(i, s + Flush(k), tail, st0);
    ScanAppend(i, s, Flush(k), st0);
    if k > 0 {
      var d := DigitChar(k);
      assert IsDigit(d) && d as int - '0' as int == k;
      assert Flush(k) == [d] && [d][1..] == [];
      assert Scan(i, Flush(k), st1) == Ok(st1.(col := st1.col + k));
    } else {
      assert Scan(i, Flush(k), st1) == Ok(st1.(col := st1.col + k));
    }
  }

  /** Scanning what `RowScan` wrote marks exactly the squares it visited. */
  lemma {:induction false} RowScanReads(w: Grid, b: Grid, i: int, n: nat, W: Grid, B: Grid)
    requires n <= 8
    ensures var rs := RowScan(w, b, i, n);
            Scan(i, rs.0, ScanState(0, W, B)) ==
            Ok(ScanState(n - rs.1, W + RowCells(w, i + 1, n), B + (RowCells(b, i + 1, n) - w)))
    decreases n
  {
    if n == 0 {
      assert RowCells(w, i + 1, 0) == {} && W + {} == W;
      assert RowCells(b, i + 1, 0) - w == {} && B + {} == B;
    } else {
      RowScanReads(w, b, i, n - 1, W, B);
      RowScanReadsStep(w, b, i, n, W, B);
    }
  }

  /** One more square of `RowScan`: a pawn, or one more empty square. */
  lemma RowScanReadsStep(w: Grid, b: Grid, i: int, n: nat, W: Grid, B: Grid)
    requires 1 <= n <= 8
    requires var rs := RowScan(w, b, i, n - 1);
             Scan(i, rs.0, ScanState(0, W, B)) ==
             Ok(ScanState(n - 1 - rs.1, W + RowCells(w, i + 1, n - 1), B + (RowCells(b, i + 1, n - 1) - w)))
    ensures var rs := RowScan(w, b, i, n);
            Scan(i, rs.0, ScanState(0, W, B)) ==
            Ok(ScanState(n - rs.1, W + RowCells(w, i + 1, n), B + (RowCells(b, i + 1, n) - w)))
  {
    var x := (i + 1, n);
    if x in w {
      RowScanReadsWhite(w, b, i, n, W, B);
    } else if x in b {
      RowScanReadsBlack(w, b, i, n, W, B);
    } else {
      RowScanReadsEmpty(w, b, i, n, W, B);
    }
  }

  lemma RowScanReadsEmpty(w: Grid, b: Grid, i: int, n: nat, W: Grid, B: Grid)
    requires 1 <= n <= 8
    requires var rs := RowScan(w, b, i, n - 1);
             Scan(i, rs.0, ScanState(0, W, B)) ==
             Ok(ScanState(n - 1 - rs.1, W + RowCells(w, i + 1, n - 1), B + (RowCells(b, i + 1, n - 1) - w)))
    requires (i + 1, n) !in w && (i + 1, n) !in b
    ensures var rs := RowScan(w, b, i, n);
            Scan(i, rs.0, ScanState(0, W, B)) ==
            Ok(ScanState(n - rs.1, W + RowCells(w, i + 1, n), B + (RowCells(b, i + 1, n) - w)))
  {
    assert W + RowCells(w, i + 1, n) == W + RowCells(w, i + 1, n - 1);
    assert B + (RowCells(b, i + 1, n) - w) == B + (RowCells(b, i + 1, n - 1) - w);
  }

  lemma RowScanReadsWhite(w: Grid, b: Grid, i: int, n: nat, W: Grid, B: Grid)
    requires 1 <= n <= 8
    requires var rs := RowScan(w, b, i, n - 1);
             Scan(i, rs.0, ScanState(0, W, B)) ==
             Ok(ScanState(n - 1 - rs.1, W + RowCells(w, i + 1, n - 1), B + (RowCells(b, i + 1, n - 1) - w)))
    requires (i + 1, n) in w
    ensures var rs := RowScan(w, b, i, n);
            Scan(i, rs.0, ScanState(0, W, B)) ==
            Ok(ScanState(n - rs.1, W + RowCells(w, i + 1, n), B + (RowCells(b, i + 1, n) - w)))
  {
    var prev := RowScan(w, b, i, n - 1);
    var s, k := prev.0, prev.1;
    var x := (i + 1, n);
    var wm, bm := W + RowCells(w, i + 1, n - 1), B + (RowCells(b, i + 1, n - 1) - w);
    var mid := ScanState(n - 1 - k, wm, bm);
    ScanFlushThen(i, s, k, "P", ScanState(0, W, B), mid);
    assert W + RowCells(w, i + 1, n) == wm + {x};
    assert B + (RowCells(b, i + 1, n) - w) == bm;
  }

  lemma RowScanReadsBlack(w: Grid, b: Grid, i: int, n: nat, W: Grid, B: Grid)
    requires 1 <= n <= 8
    requires var rs := RowScan(w, b, i, n - 1);
             Scan(i, rs.0, ScanState(0, W, B)) ==
             Ok(ScanState(n - 1 - rs.1, W + RowCells(w, i + 1, n - 1), B + (RowCells(b, i + 1, n - 1) - w)))
    requires (i + 1, n) !in w && (i + 1, n) in b
    ensures var rs := RowScan(w, b, i, n);
            Scan(i, rs.0, ScanState(0, W, B)) ==
            Ok(ScanState(n - rs.1, W + RowCells(w, i + 1, n), B + (RowCells(b, i + 1, n) - w)))
  {
    var prev := RowScan(w, b, i, n - 1);
    var s, k := prev.0, prev.1;
    var x := (i + 1, n);
    var wm, bm := W + RowCells(w, i + 1, n - 1), B + (RowCells(b, i + 1, n - 1) - w);
    var mid := ScanState(n - 1 - k, wm, bm);
    ScanFlushThen(i, s, k, "p", ScanState(0, W, B), mid);
    assert W + RowCells(w, i + 1, n) == wm;
    assert B + (RowCells(b, i + 1, n) - w) == bm + {x};
  }

  /** Scanning a whole written row marks that row's squares and ends at column 8. */
  lemma RowTextReads(w: Grid, b: Grid, i: int, W: Grid, B: Grid)
    ensures Scan(i, RowText(w, b, i), ScanState(0, W, B)) ==
            Ok(ScanState(8, W + RowCells(w, i + 1, 8), B + (RowCells(b, i + 1, 8) - w)))
  {
    var rs := RowScan(w, b, i, 8);
    RowScanReads(w, b, i, 8, W, B);
    var st := ScanState(8 - rs.1, W + RowCells(w, i + 1, 8), B + (RowCells(b, i + 1, 8) - w));
    ScanFlushThen(i, rs.0, rs.1, "", ScanState(0, W, B), st);
    assert rs.0 + Flush(rs.1) + "" == RowText(w, b, i);
  }

  predicate SeparatorFree(s: string) {
    forall j :: 0 <= j < |s| ==> s[j] !in FenSeparators
  }

  lemma {:induction false} RowScanSeparatorFree(w: Grid, b: Grid, i: int, n: nat)
    requires n <= 8
    ensures SeparatorFree(RowScan(w, b, i, n).0)
    decreases n
  {
    if n > 0 {
      RowScanSeparatorFree(w, b, i, n - 1);
    }
  }

  function RowTexts(w: Grid, b: Grid, n: nat): (rows: seq<string>)
    ensures |rows| == n
    ensures forall k :: 0 <= k < n ==> rows[k] == RowText(w, b, k)
  {
    seq(n, k => RowText(w, b, k))
  }

  /** The first `n` of eight rows, each but the last followed by a slash. */
  function Joined(rows: seq<string>, n: nat): string
    requires n <= |rows| == 8
  {
    if n == 0 then ""
    else Joined(rows, n - 1) + rows[n - 1] + (if n - 1 != 7 then "/" else "")
  }

  lemma {:induction false} FenUpToJoined(w: Grid, b: Grid, n: nat)
    requires n <= 8
    ensures FenUpTo(w, b, n) == Joined(RowTexts(w, b, 8), n)
    decreases n
  {
    if n > 0 {
      FenUpToJoined(w, b, n - 1);
    }
  }

  /** A separator-free row fills the empty last part. */
  lemma SplitRow(pre: string, t: string, done: seq<string>)
    requires SeparatorFree(t)
    requires Split(pre, FenSeparators) == done + [""]
    ensures Split(pre + t, FenSeparators) == done + [t]
  {
    SplitAppendPiece(pre, t, FenSeparators);
    var p := Split(pre, FenSeparators);
    assert p[..|p| - 1] == done;
    assert p[|p| - 1] + t == t;
  }

  lemma SplitJoinedStep(rows: seq<string>, n: nat)
    requires 0 < n <= |rows| == 8 && SeparatorFree(rows[n - 1])
    requires Split(Joined(rows, n - 1), FenSeparators) == rows[..n - 1] + [""]
    ensures Split(Joined(rows, n), FenSeparators) == rows[..n] + (if n < 8 then [""] else [])
  {
    var pre := Joined(rows, n - 1);
    var t := rows[n - 1];
    SplitRow(pre, t, rows[..n - 1]);
    assert rows[..n - 1] + [t] == rows[..n];
    if n - 1 != 7 {
      assert Joined(rows, n) == (pre + t) + ['/'];
      SplitAppendSep(pre + t, '/', FenSeparators);
    } else {
      assert Joined(rows, n) == pre + t;
    }
  }

  /** Joined separator-free rows split back into those rows. */
  lemma {:induction false} SplitJoined(rows: seq<string>, n: nat)
    requires n <= |rows| == 8
    requires forall k :: 0 <= k < 8 ==> SeparatorFree(rows[k])
    ensures Split(Joined(rows, n), FenSeparators) == rows[..n] + (if n < 8 then [""] else [])
    decreases n
  {
    if n > 0 {
      SplitJoined(rows, n - 1);
      SplitJoinedStep(rows, n);
    } else {
      assert rows[..0] == [];
    }
  }

  /** The written text splits back into its rows. */
  lemma SplitFen(w: Grid, b: Grid)
    ensures Split(GridsToFen(w, b), FenSeparators) == RowTexts(w, b, 8)
  {
    var rows := RowTexts(w, b, 8);
    forall k | 0 <= k < 8 ensures SeparatorFree(rows[k]) {
      RowScanSeparatorFree(w, b, k, 8);
    }
    FenUpToJoined(w, b, 8);
    SplitJoined(rows, 8);
    assert rows[..8] == rows;
  }

  lemma {:induction false} ScanRowsReads(w: Grid, b: Grid, i: nat)
    requires i <= 8
    ensures ScanRows(RowTexts(w, b, 8), i, RowsUpTo(w, i), RowsUpTo(b, i) - w) ==
            Ok((RowsUpTo(w, 8), RowsUpTo(b, 8) - w))
    decreases 8 - i
  {
    if i < 8 {
      RowTextReads(w, b, i, RowsUpTo(w, i), RowsUpTo(b, i) - w);
      assert RowsUpTo(w, i) + RowCells(w, i + 1, 8) == RowsUpTo(w, i + 1);
      assert (RowsUpTo(b, i) - w) + (RowCells(b, i + 1, 8) - w) == RowsUpTo(b, i + 1) - w;
      ScanRowsReads(w, b, i + 1);
    }
  }

  /** `fen2bit` inverts `bit2fen` on the playable board: it gives back the
      white cells, and the black cells that are not also white. */
  lemma FenRoundTrip(w: Grid, b: Grid)
    ensures FenToGrids(GridsToFen(w, b)) == Ok((RowsUpTo(w, 8), RowsUpTo(b, 8) - w))
  {
    SplitFen(w, b);
    assert RowsUpTo(w, 0) == {} && RowsUpTo(b, 0) - w == {};
    ScanRowsReads(w, b, 0);
  }

  /** For a position with disjoint colours and empty padding the round trip is exact. */
  lemma FenRoundTripExact(w: Grid, b: Grid)
    requires InteriorGrid(w) && InteriorGrid(b) && w !! b
    ensures FenToGrids(GridsToFen(w, b)) == Ok((w, b))
  {
    FenRoundTrip(w, b);
    assert RowsUpTo(w, 8) == w;
    assert RowsUpTo(b, 8) - w == b;
  }

  // ---------------------------------------------------------------------------
  // The default position of `GameBoard`

  /** The default piece-placement field of `GameBoard`. */
  const StartFen: string := "8/pppppppp/8/8/8/8/PPPPPPPP/8"

  /** Square `c` of row `i` (0-based), on the padded board. */
  function RowCell(i: int, c: int): Cell {
    (i + 1, c)
  }

  /** A row with no pawn in its first `n` squares is a pending run of `n`. */
  lemma {:induction false} RowScanEmpty(w: Grid, b: Grid, i: int, n: nat)
    requires n <= 8
    requires forall c :: 1 <= c <= n ==> RowCell(i, c) !in w && RowCell(i, c) !in b
    ensures RowScan(w, b, i, n) == ("", n)
    decreases n
  {
    if n > 0 {
      RowScanEmpty(w, b, i, n - 1);
      assert RowCell(i, n) !in w && RowCell(i, n) !in b;
    }
  }

  /** A row whose first `n` squares all hold a pawn of one colour writes `n`
      letters and leaves no run. */
  lemma {:induction false} RowScanFull(w: Grid, b: Grid, i: int, n: nat, white: bool)
    requires n <= 8
    requires forall c :: 1 <= c <= n ==> (RowCell(i, c) in w <==> white) && (RowCell(i, c) in b <==> !white)
    ensures RowScan(w, b, i, n) == (seq(n, _ => if white then 'P' else 'p'), 0)
    decreases n
  {
    if n > 0 {
      RowScanFull(w, b, i, n - 1, white);
      assert (RowCell(i, n) in w <==> white) && (RowCell(i, n) in b <==> !white);
      assert RowCell(i, n) == (i + 1, n);
      var letter := if white then "P" else "p";
      var prev := RowScan(w, b, i, n - 1);
      assert RowScan(w, b, i, n) == RowStep(prev, (i + 1, n) in w, (i + 1, n) in b);
      assert prev.0 + Flush(prev.1) == prev.0;
      assert RowScan(w, b, i, n) == (seq(n - 1, _ => if white then 'P' else 'p') + letter, 0);
      assert seq(n, _ => if white then 'P' else 'p')
          == seq(n - 1, _ => if white then 'P' else 'p') + letter;
    } else {
      assert seq(0, _ => if white then 'P' else 'p') == "";
    }
  }

  /** The start position's eight row texts. */
  const StartRowTexts: seq<string> := ["8", "pppppppp", "8", "8", "8", "8", "PPPPPPPP", "8"]

  /** The start position's rows: empty but for black's on row 2 and white's on row 7. */
  lemma StartRows(i: int)
    requires 0 <= i < 8
    ensures RowText(StartWhite, StartBlack, i) == StartRowTexts[i]
  {
    forall c | 1 <= c <= 8 {
      StartMember(RowCell(i, c));
    }
    if i == 1 {
      RowScanFull(StartWhite, StartBlack, i, 8, false);
      assert seq(8, _ => 'p') == "pppppppp";
    } else if i == 6 {
      RowScanFull(StartWhite, StartBlack, i, 8, true);
      assert seq(8, _ => 'P') == "PPPPPPPP";
    } else {
      RowScanEmpty(StartWhite, StartBlack, i, 8);
    }
  }

  /** Those rows joined by `/` are `StartFen`. */
  lemma StartRowsJoined()
    ensures Joined(StartRowTexts, 8) == StartFen
  {
  }

  /** `bit2fen` of the start position is `GameBoard`'s default text. */
  lemma StartToFen()
    ensures GridsToFen(StartWhite, StartBlack) == StartFen
  {
    var rows := RowTexts(StartWhite, StartBlack, 8);
    forall i | 0 <= i < 8 ensures rows[i] == StartRowTexts[i] {
      StartRows(i);
    }
    assert rows == StartRowTexts;
    FenUpToJoined(StartWhite, StartBlack, 8);
    StartRowsJoined();
  }

  /** So `fen2bit` of that text is the start position. */
  lemma StartFromFen()
    ensures FenToGrids(StartFen) == Ok((StartWhite, StartBlack))
  {
    StartToFen();
    StartInterior();
    FenRoundTripExact(StartWhite, StartBlack);
  }

  /** The start position lies inside the window with the colours apart. */
  lemma StartInterior()
    ensures InteriorGrid(StartWhite) && InteriorGrid(StartBlack) && StartWhite !! StartBlack
  {
    forall x: Cell {
      StartMember(x);
    }
  }

  // ---------------------------------------------------------------------------
  // move2san: coordinate notation of a move

  /** The cells of `s` among the first `n` of the array, in row-major order. */
  function CellsInOrder(s: set<Cell>, n: nat): (cs: seq<Cell>)
    requires n <= 100
    ensures forall j :: 0 <= j < |cs| ==> InWindow(cs[j]) && cs[j] in s
    decreases n
  {
    if n == 0 then []
    else
      IndexCell(n - 1);
      CellsInOrder(s, n - 1) + (if CellAt(n - 1) in s then [CellAt(n - 1)] else [])
  }

  /** The cells where two grids differ (`np.logical_xor`), in row-major order. */
  function Changed(g: Grid, g': Grid): seq<Cell> {
    CellsInOrder((g - g') + (g' - g), 100)
  }

  function FileChar(c: int): char
    requires 0 <= c < 10
  {
    ('a' as int - 1 + c) as char
  }

  function RankChar(r: int): char
    requires 0 <= r < 10
  {
    ('0' as int + 9 - r) as char
  }

  function Coord(x: Cell): string
    requires InWindow(x)
  {
    [FileChar(x.1), RankChar(x.0)]
  }

  /** From-square, to-square and an optional promotion letter. */
  function Uci(from: Cell, to: Cell, promote: bool): string
    requires InWindow(from) && InWindow(to)
  {
    Coord(from) + Coord(to) + (if promote then "q" else "")
  }

  /** `move2san`: from the current grids (w, b) and the grids after the move.
      Two changed white cells make a white move, whose destination is the one
      met first in row-major order; otherwise two changed black cells make a
      black move, whose origin is the one met first. Anything else has no
      notation. */
  function Move2San(w: Grid, b: Grid, w': Grid, b': Grid): Option<string> {
    var d := Changed(w, w');
    if |d| == 2 then Some(Uci(d[1], d[0], RankChar(d[0].0) == '8'))
    else
      var e := Changed(b, b');
      if |e| == 2 then Some(Uci(e[0], e[1], RankChar(e[1].0) == '1'))
      else None
  }

  /** The cells of `s` in the array when at most `x` and `y` are among them. */
  lemma {:induction false} TwoInOrder(s: set<Cell>, x: Cell, y: Cell, n: nat)
    requires n <= 100 && InWindow(x) && InWindow(y) && IndexOf(x) < IndexOf(y)
    requires x in s && y in s
    requires forall z :: z in s && InWindow(z) ==> z == x || z == y
    ensures CellsInOrder(s, n) == (if IndexOf(x) < n then [x] else []) + (if IndexOf(y) < n then [y] else [])
    decreases n
  {
    if n > 0 {
      TwoInOrder(s, x, y, n - 1);
      IndexCell(n - 1);
      CellIndex(x);
      CellIndex(y);
    }
  }

  lemma {:induction false} NoneInOrder(s: set<Cell>, n: nat)
    requires n <= 100
    requires forall z :: z in s ==> !InWindow(z)
    ensures CellsInOrder(s, n) == []
    decreases n
  {
    if n > 0 {
      NoneInOrder(s, n - 1);
      IndexCell(n - 1);
    }
  }

  lemma {:induction false} OneInOrder(s: set<Cell>, x: Cell, n: nat)
    requires n <= 100 && InWindow(x) && x in s
    requires forall z :: z in s && InWindow(z) ==> z == x
    ensures |CellsInOrder(s, n)| == if IndexOf(x) < n then 1 else 0
    decreases n
  {
    if n > 0 {
      OneInOrder(s, x, n - 1);
      IndexCell(n - 1);
      CellIndex(x);
    }
  }

  /** A white move that takes a pawn from `f` to a cell `t` on an earlier row. */
  lemma WhiteSan(w: Grid, b: Grid, m: Move, f: Cell, t: Cell)
    requires InWindow(f) && InWindow(t) && t.0 < f.0
    requires f in w && t !in w && m.0 == w - {f} + {t}
    ensures Move2San(w, b, m.0, m.1) == Some(Uci(f, t, t.0 == 1))
  {
    var s := (w - m.0) + (m.0 - w);
    assert s == {f, t};
    CellIndex(f);
    CellIndex(t);
    TwoInOrder(s, t, f, 100);
  }

  /** A black move that takes a pawn from `f` to a cell `t` on a later row
      and changes at most one white cell. */
  lemma BlackSan(w: Grid, b: Grid, m: Move, f: Cell, t: Cell)
    requires InWindow(f) && InWindow(t) && f.0 < t.0
    requires f in b && t !in b && m.1 == b - {f} + {t}
    requires m.0 == w || (exists c :: InWindow(c) && c in w && m.0 == w - {c})
    ensures Move2San(w, b, m.0, m.1) == Some(Uci(f, t, t.0 == 8))
  {
    var sw := (w - m.0) + (m.0 - w);
    if m.0 == w {
      assert sw == {};
      NoneInOrder(sw, 100);
    } else {
      var c :| InWindow(c) && c in w && m.0 == w - {c};
      assert sw == {c};
      OneInOrder(sw, c, 100);
    }
    var s := (b - m.1) + (m.1 - b);
    assert s == {f, t};
    CellIndex(f);
    CellIndex(t);
    TwoInOrder(s, f, t, 100);
  }

  /** The notation of `m` names a pawn of `mine` moving from `f` to `t`. */
  ghost predicate Names(w: Grid, b: Grid, m: Move, whiteMoves: bool) {
    var (mine, mine') := if whiteMoves then (w, m.0) else (b, m.1);
    exists f, t :: InWindow(f) && InWindow(t) && f in mine && t !in mine && mine' == mine - {f} + {t} &&
      Move2San(w, b, m.0, m.1) == Some(Uci(f, t, t.0 == (if whiteMoves then 1 else 8)))
  }

  lemma WhitePushSan(w: Grid, b: Grid, x: Cell, m: Move)
    requires InteriorGrid(w) && WhitePushFrom(w, b, x, m)
    ensures Names(w, b, m, true)
  {
    var y := if m.0 == w - {x} + {(x.0 - 1, x.1)} then (x.0 - 1, x.1) else (x.0 - 2, x.1);
    WhiteSan(w, b, m, x, y);
  }

  lemma WhiteCaptureSan(w: Grid, b: Grid, x: Cell, d: int, m: Move)
    requires InteriorGrid(w) && InteriorGrid(b) && w !! b && WhiteCaptureTo(w, b, x, d, m)
    ensures Names(w, b, m, true)
  {
    var f := (x.0 + 1, x.1 + d);
    assert m.0 == w - {f} + {x};
    WhiteSan(w, b, m, f, x);
  }

  lemma BlackPushSan(w: Grid, b: Grid, x: Cell, m: Move)
    requires InteriorGrid(b) && w !! b && BlackPushFrom(w, b, x, m)
    ensures Names(w, b, m, false)
  {
    var y := if m == (w, b - {x} + {(x.0 + 1, x.1)}) then (x.0 + 1, x.1) else (x.0 + 2, x.1);
    assert x !in w;
    assert m.0 == w;
    BlackSan(w, b, m, x, y);
  }

  lemma BlackCaptureSan(w: Grid, b: Grid, x: Cell, d: int, m: Move)
    requires InteriorGrid(w) && InteriorGrid(b) && w !! b && BlackCaptureTo(w, b, x, d, m)
    ensures Names(w, b, m, false)
  {
    var f := (x.0 - 1, x.1 + d);
    assert m.1 == b - {f} + {x};
    BlackSan(w, b, m, f, x);
  }

  lemma WhiteMoveSan(w: Grid, b: Grid, m: Move)
    requires InteriorGrid(w) && InteriorGrid(b) && w !! b && m in WhiteMoves(w, b)
    ensures Names(w, b, m, true)
  {
    WhiteMovesExactly(w, b, m);
    var x :| InWindow(x) && (WhitePushFrom(w, b, x, m) || WhiteCaptureTo(w, b, x, 1, m) || WhiteCaptureTo(w, b, x, -1, m));
    if WhitePushFrom(w, b, x, m) {
      WhitePushSan(w, b, x, m);
    } else if WhiteCaptureTo(w, b, x, 1, m) {
      WhiteCaptureSan(w, b, x, 1, m);
    } else {
      WhiteCaptureSan(w, b, x, -1, m);
    }
  }

  lemma BlackMoveSan(w: Grid, b: Grid, m: Move)
    requires InteriorGrid(w) && InteriorGrid(b) && w !! b && m in BlackMoves(w, b)
    ensures Names(w, b, m, false)
  {
    BlackMovesExactly(w, b, m);
    var x :| InWindow(x) && (BlackPushFrom(w, b, x, m) || BlackCaptureTo(w, b, x, 1, m) || BlackCaptureTo(w, b, x, -1, m));
    if BlackPushFrom(w, b, x, m) {
      BlackPushSan(w, b, x, m);
    } else if BlackCaptureTo(w, b, x, 1, m) {
      BlackCaptureSan(w, b, x, 1, m);
    } else {
      BlackCaptureSan(w, b, x, -1, m);
    }
  }

  /** Every legal move of a position with disjoint colours and empty padding
      has a notation naming the moved pawn's origin and destination, with a
      promotion letter exactly when it reaches the last rank. */
  lemma LegalMoveSan(p: Position, m: Move)
    requires InteriorPos(p) && p.white !! p.black && m in LegalMoves(p)
    ensures Names(p.white, p.black, m, p.whiteTurn)
  {
    if p.whiteTurn {
      WhiteMoveSan(p.white, p.black, m);
    } else {
      BlackMoveSan(p.white, p.black, m);
    }
  }
}
