/** The agent's static evaluation, `heuristic`, as a function of the agent's
    colour, the mobility threshold and the position. It has three tiers, each
    consulted only when the ones before it have no verdict:

    1. the pawn race: the fewest moves a pawn needs to reach the last row
       with no opposing pawn able to stop it;
    2. mobility: how few moves the side to move has, up to the threshold;
    3. material: the relative pawn balance.

    Scores are exact rationals (`real`); the material tier can produce the
    `-inf` of a division by a zero pawn count. */
module Evaluator {
  import opened Common
  import opened Board

  /** The engine's `threshold` hyper-parameter (5 by default); the mobility
      tier divides by it. */
  type Threshold = t: int | t > 0 witness 5

  /** The evaluating agent: its colour and its threshold. */
  datatype Config = Config(selfWhite: bool, threshold: Threshold)

  function MinInt(x: int, y: int): int {
    if x <= y then x else y
  }

  function Abs(x: int): nat {
    if x < 0 then -x else x
  }

  // ---------------------------------------------------------------------------
  // Tier 1: the race

  /** A black pawn in a row above `x` (rows 0 .. x.0 - 1), in the column of
      `x` or a neighbouring one. */
  predicate BlackAhead(b: Grid, x: Cell) {
    exists y :: y in b && 0 <= y.0 < x.0 && x.1 - 1 <= y.1 <= x.1 + 1
  }

  /** A white pawn in a row below `x` (rows x.0 + 1 .. 9), in the column of
      `x` or a neighbouring one. */
  predicate WhiteAhead(w: Grid, x: Cell) {
    exists y :: y in w && x.0 < y.0 <= 9 && x.1 - 1 <= y.1 <= x.1 + 1
  }

  /** The race distance of the white pawn at `x`: its row minus one when it is
      on row 4 or above with no black pawn ahead of it, 10 otherwise. */
  function WhiteDist(b: Grid, x: Cell): int {
    if x.0 <= 4 && !BlackAhead(b, x) then x.0 - 1 else 10
  }

  /** Mirrored for a black pawn: 8 minus its row when it is on row 5 or below
      with no white pawn ahead of it, 10 otherwise. */
  function BlackDist(w: Grid, x: Cell): int {
    if x.0 >= 5 && !WhiteAhead(w, x) then 8 - x.0 else 10
  }

  /** The smallest white race distance over the first `n` cells of the array
      in row-major order; 10 when there is none. */
  function WhiteRace(w: Grid, b: Grid, n: nat): int
    decreases n
  {
    if n == 0 then 10
    else
      var x := CellAt(n - 1);
      if x in w then MinInt(WhiteRace(w, b, n - 1), WhiteDist(b, x)) else WhiteRace(w, b, n - 1)
  }

  function BlackRace(w: Grid, b: Grid, n: nat): int
    decreases n
  {
    if n == 0 then 10
    else
      var x := CellAt(n - 1);
      if x in b then MinInt(BlackRace(w, b, n - 1), BlackDist(w, x)) else BlackRace(w, b, n - 1)
  }

  /** The two closest distances, the side to move's lowered by one when they
      tie below 10 (it moves first). */
  function Race(p: Position): (int, int) {
    var dw := WhiteRace(p.white, p.black, 100);
    var db := BlackRace(p.white, p.black, 100);
    if dw == db && db != 10 then
      (if p.whiteTurn then (dw - 1, db) else (dw, db - 1))
    else (dw, db)
  }

  /** Tier 1: the strict winner of the race scores 1000 * (5 - its distance),
      positive when it is the agent's colour; no verdict on a tie. */
  function RaceScore(cfg: Config, p: Position): Option<int> {
    var (dw, db) := Race(p);
    if dw < db then Some(if cfg.selfWhite then 1000 * (5 - dw) else -1000 * (5 - dw))
    else if dw > db then Some(if cfg.selfWhite then -1000 * (5 - db) else 1000 * (5 - db))
    else None
  }

  // ---------------------------------------------------------------------------
  // Tier 2: mobility

  /** Tier 2 for a side to move with `n` moves: 5000 * (threshold - lm) /
      threshold with lm = n capped at the threshold, negative when the agent
      is the side to move. */
  function Mobility(cfg: Config, whiteTurn: bool, n: nat): real {
    var lm := if n > cfg.threshold then cfg.threshold else n;
    var mag := 5000.0 * (cfg.threshold - lm) as real / cfg.threshold as real;
    if cfg.selfWhite == whiteTurn then -mag else mag
  }

  function MobilityScore(cfg: Config, p: Position): real {
    Mobility(cfg, p.whiteTurn, |LegalMoves(p)|)
  }

  // ---------------------------------------------------------------------------
  // Tier 3: material

  function OwnCount(cfg: Config, p: Position): nat {
    if cfg.selfWhite then |p.white| else |p.black|
  }

  function OppCount(cfg: Config, p: Position): nat {
    if cfg.selfWhite then |p.black| else |p.white|
  }

  /** Tier 3: (own - opponent) / own * 5000; with no own pawn the engine's
      integer-array division gives -inf. */
  function MaterialScore(cfg: Config, p: Position): ExtReal {
    var own := OwnCount(cfg, p);
    var opp := OppCount(cfg, p);
    if own == 0 then NegInf
    else Fin((own - opp) as real / own as real * 5000.0)
  }

  /** `heuristic`: the first tier with a verdict; tier 2 has one when it is
      not zero. */
  function Heuristic(cfg: Config, p: Position): ExtReal {
    match RaceScore(cfg, p)
    case Some(s) => Fin(s as real)
    case None =>
      var m := MobilityScore(cfg, p);
      if m != 0.0 then Fin(m) else MaterialScore(cfg, p)
  }

  // ---------------------------------------------------------------------------
  // Properties

  /** The white race value is the minimum distance over the white pawns of the
      array, or 10 when none of them is in the race. */
  lemma {:induction false} WhiteRaceIsMinimum(w: Grid, b: Grid, n: nat)
    requires n <= 100
    ensures forall k :: 0 <= k < n && CellAt(k) in w ==> WhiteRace(w, b, n) <= WhiteDist(b, CellAt(k))
    ensures WhiteRace(w, b, n) <= 10
    ensures WhiteRace(w, b, n) == 10 ||
            exists k :: 0 <= k < n && CellAt(k) in w && WhiteRace(w, b, n) == WhiteDist(b, CellAt(k))
    decreases n
  {
    if n > 0 {
      WhiteRaceIsMinimum(w, b, n - 1);
    }
  }

  lemma {:induction false} BlackRaceIsMinimum(w: Grid, b: Grid, n: nat)
    requires n <= 100
    ensures forall k :: 0 <= k < n && CellAt(k) in b ==> BlackRace(w, b, n) <= BlackDist(w, CellAt(k))
    ensures BlackRace(w, b, n) <= 10
    ensures BlackRace(w, b, n) == 10 ||
            exists k :: 0 <= k < n && CellAt(k) in b && BlackRace(w, b, n) == BlackDist(w, CellAt(k))
    decreases n
  {
    if n > 0 {
      BlackRaceIsMinimum(w, b, n - 1);
    }
  }

  /** On the playable board every race distance is 0..3 or 10. */
  lemma RaceValues(p: Position)
    requires InteriorPos(p)
    ensures var dw := WhiteRace(p.white, p.black, 100); 0 <= dw <= 3 || dw == 10
    ensures var db := BlackRace(p.white, p.black, 100); 0 <= db <= 3 || db == 10
  {
    WhiteRaceIsMinimum(p.white, p.black, 100);
    BlackRaceIsMinimum(p.white, p.black, 100);
    var dw := WhiteRace(p.white, p.black, 100);
    if dw != 10 {
      var k :| 0 <= k < 100 && CellAt(k) in p.white && dw == WhiteDist(p.black, CellAt(k));
    }
    var db := BlackRace(p.white, p.black, 100);
    if db != 10 {
      var k :| 0 <= k < 100 && CellAt(k) in p.black && db == BlackDist(p.white, CellAt(k));
    }
  }

  /** Tier 1 gives no verdict exactly when neither colour has a pawn in the race. */
  lemma RaceFallsThrough(cfg: Config, p: Position)
    ensures RaceScore(cfg, p) == None <==>
              WhiteRace(p.white, p.black, 100) == 10 && BlackRace(p.white, p.black, 100) == 10
  {
    WhiteRaceIsMinimum(p.white, p.black, 100);
    BlackRaceIsMinimum(p.white, p.black, 100);
  }

  /** Tier 1 scores are multiples of 1000 between 2000 and 6000 in magnitude,
      positive exactly when the agent's colour wins the race. */
  lemma RaceScoreRange(cfg: Config, p: Position)
    requires InteriorPos(p)
    ensures RaceScore(cfg, p).Some? ==>
              var s := RaceScore(cfg, p).value;
              s % 1000 == 0 && 2000 <= Abs(s) <= 6000 &&
              (s > 0 <==> (if cfg.selfWhite then Race(p).0 < Race(p).1 else Race(p).1 < Race(p).0))
  {
    RaceValues(p);
  }

  /** Changing the agent's colour negates tier 1. */
  lemma RaceScoreColour(t: Threshold, p: Position)
    ensures RaceScore(Config(true, t), p).Some? <==> RaceScore(Config(false, t), p).Some?
    ensures RaceScore(Config(true, t), p).Some? ==>
              RaceScore(Config(true, t), p).value == -RaceScore(Config(false, t), p).value
  {
  }

  /** Tier 2 is zero exactly when the side to move has at least `threshold`
      moves, negative exactly when it is otherwise the agent's move, and at
      most 5000 in magnitude. */
  lemma MobilitySign(cfg: Config, whiteTurn: bool, n: nat)
    ensures Mobility(cfg, whiteTurn, n) == 0.0 <==> n >= cfg.threshold
    ensures Mobility(cfg, whiteTurn, n) < 0.0 <==> cfg.selfWhite == whiteTurn && n < cfg.threshold
    ensures -5000.0 <= Mobility(cfg, whiteTurn, n) <= 5000.0
  {
    var t := cfg.threshold;
    var lm := if n > t then t else n;
    var mag := 5000.0 * (t - lm) as real / t as real;
    assert 0 <= t - lm <= t;
    assert mag * t as real == 5000.0 * (t - lm) as real;
    assert 0.0 <= mag <= 5000.0;
    assert mag == 0.0 <==> t - lm == 0;
  }

  /** A colour with no pawn generates nothing. */
  lemma {:induction false} CollectNoPawn(g: Gen, w: Grid, b: Grid, n: nat)
    requires (g.WhitePush? || g.WhiteLeft? || g.WhiteRight?) ==> w == {}
    requires (g.BlackPush? || g.BlackLeft? || g.BlackRight?) ==> b == {}
    ensures Collect(g, w, b, n) == []
    decreases n
  {
    if n > 0 {
      CollectNoPawn(g, w, b, n - 1);
    }
  }

  /** A side with a move has a pawn. */
  lemma MoverHasPawn(p: Position)
    requires |LegalMoves(p)| > 0
    ensures p.whiteTurn ==> |p.white| > 0
    ensures !p.whiteTurn ==> |p.black| > 0
  {
    if p.whiteTurn && |p.white| == 0 {
      CollectNoPawn(WhitePush, p.white, p.black, 100);
      CollectNoPawn(WhiteLeft, p.white, p.black, 100);
      CollectNoPawn(WhiteRight, p.white, p.black, 100);
    }
    if !p.whiteTurn && |p.black| == 0 {
      CollectNoPawn(BlackPush, p.white, p.black, 100);
      CollectNoPawn(BlackLeft, p.white, p.black, 100);
      CollectNoPawn(BlackRight, p.white, p.black, 100);
    }
  }

  /** Tier 3 is reached only when the side to move has a pawn, so the
      undefined 0 / 0 never arises: with no own pawn the opponent has one and
      the score is -inf. Otherwise the score is at most 5000, and exactly
      5000 when the opponent has no pawn left. */
  lemma MaterialScoreRange(cfg: Config, p: Position)
    requires RaceScore(cfg, p) == None && MobilityScore(cfg, p) == 0.0
    ensures Heuristic(cfg, p) == MaterialScore(cfg, p)
    ensures OwnCount(cfg, p) + OppCount(cfg, p) > 0
    ensures MaterialScore(cfg, p) == NegInf <==> OwnCount(cfg, p) == 0
    ensures MaterialScore(cfg, p).Fin? ==>
              MaterialScore(cfg, p).r <= 5000.0 &&
              (MaterialScore(cfg, p).r == 5000.0 <==> OppCount(cfg, p) == 0)
  {
    MobilitySign(cfg, p.whiteTurn, |LegalMoves(p)|);
    MoverHasPawn(p);
    MaterialBound(cfg, p);
  }

  lemma MaterialBound(cfg: Config, p: Position)
    ensures MaterialScore(cfg, p).Fin? ==>
              MaterialScore(cfg, p).r <= 5000.0 &&
              (MaterialScore(cfg, p).r == 5000.0 <==> OppCount(cfg, p) == 0)
  {
    var own := OwnCount(cfg, p);
    if own > 0 {
      MaterialRatio(own, OppCount(cfg, p));
    }
  }

  lemma MaterialRatio(own: nat, opp: nat)
    requires own > 0
    ensures (own - opp) as real / own as real * 5000.0 <= 5000.0
    ensures (own - opp) as real / own as real * 5000.0 == 5000.0 <==> opp == 0
  {
    var q := (own - opp) as real / own as real;
    assert q * own as real == (own - opp) as real;
  }

  /** The evaluation is finite unless it falls to tier 3 with no own pawn. */
  lemma HeuristicFinite(cfg: Config, p: Position)
    ensures Heuristic(cfg, p) == NegInf <==>
              RaceScore(cfg, p) == None && MobilityScore(cfg, p) == 0.0 && OwnCount(cfg, p) == 0
    ensures Heuristic(cfg, p) != PosInf
  {
  }
}
