/** The best agent: an alpha-beta engine whose search depth is chosen before
    every ply from the move counter and the clock. `depth_scheduler` is the
    function `Schedule` and the method `DepthScheduler`; the agent's `ply`
    runs the schedule, the alpha-beta ply at the depth it chose, and then
    advances the counter and the clock. Elapsed time is a parameter. */
module Scheduler {
  import opened Common
  import opened Board
  import opened Evaluator
  import opened Graphs
  import opened BitBoards
  import opened Agents

  /** The deepest search the schedule asks for. */
  const MaxDepth := 20

  /** The warm-up count the best agent is built with (the agent default). */
  const Warmup := 3

  /** The adaptive part of the schedule: from the previous depth and the
      share `ratio` of the remaining clock the last ply took. A share of a
      quarter or more first takes one off; from a tenth up the depth is kept
      as it then is (and left uncapped); from a twentieth up one is added;
      below that two are added while at most 15 moves were counted and
      three afterwards, each capped at `MaxDepth`. */
  function Adjust(counter: int, depth: int, ratio: real): int {
    var d := if ratio >= 0.25 then depth - 1 else depth;
    if ratio >= 0.1 then d
    else if ratio >= 0.05 then MinInt(MaxDepth, d + 1)
    else if counter <= 15 then MinInt(MaxDepth, d + 2)
    else MinInt(MaxDepth, d + 3)
  }

  /** `depth_scheduler`: depth 2 for the first counted moves, 3 for the
      fifth, afterwards `Adjust` of the last ply's share of the clock. A
      clock of exactly zero is a division by zero. */
  function Schedule(counter: int, depth: int, moveTime: real, gameTime: real): (r: Result<int, PlyError>)
    ensures r.Err? <==> counter > 4 && gameTime == 0.0
    ensures r.Err? ==> r.error == ZeroClock
    ensures counter <= 3 ==> r == Ok(2)
    ensures counter == 4 ==> r == Ok(3)
  {
    if counter <= 3 then Ok(2)
    else if counter == 4 then Ok(3)
    else if gameTime == 0.0 then Err(ZeroClock)
    else Ok(Adjust(counter, depth, moveTime / gameTime))
  }

  /** A depth within the cap stays within it. */
  lemma ScheduleCapped(counter: int, depth: int, moveTime: real, gameTime: real)
    requires depth <= MaxDepth
    ensures var r := Schedule(counter, depth, moveTime, gameTime);
            r.Ok? ==> r.value <= MaxDepth
  {
  }

  /** Past the opening one ply changes the depth by at most one down and
      three up. */
  lemma ScheduleStep(counter: int, depth: int, moveTime: real, gameTime: real)
    requires counter > 4 && depth <= MaxDepth
    ensures var r := Schedule(counter, depth, moveTime, gameTime);
            r.Ok? ==> depth - 1 <= r.value <= depth + 3
  {
  }

  /** A larger share of the clock never gives a deeper search. */
  lemma AdjustMonotone(counter: int, depth: int, ratio: real, ratio': real)
    requires ratio <= ratio' && depth <= MaxDepth
    ensures Adjust(counter, depth, ratio') <= Adjust(counter, depth, ratio)
  {
  }

  /** Later in the game a fast ply is rewarded at least as much. */
  lemma AdjustLater(counter: int, counter': int, depth: int, ratio: real)
    requires counter <= counter'
    ensures Adjust(counter, depth, ratio) <= Adjust(counter', depth, ratio)
  {
  }

  /** There is no floor: with a quarter of the clock or more spent, every
      depth loses one, so repeated slow plies go to zero and below. */
  lemma ScheduleNoFloor(counter: int, depth: int, moveTime: real, gameTime: real)
    requires counter > 4 && gameTime > 0.0 && moveTime >= gameTime / 4.0
    ensures Schedule(counter, depth, moveTime, gameTime) == Ok(depth - 1)
  {
    assert moveTime / gameTime >= 0.25 by {
      assert moveTime * 4.0 >= gameTime;
      DivisionBound(moveTime, gameTime);
    }
  }

  lemma DivisionBound(x: real, y: real)
    requires y > 0.0 && x * 4.0 >= y
    ensures x / y >= 0.25
  {
    var q := x / y;
    assert q * y == x;
    assert q * y * 4.0 >= y;
    assert (q * 4.0 - 1.0) * y >= 0.0;
    if q * 4.0 - 1.0 < 0.0 {
      NegativeTimesPositive(q * 4.0 - 1.0, y);
    }
  }

  lemma NegativeTimesPositive(x: real, y: real)
    requires x < 0.0 && y > 0.0
    ensures x * y < 0.0
  {
  }

  /** Once the clock has run out, a ply that took any time has a negative
      share, so the schedule deepens the search as for a very fast ply. */
  lemma ScheduleOvertime(counter: int, depth: int, moveTime: real, gameTime: real)
    requires counter > 4 && gameTime < 0.0 && moveTime >= 0.0
    ensures Schedule(counter, depth, moveTime, gameTime) ==
            Ok(MinInt(MaxDepth, depth + if counter <= 15 then 2 else 3))
  {
    var q := moveTime / gameTime;
    assert q * gameTime == moveTime;
    if q > 0.0 {
      NegativeTimesPositive(gameTime, q);
      assert false;
    }
  }

  /** What `ply` advances after a played move: the move counter, the time
      the last ply took and the clock left, in seconds. */
  datatype Clock = Clock(moveCounter: int, moveTime: real, gameTime: real)

  /** One more move counted, `elapsed` recorded and taken off the clock. */
  function Advance(c: Clock, elapsed: real): (c': Clock)
    ensures c'.moveCounter == c.moveCounter + 1
    ensures c'.moveTime == elapsed
    ensures c'.gameTime + elapsed == c.gameTime
  {
    Clock(c.moveCounter + 1, elapsed, c.gameTime - elapsed)
  }

  /** The best agent: the engine (its board, graph and warm-up count), the
      schedule's depth and the clock. */
  class BestAgent {
    const engine: Engine
    var clock: Clock
    var depth: int

    /** The engine is consistent, the depth is within the cap, and the
        counter runs behind the warm-up: it is minus the warm-up count while
        random moves remain and counts the searched plies afterwards. */
    ghost predicate Valid()
      reads this, engine, engine.board, engine.board.white, engine.board.black, engine.graph
    {
      engine.Valid() && depth <= MaxDepth && Counting(clock.moveCounter, engine.warmup)
    }

    /** A new agent on board `b`: warm-up 3, the counter at minus the
        warm-up, no ply timed yet (-1), the clock `minutes` in seconds and
        depth 2. */
    constructor (b: FBoard, cfg: Config, minutes: real)
      requires b.Valid()
      ensures Valid() && engine.board == b && engine.cfg == cfg && engine.warmup == Warmup
      ensures fresh(engine) && fresh(engine.graph) && engine.graph.graph == map[]
      ensures clock == Clock(-Warmup, -1.0, minutes * 60.0) && depth == 2
    {
      engine := new Engine(b, cfg, Warmup);
      clock := Clock(-Warmup, -1.0, minutes * 60.0);
      depth := 2;
    }

    /** `depth_scheduler`: the depth is set as `Schedule` says; on a zero
        clock nothing changes. */
    method DepthScheduler() returns (r: Result<int, PlyError>)
      modifies this`depth
      ensures r == Schedule(clock.moveCounter, old(depth), clock.moveTime, clock.gameTime)
      ensures depth == if r.Ok? then r.value else old(depth)
    {
      var counter := clock.moveCounter;
      if counter <= 3 {
        depth := 2;
      } else if counter == 4 {
        depth := 3;
      } else {
        if clock.gameTime == 0.0 {
          return Err(ZeroClock);
        }
        var ratio := clock.moveTime / clock.gameTime;
        if ratio >= 0.25 {
          depth := depth - 1;
        }
        if 0.1 <= ratio {
          return Ok(depth);
        } else if 0.05 <= ratio {
          depth := depth + 1;
        } else if counter <= 15 {
          depth := depth + 2;
        } else {
          depth := depth + 3;
        }
      }
      depth := MinInt(MaxDepth, depth);
      r := Ok(depth);
    }

    /** `BestAgent.ply`: schedule the depth, play the alpha-beta ply at it,
        and on success advance the clock by `elapsed`. A zero clock stops
        the ply before the search; a failed ply leaves the clock as it was. */
    method Ply(pick: nat, elapsed: real, maximizing: bool) returns (r: Result<string, PlyError>)
      requires Valid() && !IsCheckmate(engine.board.Key()).0
      requires engine.warmup > 0 ==> pick < |engine.board.moves|
      modifies this, engine, engine.board, engine.graph
      ensures Valid()
      ensures var s := Schedule(old(clock.moveCounter), old(depth), old(clock.moveTime), old(clock.gameTime));
              s.Err? ==> r == Err(ZeroClock) && depth == old(depth) &&
                         engine.board.Key() == old(engine.board.Key()) &&
                         engine.warmup == old(engine.warmup) && engine.graph.graph == old(engine.graph.graph)
      ensures var s := Schedule(old(clock.moveCounter), old(depth), old(clock.moveTime), old(clock.gameTime));
              var p := old(engine.board.Key());
              s.Ok? ==> depth == s.value &&
                        engine.Played(p, old(engine.graph.graph), old(engine.warmup),
                                      PlyMove(p, old(engine.warmup), pick, AlphaBetaChoice(engine.cfg, p, s.value, maximizing)), r)
      ensures clock == if r.Ok? then Advance(old(clock), elapsed) else old(clock)
    {
      ScheduleCapped(clock.moveCounter, depth, clock.moveTime, clock.gameTime);
      var s := DepthScheduler();
      if s.Err? {
        r := Err(ZeroClock);
        return;
      }
      r := Search(pick, elapsed, s.value, maximizing);
    }

    /** The search half of `ply`, at the depth `d` just scheduled: the
        engine settles on a move; when it can be played the clock advances,
        and then the move is played. */
    method Search(pick: nat, elapsed: real, d: int, maximizing: bool) returns (r: Result<string, PlyError>)
      requires Valid() && !IsCheckmate(engine.board.Key()).0
      requires engine.warmup > 0 ==> pick < |engine.board.moves|
      modifies this`clock, engine`warmup, engine.board, engine.graph
      ensures Counting(clock.moveCounter, engine.warmup)
      ensures var p := old(engine.board.Key());
              engine.Played(p, old(engine.graph.graph), old(engine.warmup),
                            PlyMove(p, old(engine.warmup), pick, AlphaBetaChoice(engine.cfg, p, d, maximizing)), r)
      ensures clock == if r.Ok? then Advance(old(clock), elapsed) else old(clock)
    {
      ghost var p, g0 := engine.board.Key(), engine.graph.graph;
      var mv := engine.AlphaBetaDecide(p, pick, d, maximizing);
      Charge(g0, engine.warmup, Outcome(engine.board.Key(), mv).Ok?, elapsed);
      r := engine.Finish(p, mv, g0);
    }

    /** The clock advances when the ply's move will be played (`plays`);
        the counter keeps behind the warm-up count `w` that the move uses. */
    method Charge(ghost g0: Dict, ghost w: int, plays: bool, elapsed: real)
      requires engine.Valid() && Grows(g0, engine.graph.graph) && Counting(clock.moveCounter, w)
      modifies this`clock
      ensures engine.Valid() && Grows(g0, engine.graph.graph)
      ensures clock == if plays then Advance(old(clock), elapsed) else old(clock)
      ensures Counting(clock.moveCounter, if plays && w > 0 then w - 1 else w)
    {
      if plays {
        CountingStep(clock.moveCounter, w);
        clock := Advance(clock, elapsed);
      }
    }
  }

  /** The counter runs behind the warm-up count. */
  ghost predicate Counting(counter: int, warmup: int) {
    warmup >= 0 && (warmup > 0 ==> counter == -warmup) && (warmup == 0 ==> counter >= 0)
  }

  /** A played ply keeps the counter behind the warm-up. */
  lemma CountingStep(counter: int, warmup: int)
    requires Counting(counter, warmup)
    ensures Counting(counter + 1, if warmup > 0 then warmup - 1 else warmup)
  {
  }

  /** While random moves remain the schedule asks for depth 2 and divides
      by nothing; the first searched ply is at depth 2 as well. */
  lemma WarmupSchedule(counter: int, warmup: int, depth: int, moveTime: real, gameTime: real)
    requires Counting(counter, warmup) && (warmup > 0 || counter == 0)
    ensures Schedule(counter, depth, moveTime, gameTime) == Ok(2)
  {
  }
}
