/** The searching agents: the shared agent state (the board it plays on, its
    colour and threshold, the warm-up count and its position graph), the
    memoised evaluation, `minimax` and `alphabeta` walking the graph, and
    the root choice of both agents' `ply`. Each method is proved against the functions of module Search
    instantiated with the engine's game. */
module Agents {
  import opened Common
  import opened Board
  import opened BitBoards
  import opened Notation
  import opened Evaluator
  import opened Graphs
  import Search

  /** The engine's game: playable positions are those on the 8x8 board, a
      position is terminal when `is_checkmate` says so, the evaluation is
      `heuristic`, the children are the graph's children and each move
      lowers the potential. */
  function EngineGame(cfg: Config): Search.Game<Position> {
    Search.Game(p => InteriorPos(p), p => IsCheckmate(p).0, p => Evaluator.Heuristic(cfg, p),
                p => Children(p), p => Potential(p))
  }

  lemma EngineDescends(cfg: Config)
    ensures Search.Descends(EngineGame(cfg))
  {
    var g := EngineGame(cfg);
    forall p, i | g.ok(p) && !g.over(p) && 0 <= i < |g.next(p)|
      ensures g.ok(g.next(p)[i]) && g.rank(g.next(p)[i]) < g.rank(p)
    {
      ChildrenFacts(p);
      assert Children(p)[i] in Children(p);
    }
  }

  /** The minimax value of a playable position in the engine's game. */
  function MinimaxValue(cfg: Config, p: Position, maximizing: bool, depth: int): ExtReal
    requires InteriorPos(p)
  {
    EngineDescends(cfg);
    Search.Minimax(EngineGame(cfg), p, maximizing, depth)
  }

  /** The alpha-beta value of a playable position in the engine's game. */
  function AlphaBetaValue(cfg: Config, p: Position, a: ExtReal, b: ExtReal, maximizing: bool, depth: int): ExtReal
    requires InteriorPos(p)
  {
    EngineDescends(cfg);
    Search.AlphaBeta(EngineGame(cfg), p, a, b, maximizing, depth)
  }

  /** Every cached score is the evaluation of its node's position. */
  ghost predicate Memo(cfg: Config, m: Dict) {
    forall k | k in m && m[k].isComputed :: m[k].h == Evaluator.Heuristic(cfg, m[k].board)
  }

  /** Growing the graph without touching scores keeps the cache right. */
  lemma MemoKeeps(cfg: Config, m0: Dict, m1: Dict)
    requires Memo(cfg, m0) && Grows(m0, m1) && KeepsScores(m0, m1)
    ensures Memo(cfg, m1)
  {
    forall k | k in m1 && m1[k].isComputed ensures m1[k].h == Evaluator.Heuristic(cfg, m1[k].board) {
      assert k in m0;
    }
  }

  /** Storing the evaluation of a node keeps the cache right. */
  lemma StoreKeeps(cfg: Config, m: Dict, k: string, h: ExtReal)
    requires Memo(cfg, m) && k in m && h == Evaluator.Heuristic(cfg, m[k].board)
    ensures Memo(cfg, m[k := m[k].(h := h, isComputed := true)])
    ensures Grows(m, m[k := m[k].(h := h, isComputed := true)])
  {
  }

  /** Marking an already computed node with its own score changes nothing. */
  lemma StoreSame(m: Dict, k: string)
    requires k in m && m[k].isComputed
    ensures m[k := m[k].(h := m[k].h, isComputed := true)] == m
    ensures Grows(m, m)
  {
    assert m[k].(h := m[k].h, isComputed := true) == m[k];
  }

  /** The running value of `minimax`'s child loop at `p` after `n` children. */
  function MinimaxPrefix(cfg: Config, p: Position, maximizing: bool, d: int, n: nat): ExtReal
    requires InteriorPos(p) && !IsCheckmate(p).0 && n <= |Children(p)|
  {
    EngineDescends(cfg);
    Search.MinimaxOver(EngineGame(cfg), p, maximizing, d, n)
  }

  /** A node's value: the evaluation at depth 0 or at a terminal position,
      otherwise the whole child loop one level down. */
  lemma MinimaxUnfold(cfg: Config, p: Position, maximizing: bool, depth: int)
    requires InteriorPos(p)
    ensures depth == 0 || IsCheckmate(p).0 ==> MinimaxValue(cfg, p, maximizing, depth) == Evaluator.Heuristic(cfg, p)
    ensures depth != 0 && !IsCheckmate(p).0 ==>
              MinimaxValue(cfg, p, maximizing, depth) == MinimaxPrefix(cfg, p, maximizing, depth - 1, |Children(p)|)
  {
    EngineDescends(cfg);
  }

  /** The child loop folds in one child value per step. */
  lemma MinimaxPrefixStep(cfg: Config, p: Position, maximizing: bool, d: int, n: nat)
    requires InteriorPos(p) && !IsCheckmate(p).0 && n < |Children(p)|
    ensures InteriorPos(Children(p)[n])
    ensures var v := MinimaxValue(cfg, Children(p)[n], !maximizing, d);
            MinimaxPrefix(cfg, p, maximizing, d, n + 1) ==
              if maximizing then Max(MinimaxPrefix(cfg, p, maximizing, d, n), v)
              else Min(MinimaxPrefix(cfg, p, maximizing, d, n), v)
  {
    EngineDescends(cfg);
    ChildrenFacts(p);
    assert Children(p)[n] in Children(p);
  }

  /** The child loop starts from the sentinel. */
  lemma MinimaxPrefixStart(cfg: Config, p: Position, maximizing: bool, d: int)
    requires InteriorPos(p) && !IsCheckmate(p).0
    ensures MinimaxPrefix(cfg, p, maximizing, d, 0) == if maximizing then NegInf else PosInf
  {
  }

  /** A child of a position the game has not ended in is on the board and has a lower potential. */
  lemma ChildRank(p: Position, i: nat)
    requires InteriorPos(p) && !IsCheckmate(p).0 && i < |Children(p)|
    ensures InteriorPos(Children(p)[i]) && Potential(Children(p)[i]) < Potential(p)
  {
    ChildrenFacts(p);
    assert Children(p)[i] in Children(p);
  }

  /** The keys `cs` name nodes of `m` holding the children of `p`, in order. */
  ghost predicate Hosts(m: Dict, cs: seq<string>, p: Position) {
    |cs| == |Children(p)| && forall i | 0 <= i < |cs| :: cs[i] in m && m[cs[i]].board == Children(p)[i]
  }

  lemma HostsGrow(m0: Dict, m1: Dict, cs: seq<string>, p: Position)
    requires Hosts(m0, cs, p) && Grows(m0, m1)
    ensures Hosts(m1, cs, p)
  {
  }

  lemma GrowsChain(m0: Dict, m1: Dict, m2: Dict)
    requires Grows(m0, m1) && Grows(m1, m2)
    ensures Grows(m0, m2)
  {
  }

  /** The maximizing child loop of `alphabeta` at `p` from child `i` on,
      with the current alpha `a` and running value. */
  function ABMaxFrom(cfg: Config, p: Position, i: nat, a: ExtReal, b: ExtReal, d: int, value: ExtReal): ExtReal
    requires InteriorPos(p) && !IsCheckmate(p).0 && i <= |Children(p)|
  {
    EngineDescends(cfg);
    Search.ABMax(EngineGame(cfg), p, i, a, b, d, value)
  }

  /** The minimizing child loop, with the current beta `b`. */
  function ABMinFrom(cfg: Config, p: Position, i: nat, a: ExtReal, b: ExtReal, d: int, value: ExtReal): ExtReal
    requires InteriorPos(p) && !IsCheckmate(p).0 && i <= |Children(p)|
  {
    EngineDescends(cfg);
    Search.ABMin(EngineGame(cfg), p, i, a, b, d, value)
  }

  /** An alpha-beta value: the evaluation at depth 0 or at a terminal
      position, otherwise the whole child loop from the sentinel. */
  lemma AlphaBetaUnfold(cfg: Config, p: Position, a: ExtReal, b: ExtReal, maximizing: bool, depth: int)
    requires InteriorPos(p)
    ensures depth == 0 || IsCheckmate(p).0 ==> AlphaBetaValue(cfg, p, a, b, maximizing, depth) == Evaluator.Heuristic(cfg, p)
    ensures depth != 0 && !IsCheckmate(p).0 && maximizing ==>
              AlphaBetaValue(cfg, p, a, b, maximizing, depth) == ABMaxFrom(cfg, p, 0, a, b, depth - 1, NegInf)
    ensures depth != 0 && !IsCheckmate(p).0 && !maximizing ==>
              AlphaBetaValue(cfg, p, a, b, maximizing, depth) == ABMinFrom(cfg, p, 0, a, b, depth - 1, PosInf)
  {
    EngineDescends(cfg);
  }

  /** One round of the maximizing loop: child `i` is searched with the
      window (a, b); the loop stops once the value reaches b, and otherwise
      raises alpha to the value. */
  lemma ABMaxFromStep(cfg: Config, p: Position, i: nat, a: ExtReal, b: ExtReal, d: int, value: ExtReal)
    requires InteriorPos(p) && !IsCheckmate(p).0 && i < |Children(p)|
    ensures InteriorPos(Children(p)[i])
    ensures var v := Max(value, AlphaBetaValue(cfg, Children(p)[i], a, b, false, d));
            ABMaxFrom(cfg, p, i, a, b, d, value) == if Le(b, v) then v else ABMaxFrom(cfg, p, i + 1, Max(a, v), b, d, v)
  {
    EngineDescends(cfg);
    ChildRank(p, i);
  }

  /** One round of the minimizing loop: it stops once the value falls to a,
      and otherwise lowers beta to the value. */
  lemma ABMinFromStep(cfg: Config, p: Position, i: nat, a: ExtReal, b: ExtReal, d: int, value: ExtReal)
    requires InteriorPos(p) && !IsCheckmate(p).0 && i < |Children(p)|
    ensures InteriorPos(Children(p)[i])
    ensures var v := Min(value, AlphaBetaValue(cfg, Children(p)[i], a, b, true, d));
            ABMinFrom(cfg, p, i, a, b, d, value) == if Le(v, a) then v else ABMinFrom(cfg, p, i + 1, a, Min(b, v), d, v)
  {
    EngineDescends(cfg);
    ChildRank(p, i);
  }

  /** Past the last child both loops return the running value. */
  lemma ABFromEnd(cfg: Config, p: Position, a: ExtReal, b: ExtReal, d: int, value: ExtReal)
    requires InteriorPos(p) && !IsCheckmate(p).0
    ensures ABMaxFrom(cfg, p, |Children(p)|, a, b, d, value) == value
    ensures ABMinFrom(cfg, p, |Children(p)|, a, b, d, value) == value
  {
    EngineDescends(cfg);
  }

  // ---------------------------------------------------------------------------
  // The root choice of `ply`

  /** The value the minimax agent's root loop gives move `m`: `minimax` on
      the position the move leads to. */
  function MinimaxRootValue(cfg: Config, p: Position, m: Move, maximizing: bool, depth: int): ExtReal
    requires InteriorPos(p) && !IsCheckmate(p).0 && m in LegalMoves(p)
  {
    MoveStaysOnBoard(p, m);
    MinimaxValue(cfg, Successor(p, m), maximizing, depth)
  }

  /** The value the alpha-beta agent's root loop gives move `m`: `alphabeta`
      with the full window on the position the move leads to. */
  function AlphaBetaRootValue(cfg: Config, p: Position, m: Move, maximizing: bool, depth: int): ExtReal
    requires InteriorPos(p) && !IsCheckmate(p).0 && m in LegalMoves(p)
  {
    MoveStaysOnBoard(p, m);
    AlphaBetaValue(cfg, Successor(p, m), NegInf, PosInf, maximizing, depth)
  }

  /** The root values of every legal move, in the order of `moves`. */
  function MinimaxRootValues(cfg: Config, p: Position, maximizing: bool, depth: int): (vs: seq<ExtReal>)
    requires InteriorPos(p) && !IsCheckmate(p).0
    ensures |vs| == |LegalMoves(p)|
    ensures forall i | 0 <= i < |vs| :: vs[i] == MinimaxRootValue(cfg, p, LegalMoves(p)[i], maximizing, depth)
  {
    var ms := LegalMoves(p);
    seq(|ms|, i requires 0 <= i < |ms| => MinimaxRootValue(cfg, p, ms[i], maximizing, depth))
  }

  function AlphaBetaRootValues(cfg: Config, p: Position, maximizing: bool, depth: int): (vs: seq<ExtReal>)
    requires InteriorPos(p) && !IsCheckmate(p).0
    ensures |vs| == |LegalMoves(p)|
    ensures forall i | 0 <= i < |vs| :: vs[i] == AlphaBetaRootValue(cfg, p, LegalMoves(p)[i], maximizing, depth)
  {
    var ms := LegalMoves(p);
    seq(|ms|, i requires 0 <= i < |ms| => AlphaBetaRootValue(cfg, p, ms[i], maximizing, depth))
  }

  /** The move the root loop holds after the first `n` moves: the one at the
      index `Pick` reports. */
  function ChosenUpTo(ms: seq<Move>, vs: seq<ExtReal>, n: nat): Option<Move>
    requires |ms| == |vs| && n <= |vs|
  {
    var j := Search.Pick(vs, n).1;
    if j.None? then None else Some(ms[j.value])
  }

  /** The move the root loop keeps. */
  function Chosen(ms: seq<Move>, vs: seq<ExtReal>): Option<Move>
    requires |ms| == |vs|
  {
    ChosenUpTo(ms, vs, |vs|)
  }

  /** The root loop from nothing, and one round of it: a strictly larger
      value replaces the held move and value. */
  lemma ChosenStep(ms: seq<Move>, vs: seq<ExtReal>, i: nat)
    requires |ms| == |vs| && i < |vs|
    ensures ChosenUpTo(ms, vs, 0) == None && Search.Pick(vs, 0).0 == NegInf
    ensures var best := Search.Pick(vs, i).0;
            Search.Pick(vs, i + 1).0 == (if Lt(best, vs[i]) then vs[i] else best) &&
            ChosenUpTo(ms, vs, i + 1) == if Lt(best, vs[i]) then Some(ms[i]) else ChosenUpTo(ms, vs, i)
  {
  }

  /** The held value and move after the first `i` rounds of a root loop
      over the moves `ms` whose values are `vs`. */
  ghost predicate Picked(ms: seq<Move>, vs: seq<ExtReal>, i: nat, bestValue: ExtReal, best: Option<Move>) {
    |vs| == |ms| && i <= |ms| && bestValue == Search.Pick(vs, i).0 && best == ChosenUpTo(ms, vs, i)
  }

  lemma PickedStart(ms: seq<Move>, vs: seq<ExtReal>)
    requires |vs| == |ms|
    ensures Picked(ms, vs, 0, NegInf, None)
  {
  }

  lemma PickedStep(ms: seq<Move>, vs: seq<ExtReal>, i: nat, bestValue: ExtReal, best: Option<Move>)
    requires Picked(ms, vs, i, bestValue, best) && i < |ms|
    ensures Picked(ms, vs, i + 1, if Lt(bestValue, vs[i]) then vs[i] else bestValue,
                   if Lt(bestValue, vs[i]) then Some(ms[i]) else best)
  {
    ChosenStep(ms, vs, i);
  }

  /** `MinimaxAgent.ply`'s choice: each child searched by `minimax` with its
      defaults, maximizing at depth 15. */
  function MinimaxChoice(cfg: Config, p: Position): Option<Move>
    requires InteriorPos(p) && !IsCheckmate(p).0
  {
    Chosen(LegalMoves(p), MinimaxRootValues(cfg, p, true, 15))
  }

  /** `AlphaBetaAgent.ply`'s choice: each child searched by `alphabeta` at
      `depth` with the roles swapped. */
  function AlphaBetaChoice(cfg: Config, p: Position, depth: int, maximizing: bool): Option<Move>
    requires InteriorPos(p) && !IsCheckmate(p).0
  {
    Chosen(LegalMoves(p), AlphaBetaRootValues(cfg, p, !maximizing, depth))
  }

  /** With the full window, alpha-beta gives the minimax value of a position. */
  lemma AlphaBetaIsMinimax(cfg: Config, p: Position, maximizing: bool, depth: int)
    requires InteriorPos(p)
    ensures AlphaBetaValue(cfg, p, NegInf, PosInf, maximizing, depth) == MinimaxValue(cfg, p, maximizing, depth)
  {
    EngineDescends(cfg);
    Search.AlphaBetaFullWindow(EngineGame(cfg), p, maximizing, depth);
  }

  /** So the alpha-beta agent's root values, and hence its choice, are those
      of a minimax search of the same depth and role. */
  lemma AlphaBetaChoiceIsMinimax(cfg: Config, p: Position, depth: int, maximizing: bool)
    requires InteriorPos(p) && !IsCheckmate(p).0
    ensures AlphaBetaRootValues(cfg, p, !maximizing, depth) == MinimaxRootValues(cfg, p, !maximizing, depth)
    ensures AlphaBetaChoice(cfg, p, depth, maximizing) == Chosen(LegalMoves(p), MinimaxRootValues(cfg, p, !maximizing, depth))
  {
    var ab, mm := AlphaBetaRootValues(cfg, p, !maximizing, depth), MinimaxRootValues(cfg, p, !maximizing, depth);
    forall i | 0 <= i < |ab| ensures ab[i] == mm[i] {
      var m := LegalMoves(p)[i];
      MoveStaysOnBoard(p, m);
      AlphaBetaIsMinimax(cfg, Successor(p, m), !maximizing, depth);
    }
  }

  /** The root loop keeps the first move of maximal value; it keeps none
      exactly when every child's value is -inf. */
  lemma ChosenIsFirstMaximum(ms: seq<Move>, vs: seq<ExtReal>)
    requires |ms| == |vs|
    ensures Chosen(ms, vs).None? <==> forall k | 0 <= k < |vs| :: vs[k] == NegInf
    ensures Chosen(ms, vs).Some? ==>
              exists j :: 0 <= j < |vs| && Chosen(ms, vs).value == ms[j] && vs[j] != NegInf &&
                (forall k | 0 <= k < |vs| :: Le(vs[k], vs[j])) &&
                (forall k | 0 <= k < j :: Lt(vs[k], vs[j]))
  {
    Search.PickFirstMaximum(vs, |vs|);
    var j := Search.Pick(vs, |vs|).1;
    if j.Some? {
      assert Chosen(ms, vs).value == ms[j.value];
    }
  }

  // ---------------------------------------------------------------------------
  // Playing the chosen move

  /** Why a ply produces no move: no move scored above -inf, or the move
      cannot be rendered (the text `push_san` would be handed is missing),
      or the clock used by the depth schedule reads zero. */
  datatype PlyError = NoBestMove | Unnamed | ZeroClock

  /** `GameBoard.make_move` on an agent's move: its text from `move2san`. */
  function PlayOutcome(p: Position, m: Move): Result<string, PlyError> {
    match Move2San(p.white, p.black, m.0, m.1)
    case None => Err(Unnamed)
    case Some(s) => Ok(s)
  }

  /** A ply's outcome for the move it settled on, if any. */
  function Outcome(p: Position, mv: Option<Move>): Result<string, PlyError> {
    if mv.None? then Err(NoBestMove) else PlayOutcome(p, mv.value)
  }

  /** The position after a ply: the move's successor when it was played. */
  function After(p: Position, mv: Option<Move>, r: Result<string, PlyError>): Position {
    if r.Ok? && mv.Some? then Successor(p, mv.value) else p
  }

  /** The move a ply settles on: a warm-up ply plays the move `pick` stands
      for (the random choice), any other ply the search's choice. */
  function PlyMove(p: Position, warmup: int, pick: nat, choice: Option<Move>): Option<Move>
    requires warmup > 0 ==> pick < |LegalMoves(p)|
  {
    if warmup > 0 then Some(LegalMoves(p)[pick]) else choice
  }

  /** The kept move is one of the moves looped over. */
  lemma ChosenMember(ms: seq<Move>, vs: seq<ExtReal>)
    requires |vs| == |ms|
    ensures Chosen(ms, vs).Some? ==> Chosen(ms, vs).value in ms
  {
  }

  /** On a position whose colours are apart, every legal move has a text. */
  lemma LegalMovesPlay(p: Position, m: Move)
    requires InteriorPos(p) && p.white !! p.black && m in LegalMoves(p)
    ensures PlayOutcome(p, m).Ok?
  {
    LegalMoveSan(p, m);
  }

  /** The root loops' copy of the board: a board sharing the arrays and the
      turn, the move made on it, and its key. */
  method ChildKey(b: FBoard, ghost p: Position, m: Move) returns (q: Position)
    requires b.Shaped() && b.Key() == p && !IsCheckmate(p).0 && m in LegalMoves(p)
    ensures q == Successor(p, m) && InteriorPos(q)
  {
    MoveStaysOnBoard(p, m);
    var tmp := new FBoard(b.whiteTurn, b.white, b.black);
    var ok := tmp.MakeMove(m);
    q := tmp.Key();
  }

  class Engine {
    const cfg: Config
    const board: FBoard
    const graph: Graph
    var warmup: int

    ghost predicate Valid()
      reads board, board.white, board.black, graph
    {
      board.Valid() && graph.Valid() && Memo(cfg, graph.graph)
    }

    /** The agent is consistent and its board is the position `p`, one in
        which the side to move is not checkmated. */
    ghost predicate At(p: Position)
      reads board, board.white, board.black, graph
    {
      Valid() && board.Key() == p && !IsCheckmate(p).0
    }

    /** An agent on the board `b` with the given colour and threshold (5 by
        default) and `warmup` random opening moves (3 by default), and an
        empty graph. */
    constructor (b: FBoard, cfg: Config, warmup: int)
      requires b.Valid()
      ensures Valid() && board == b && this.cfg == cfg && this.warmup == warmup
      ensures fresh(graph) && graph.graph == map[]
    {
      this.cfg := cfg;
      board := b;
      this.warmup := warmup;
      graph := new Graph();
    }

    /** `heuristic` on the node under `k`: a cached score is returned as it
        is; otherwise the evaluation is computed, stored and marked. */
    method Heuristic(k: string) returns (h: ExtReal)
      requires graph.Valid() && Memo(cfg, graph.graph) && k in graph.graph
      modifies graph
      ensures h == Evaluator.Heuristic(cfg, old(graph.graph)[k].board)
      ensures graph.graph == old(graph.graph)[k := old(graph.graph)[k].(h := h, isComputed := true)]
      ensures graph.Valid() && Memo(cfg, graph.graph) && Grows(old(graph.graph), graph.graph)
    {
      var n := graph.graph[k];
      if n.isComputed {
        h := n.h;
        StoreSame(graph.graph, k);
        return;
      }
      h := Evaluator.Heuristic(cfg, n.board);
      StoreKeeps(cfg, graph.graph, k, h);
      graph.SetScore(k, h);
    }
    /** `minimax` on the node under `key`: the node is fetched (and expanded)
        through the graph, and the result is the minimax value of its
        position; the graph only grows and its cached scores stay right. */
    method Minimax(key: BoardKey, maximizing: bool, depth: int) returns (v: ExtReal)
      requires graph.Valid() && Memo(cfg, graph.graph)
      requires key.StrKey? ==> key.s in graph.graph
      requires InteriorPos(KeyBoard(graph.graph, key))
      modifies graph
      decreases Potential(KeyBoard(graph.graph, key)), 2
      ensures graph.Valid() && Memo(cfg, graph.graph) && Grows(old(graph.graph), graph.graph)
      ensures v == MinimaxValue(cfg, KeyBoard(old(graph.graph), key), maximizing, depth)
    {
      ghost var g0 := graph.graph;
      var node := graph.GetNode(key);
      ghost var g1 := graph.graph;
      MemoKeeps(cfg, g0, g1);
      MinimaxUnfold(cfg, node.board, maximizing, depth);
      if depth == 0 || node.isTerminal.0 {
        v := Heuristic(GetKey(key));
      } else {
        v := MinimaxChildren(node.board, node.children, maximizing, depth - 1);
      }
      GrowsChain(g0, g1, graph.graph);
    }

    /** The child loop of `minimax`: the running maximum (or minimum) of the
        children's values, one level down with the roles swapped. */
    method MinimaxChildren(p: Position, cs: seq<string>, maximizing: bool, d: int) returns (v: ExtReal)
      requires graph.Valid() && Memo(cfg, graph.graph)
      requires InteriorPos(p) && !IsCheckmate(p).0 && Hosts(graph.graph, cs, p)
      modifies graph
      decreases Potential(p), 1
      ensures graph.Valid() && Memo(cfg, graph.graph) && Grows(old(graph.graph), graph.graph)
      ensures v == MinimaxPrefix(cfg, p, maximizing, d, |cs|)
    {
      MinimaxPrefixStart(cfg, p, maximizing, d);
      GrowsRefl(graph.graph);
      v := if maximizing then NegInf else PosInf;
      for i := 0 to |cs|
        invariant graph.Valid() && Memo(cfg, graph.graph) && Grows(old(graph.graph), graph.graph)
        invariant Hosts(graph.graph, cs, p)
        invariant v == MinimaxPrefix(cfg, p, maximizing, d, i)
      {
        v := MinimaxChild(p, cs, maximizing, d, i, v, old(graph.graph));
      }
    }

    /** One round of the child loop: the value of child `i` is folded into the running value. */
    method MinimaxChild(p: Position, cs: seq<string>, maximizing: bool, d: int, i: nat, v: ExtReal, ghost g0: Dict)
      returns (v': ExtReal)
      requires graph.Valid() && Memo(cfg, graph.graph) && Grows(g0, graph.graph)
      requires InteriorPos(p) && !IsCheckmate(p).0 && Hosts(graph.graph, cs, p) && i < |cs|
      requires v == MinimaxPrefix(cfg, p, maximizing, d, i)
      modifies graph
      decreases Potential(p), 0
      ensures graph.Valid() && Memo(cfg, graph.graph) && Grows(g0, graph.graph) && Hosts(graph.graph, cs, p)
      ensures v' == MinimaxPrefix(cfg, p, maximizing, d, i + 1)
    {
      ghost var g1 := graph.graph;
      ChildRank(p, i);
      MinimaxPrefixStep(cfg, p, maximizing, d, i);
      var c := Minimax(StrKey(cs[i]), !maximizing, d);
      v' := if maximizing then Max(v, c) else Min(v, c);
      HostsGrow(g1, graph.graph, cs, p);
      GrowsChain(g0, g1, graph.graph);
    }
    /** `alphabeta` on the node under `key` with the window (a, b): the
        result is the alpha-beta value of its position. */
    method AlphaBeta(key: BoardKey, a: ExtReal, b: ExtReal, maximizing: bool, depth: int) returns (v: ExtReal)
      requires graph.Valid() && Memo(cfg, graph.graph)
      requires key.StrKey? ==> key.s in graph.graph
      requires InteriorPos(KeyBoard(graph.graph, key))
      modifies graph
      decreases Potential(KeyBoard(graph.graph, key)), 2
      ensures graph.Valid() && Memo(cfg, graph.graph) && Grows(old(graph.graph), graph.graph)
      ensures v == AlphaBetaValue(cfg, KeyBoard(old(graph.graph), key), a, b, maximizing, depth)
    {
      ghost var g0 := graph.graph;
      var node := graph.GetNode(key);
      ghost var g1 := graph.graph;
      MemoKeeps(cfg, g0, g1);
      AlphaBetaUnfold(cfg, node.board, a, b, maximizing, depth);
      if depth == 0 || node.isTerminal.0 {
        v := Heuristic(GetKey(key));
      } else if maximizing {
        v := AlphaBetaMax(node.board, node.children, a, b, depth - 1);
      } else {
        v := AlphaBetaMin(node.board, node.children, a, b, depth - 1);
      }
      GrowsChain(g0, g1, graph.graph);
    }

    /** The maximizing child loop of `alphabeta`, with its cut-off. */
    method AlphaBetaMax(p: Position, cs: seq<string>, a: ExtReal, b: ExtReal, d: int) returns (v: ExtReal)
      requires graph.Valid() && Memo(cfg, graph.graph)
      requires InteriorPos(p) && !IsCheckmate(p).0 && Hosts(graph.graph, cs, p)
      modifies graph
      decreases Potential(p), 1
      ensures graph.Valid() && Memo(cfg, graph.graph) && Grows(old(graph.graph), graph.graph)
      ensures v == ABMaxFrom(cfg, p, 0, a, b, d, NegInf)
    {
      GrowsRefl(graph.graph);
      v := NegInf;
      var alpha := a;
      for i := 0 to |cs|
        invariant graph.Valid() && Memo(cfg, graph.graph) && Grows(old(graph.graph), graph.graph)
        invariant Hosts(graph.graph, cs, p)
        invariant ABMaxFrom(cfg, p, i, alpha, b, d, v) == ABMaxFrom(cfg, p, 0, a, b, d, NegInf)
      {
        var stop;
        v, stop := AlphaBetaMaxChild(p, cs, i, alpha, b, d, v, old(graph.graph));
        if stop {
          return;
        }
        alpha := Max(alpha, v);
      }
      ABFromEnd(cfg, p, alpha, b, d, v);
    }

    /** One round of the maximizing loop: the value of child `i`, searched
        with the window (a, b), is folded in; `stop` is the cut-off test. */
    method AlphaBetaMaxChild(p: Position, cs: seq<string>, i: nat, a: ExtReal, b: ExtReal, d: int,
                             value: ExtReal, ghost g0: Dict)
      returns (v: ExtReal, stop: bool)
      requires graph.Valid() && Memo(cfg, graph.graph) && Grows(g0, graph.graph)
      requires InteriorPos(p) && !IsCheckmate(p).0 && Hosts(graph.graph, cs, p) && i < |cs|
      modifies graph
      decreases Potential(p), 0
      ensures graph.Valid() && Memo(cfg, graph.graph) && Grows(g0, graph.graph) && Hosts(graph.graph, cs, p)
      ensures stop <==> Le(b, v)
      ensures stop ==> ABMaxFrom(cfg, p, i, a, b, d, value) == v
      ensures !stop ==> ABMaxFrom(cfg, p, i, a, b, d, value) == ABMaxFrom(cfg, p, i + 1, Max(a, v), b, d, v)
    {
      ghost var g1 := graph.graph;
      ChildRank(p, i);
      ABMaxFromStep(cfg, p, i, a, b, d, value);
      var r := AlphaBeta(StrKey(cs[i]), a, b, false, d);
      v := Max(value, r);
      stop := Le(b, v);
      HostsGrow(g1, graph.graph, cs, p);
      GrowsChain(g0, g1, graph.graph);
    }

    /** The minimizing child loop of `alphabeta`, with its cut-off. */
    method AlphaBetaMin(p: Position, cs: seq<string>, a: ExtReal, b: ExtReal, d: int) returns (v: ExtReal)
      requires graph.Valid() && Memo(cfg, graph.graph)
      requires InteriorPos(p) && !IsCheckmate(p).0 && Hosts(graph.graph, cs, p)
      modifies graph
      decreases Potential(p), 1
      ensures graph.Valid() && Memo(cfg, graph.graph) && Grows(old(graph.graph), graph.graph)
      ensures v == ABMinFrom(cfg, p, 0, a, b, d, PosInf)
    {
      GrowsRefl(graph.graph);
      v := PosInf;
      var beta := b;
      for i := 0 to |cs|
        invariant graph.Valid() && Memo(cfg, graph.graph) && Grows(old(graph.graph), graph.graph)
        invariant Hosts(graph.graph, cs, p)
        invariant ABMinFrom(cfg, p, i, a, beta, d, v) == ABMinFrom(cfg, p, 0, a, b, d, PosInf)
      {
        var stop;
        v, stop := AlphaBetaMinChild(p, cs, i, a, beta, d, v, old(graph.graph));
        if stop {
          return;
        }
        beta := Min(beta, v);
      }
      ABFromEnd(cfg, p, a, beta, d, v);
    }

    /** One round of the minimizing loop. */
    method AlphaBetaMinChild(p: Position, cs: seq<string>, i: nat, a: ExtReal, b: ExtReal, d: int,
                             value: ExtReal, ghost g0: Dict)
      returns (v: ExtReal, stop: bool)
      requires graph.Valid() && Memo(cfg, graph.graph) && Grows(g0, graph.graph)
      requires InteriorPos(p) && !IsCheckmate(p).0 && Hosts(graph.graph, cs, p) && i < |cs|
      modifies graph
      decreases Potential(p), 0
      ensures graph.Valid() && Memo(cfg, graph.graph) && Grows(g0, graph.graph) && Hosts(graph.graph, cs, p)
      ensures stop <==> Le(v, a)
      ensures stop ==> ABMinFrom(cfg, p, i, a, b, d, value) == v
      ensures !stop ==> ABMinFrom(cfg, p, i, a, b, d, value) == ABMinFrom(cfg, p, i + 1, a, Min(b, v), d, v)
    {
      ghost var g1 := graph.graph;
      ChildRank(p, i);
      ABMinFromStep(cfg, p, i, a, b, d, value);
      var r := AlphaBeta(StrKey(cs[i]), a, b, true, d);
      v := Min(value, r);
      stop := Le(v, a);
      HostsGrow(g1, graph.graph, cs, p);
      GrowsChain(g0, g1, graph.graph);
    }
    /** `GameBoard.make_move` on an agent's move: the move's text, and the
        move applied to the board; without a text nothing changes. A
        warm-up ply (`spend`) also uses up one warm-up move once the move
        has its text. */
    method Play(ghost p: Position, m: Move, spend: bool, ghost g0: Dict) returns (r: Result<string, PlyError>)
      requires At(p) && Grows(g0, graph.graph) && m in LegalMoves(p)
      modifies this`warmup, board
      ensures Valid() && Grows(g0, graph.graph)
      ensures r == PlayOutcome(p, m)
      ensures board.Key() == if r.Ok? then Successor(p, m) else p
      ensures warmup == if spend && r.Ok? then old(warmup) - 1 else old(warmup)
    {
      var san := Move2San(ToGrid(board.white), ToGrid(board.black), m.0, m.1);
      if san.None? {
        r := Err(Unnamed);
        return;
      }
      Commit(p, m, spend, g0);
      r := Ok(san.value);
    }

    /** The move applied to the board, and the warm-up count spent. */
    method Commit(ghost p: Position, m: Move, spend: bool, ghost g0: Dict)
      requires At(p) && Grows(g0, graph.graph) && m in LegalMoves(p)
      modifies this`warmup, board
      ensures Valid() && Grows(g0, graph.graph)
      ensures board.Key() == Successor(p, m)
      ensures warmup == if spend then old(warmup) - 1 else old(warmup)
    {
      if spend {
        warmup := warmup - 1;
      }
      MoveStaysOnBoard(board.Key(), m);
      var ok := board.MakeMove(m);
    }

    /** What the root loops keep: the board is the position `p` with its
        moves `moves`, and the graph keeps its invariant and its cached
        scores and has grown from `g0`. */
    ghost predicate RootFrame(p: Position, moves: seq<Move>, g0: Dict)
      reads board, board.white, board.black, graph
    {
      graph.Valid() && Memo(cfg, graph.graph) && Grows(g0, graph.graph) &&
      board.Shaped() && board.Key() == p && !IsCheckmate(p).0 &&
      board.moves == moves && moves == LegalMoves(p) && board.oppMoves == OppMoves(p)
    }

    /** The minimax agent's search of one move: a copy of the board sharing
        its arrays makes the move, and `minimax` is asked about the copy's
        key with its defaults. */
    method MinimaxRootChild(ghost p: Position, moves: seq<Move>, i: nat, ghost g0: Dict) returns (v: ExtReal)
      requires RootFrame(p, moves, g0) && i < |moves|
      modifies graph
      ensures RootFrame(p, moves, g0)
      ensures v == MinimaxRootValue(cfg, p, moves[i], true, 15)
    {
      ghost var g1 := graph.graph;
      var q := ChildKey(board, p, moves[i]);
      v := Minimax(TupleKey(q), true, 15);
      GrowsChain(g0, g1, graph.graph);
    }

    /** One round of the minimax agent's root loop: the move's value
        replaces the held move and value when it is strictly larger. */
    method MinimaxRootStep(ghost p: Position, moves: seq<Move>, ghost vs: seq<ExtReal>, i: nat, bestValue: ExtReal,
                           best: Option<Move>, ghost g0: Dict)
      returns (bestValue': ExtReal, best': Option<Move>)
      requires RootFrame(p, moves, g0) && Picked(moves, vs, i, bestValue, best) && i < |moves|
      requires vs == MinimaxRootValues(cfg, p, true, 15)
      modifies graph
      ensures RootFrame(p, moves, g0) && Picked(moves, vs, i + 1, bestValue', best')
    {
      var v := MinimaxRootChild(p, moves, i, g0);
      PickedStep(moves, vs, i, bestValue, best);
      bestValue', best' := bestValue, best;
      if Lt(bestValue, v) {
        bestValue', best' := v, Some(moves[i]);
      }
    }

    /** The minimax agent's root loop: the first move of maximal value. */
    method MinimaxRoot(ghost p: Position) returns (best: Option<Move>)
      requires At(p)
      modifies graph
      ensures At(p) && Grows(old(graph.graph), graph.graph)
      ensures best == MinimaxChoice(cfg, p)
      ensures best.Some? ==> best.value in LegalMoves(p)
    {
      var moves := board.moves;
      ghost var vs := MinimaxRootValues(cfg, p, true, 15);
      GrowsRefl(graph.graph);
      var bestValue;
      bestValue, best := MinimaxRootLoop(p, moves, vs, old(graph.graph));
      ChosenMember(moves, vs);
    }

    /** The loop over the moves. */
    method MinimaxRootLoop(ghost p: Position, moves: seq<Move>, ghost vs: seq<ExtReal>, ghost g0: Dict)
      returns (bestValue: ExtReal, best: Option<Move>)
      requires RootFrame(p, moves, g0) && vs == MinimaxRootValues(cfg, p, true, 15)
      modifies graph
      ensures RootFrame(p, moves, g0) && Picked(moves, vs, |moves|, bestValue, best)
    {
      bestValue, best := NegInf, None;
      PickedStart(moves, vs);
      for i := 0 to |moves|
        invariant RootFrame(p, moves, g0) && Picked(moves, vs, i, bestValue, best)
      {
        bestValue, best := MinimaxRootStep(p, moves, vs, i, bestValue, best, g0);
      }
    }

    /** What holds after a ply from `p`, with the graph at `g0` and the
        warm-up count at `w0` before it, that settled on `mv`: the result
        and the new position are those of playing `mv`, the graph has
        grown, and a warm-up ply that played its move used one up. */
    ghost predicate Played(p: Position, g0: Dict, w0: int, mv: Option<Move>, r: Result<string, PlyError>)
      reads this, board, board.white, board.black, graph
    {
      Valid() && Grows(g0, graph.graph) &&
      r == Outcome(p, mv) && board.Key() == After(p, mv, r) &&
      warmup == if w0 > 0 && r.Ok? then w0 - 1 else w0
    }

    /** The end of a ply: the move it settled on is played, using up a
        warm-up move while any remain, and a ply without one fails. */
    method Finish(ghost p: Position, mv: Option<Move>, ghost g0: Dict) returns (r: Result<string, PlyError>)
      requires At(p) && Grows(g0, graph.graph)
      requires mv.Some? ==> mv.value in LegalMoves(p)
      modifies this`warmup, board
      ensures Played(p, g0, old(warmup), mv, r)
    {
      if mv.None? {
        r := Err(NoBestMove);
        return;
      }
      r := Play(p, mv.value, warmup > 0, g0);
    }

    /** The move a minimax ply settles on: the move `pick` stands for (the
        random choice) during the warm-up, the root loop's afterwards. */
    method MinimaxDecide(ghost p: Position, pick: nat) returns (mv: Option<Move>)
      requires At(p) && (warmup > 0 ==> pick < |LegalMoves(p)|)
      modifies graph
      ensures At(p) && Grows(old(graph.graph), graph.graph)
      ensures mv == PlyMove(p, warmup, pick, MinimaxChoice(cfg, p))
      ensures mv.Some? ==> mv.value in LegalMoves(p)
    {
      if warmup > 0 {
        GrowsRefl(graph.graph);
        mv := Some(board.moves[pick]);
      } else {
        mv := MinimaxRoot(p);
      }
    }

    /** `MinimaxAgent.ply`: during the warm-up the move `pick` (the random
        choice) is played and the warm-up count drops; afterwards the root
        loop's move is played, and a ply without one fails. */
    method MinimaxPly(pick: nat) returns (r: Result<string, PlyError>)
      requires Valid() && !IsCheckmate(board.Key()).0
      requires warmup > 0 ==> pick < |board.moves|
      modifies this, board, graph
      ensures var p := old(board.Key());
              Played(p, old(graph.graph), old(warmup), PlyMove(p, old(warmup), pick, MinimaxChoice(cfg, p)), r)
    {
      ghost var p := board.Key();
      var mv := MinimaxDecide(p, pick);
      r := Finish(p, mv, old(graph.graph));
    }

    /** The alpha-beta agent's search of one move: `alphabeta` on the
        copy's key with the full window, at `depth`, with the roles
        swapped. */
    method AlphaBetaRootChild(ghost p: Position, moves: seq<Move>, i: nat, depth: int, maximizing: bool,
                              ghost g0: Dict) returns (v: ExtReal)
      requires RootFrame(p, moves, g0) && i < |moves|
      modifies graph
      ensures RootFrame(p, moves, g0)
      ensures v == AlphaBetaRootValue(cfg, p, moves[i], !maximizing, depth)
    {
      ghost var g1 := graph.graph;
      var q := ChildKey(board, p, moves[i]);
      v := AlphaBeta(TupleKey(q), NegInf, PosInf, !maximizing, depth);
      GrowsChain(g0, g1, graph.graph);
    }

    /** One round of the alpha-beta agent's root loop. */
    method AlphaBetaRootStep(ghost p: Position, moves: seq<Move>, ghost vs: seq<ExtReal>, i: nat, bestValue: ExtReal,
                             best: Option<Move>, depth: int, maximizing: bool, ghost g0: Dict)
      returns (bestValue': ExtReal, best': Option<Move>)
      requires RootFrame(p, moves, g0) && Picked(moves, vs, i, bestValue, best) && i < |moves|
      requires vs == AlphaBetaRootValues(cfg, p, !maximizing, depth)
      modifies graph
      ensures RootFrame(p, moves, g0) && Picked(moves, vs, i + 1, bestValue', best')
    {
      var v := AlphaBetaRootChild(p, moves, i, depth, maximizing, g0);
      PickedStep(moves, vs, i, bestValue, best);
      bestValue', best' := bestValue, best;
      if Lt(bestValue, v) {
        bestValue', best' := v, Some(moves[i]);
      }
    }

    /** The alpha-beta agent's root loop. */
    method AlphaBetaRoot(ghost p: Position, depth: int, maximizing: bool) returns (best: Option<Move>)
      requires At(p)
      modifies graph
      ensures At(p) && Grows(old(graph.graph), graph.graph)
      ensures best == AlphaBetaChoice(cfg, p, depth, maximizing)
      ensures best.Some? ==> best.value in LegalMoves(p)
    {
      var moves := board.moves;
      ghost var vs := AlphaBetaRootValues(cfg, p, !maximizing, depth);
      GrowsRefl(graph.graph);
      var bestValue;
      bestValue, best := AlphaBetaRootLoop(p, moves, vs, depth, maximizing, old(graph.graph));
      ChosenMember(moves, vs);
    }

    /** The loop over the moves. */
    method AlphaBetaRootLoop(ghost p: Position, moves: seq<Move>, ghost vs: seq<ExtReal>, depth: int, maximizing: bool, ghost g0: Dict)
      returns (bestValue: ExtReal, best: Option<Move>)
      requires RootFrame(p, moves, g0) && vs == AlphaBetaRootValues(cfg, p, !maximizing, depth)
      modifies graph
      ensures RootFrame(p, moves, g0) && Picked(moves, vs, |moves|, bestValue, best)
    {
      bestValue, best := NegInf, None;
      PickedStart(moves, vs);
      for i := 0 to |moves|
        invariant RootFrame(p, moves, g0) && Picked(moves, vs, i, bestValue, best)
      {
        bestValue, best := AlphaBetaRootStep(p, moves, vs, i, bestValue, best, depth, maximizing, g0);
      }
    }

    /** The move an alpha-beta ply settles on: the move `pick` stands for
        during the warm-up, the root loop's afterwards. */
    method AlphaBetaDecide(ghost p: Position, pick: nat, depth: int, maximizing: bool) returns (mv: Option<Move>)
      requires At(p) && (warmup > 0 ==> pick < |LegalMoves(p)|)
      modifies graph
      ensures At(p) && Grows(old(graph.graph), graph.graph)
      ensures mv == PlyMove(p, warmup, pick, AlphaBetaChoice(cfg, p, depth, maximizing))
      ensures mv.Some? ==> mv.value in LegalMoves(p)
    {
      if warmup > 0 {
        GrowsRefl(graph.graph);
        mv := Some(board.moves[pick]);
      } else {
        mv := AlphaBetaRoot(p, depth, maximizing);
      }
    }

    /** `AlphaBetaAgent.ply(depth, maximizing)`. */
    method AlphaBetaPly(pick: nat, depth: int, maximizing: bool) returns (r: Result<string, PlyError>)
      requires Valid() && !IsCheckmate(board.Key()).0
      requires warmup > 0 ==> pick < |board.moves|
      modifies this, board, graph
      ensures var p := old(board.Key());
              Played(p, old(graph.graph), old(warmup),
                     PlyMove(p, old(warmup), pick, AlphaBetaChoice(cfg, p, depth, maximizing)), r)
    {
      ghost var p := board.Key();
      var mv := AlphaBetaDecide(p, pick, depth, maximizing);
      r := Finish(p, mv, old(graph.graph));
    }
  }
}
