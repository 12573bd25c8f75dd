/** The fixed-depth searches, `minimax` and `alphabeta`, and the root choice
    made by both agents' `ply`, over a game given by its rules: which
    positions are playable, which are terminal, the evaluation, the
    children of a position in the order the position graph lists them, and
    a rank that every child lowers. Depth is any integer: a negative depth
    never reaches zero, and the walk then stops only at terminal positions,
    which the rank guarantees. The engine's own game is built in module
    Agents. */
module Search {
  import opened Common

  datatype Game<!P> = Game(ok: P -> bool, over: P -> bool, eval: P -> ExtReal,
                          next: P -> seq<P>, rank: P -> nat)

  /** The children of a playable, non-terminal position are playable and of
      lower rank. */
  ghost predicate Descends<P(!new)>(g: Game<P>) {
    forall p, i | g.ok(p) && !g.over(p) && 0 <= i < |g.next(p)| ::
      g.ok(g.next(p)[i]) && g.rank(g.next(p)[i]) < g.rank(p)
  }

  // ---------------------------------------------------------------------------
  // minimax

  /** `minimax`: the evaluation at depth 0 or at a terminal position, and
      otherwise the maximum (or minimum) of the children's values one level
      down, with the roles swapped. */
  function Minimax<P(!new)>(g: Game<P>, p: P, maximizing: bool, depth: int): ExtReal
    requires Descends(g) && g.ok(p)
    decreases g.rank(p), 1
  {
    if depth == 0 || g.over(p) then g.eval(p)
    else MinimaxOver(g, p, maximizing, depth - 1, |g.next(p)|)
  }

  /** The loop of `minimax` after its first `n` children: the running
      maximum from -inf, or the running minimum from +inf. */
  function MinimaxOver<P(!new)>(g: Game<P>, p: P, maximizing: bool, d: int, n: nat): ExtReal
    requires Descends(g) && g.ok(p) && !g.over(p) && n <= |g.next(p)|
    decreases g.rank(p), 0, n
  {
    if n == 0 then (if maximizing then NegInf else PosInf)
    else
      var v := Minimax(g, g.next(p)[n - 1], !maximizing, d);
      if maximizing then Max(MinimaxOver(g, p, maximizing, d, n - 1), v)
      else Min(MinimaxOver(g, p, maximizing, d, n - 1), v)
  }

  /** The running value bounds every child value seen so far and is one of
      them; before any child it is the sentinel. */
  lemma {:induction false} MinimaxOverIsExtreme<P(!new)>(g: Game<P>, p: P, maximizing: bool, d: int, n: nat)
    requires Descends(g) && g.ok(p) && !g.over(p) && n <= |g.next(p)|
    ensures maximizing ==> forall i | 0 <= i < n :: Le(Minimax(g, g.next(p)[i], !maximizing, d), MinimaxOver(g, p, maximizing, d, n))
    ensures !maximizing ==> forall i | 0 <= i < n :: Le(MinimaxOver(g, p, maximizing, d, n), Minimax(g, g.next(p)[i], !maximizing, d))
    ensures n == 0 ==> MinimaxOver(g, p, maximizing, d, n) == if maximizing then NegInf else PosInf
    ensures n > 0 ==> exists i | 0 <= i < n :: MinimaxOver(g, p, maximizing, d, n) == Minimax(g, g.next(p)[i], !maximizing, d)
  {
    if n > 0 {
      MinimaxOverIsExtreme(g, p, maximizing, d, n - 1);
      var m := MinimaxOver(g, p, maximizing, d, n);
      var prev := MinimaxOver(g, p, maximizing, d, n - 1);
      var v := Minimax(g, g.next(p)[n - 1], !maximizing, d);
      assert m == (if maximizing then Max(prev, v) else Min(prev, v));
      forall i | 0 <= i < n
        ensures maximizing ==> Le(Minimax(g, g.next(p)[i], !maximizing, d), m)
        ensures !maximizing ==> Le(m, Minimax(g, g.next(p)[i], !maximizing, d))
      {
        if i < n - 1 {
          if maximizing {
            LeTrans(Minimax(g, g.next(p)[i], !maximizing, d), prev, m);
          } else {
            LeTrans(m, prev, Minimax(g, g.next(p)[i], !maximizing, d));
          }
        }
      }
      if m != v {
        var j :| 0 <= j < n - 1 && prev == Minimax(g, g.next(p)[j], !maximizing, d);
        assert m == Minimax(g, g.next(p)[j], !maximizing, d);
      }
    }
  }

  /** What `minimax` promises: at depth 0 or a terminal position the
      evaluation; otherwise, when the position has children, a value that
      bounds every child's value (from above when maximizing, from below
      when minimizing) and that some child attains. */
  lemma MinimaxIsExtreme<P(!new)>(g: Game<P>, p: P, maximizing: bool, depth: int)
    requires Descends(g) && g.ok(p)
    ensures depth == 0 || g.over(p) ==> Minimax(g, p, maximizing, depth) == g.eval(p)
    ensures depth != 0 && !g.over(p) && |g.next(p)| > 0 ==>
              (exists i | 0 <= i < |g.next(p)| :: Minimax(g, p, maximizing, depth) == Minimax(g, g.next(p)[i], !maximizing, depth - 1)) &&
              (maximizing ==> forall i | 0 <= i < |g.next(p)| :: Le(Minimax(g, g.next(p)[i], !maximizing, depth - 1), Minimax(g, p, maximizing, depth))) &&
              (!maximizing ==> forall i | 0 <= i < |g.next(p)| :: Le(Minimax(g, p, maximizing, depth), Minimax(g, g.next(p)[i], !maximizing, depth - 1)))
  {
    if depth != 0 && !g.over(p) {
      MinimaxOverIsExtreme(g, p, maximizing, depth - 1, |g.next(p)|);
    }
  }

  /** The running maximum only grows and the running minimum only falls. */
  lemma {:induction false} MinimaxOverMonotone<P(!new)>(g: Game<P>, p: P, maximizing: bool, d: int, i: nat, n: nat)
    requires Descends(g) && g.ok(p) && !g.over(p) && i <= n <= |g.next(p)|
    ensures maximizing ==> Le(MinimaxOver(g, p, maximizing, d, i), MinimaxOver(g, p, maximizing, d, n))
    ensures !maximizing ==> Le(MinimaxOver(g, p, maximizing, d, n), MinimaxOver(g, p, maximizing, d, i))
    decreases n - i
  {
    if i < n {
      MinimaxOverMonotone(g, p, maximizing, d, i, n - 1);
      var x, y, z := MinimaxOver(g, p, maximizing, d, i), MinimaxOver(g, p, maximizing, d, n - 1),
                     MinimaxOver(g, p, maximizing, d, n);
      if maximizing {
        LeTrans(x, y, z);
      } else {
        LeTrans(z, y, x);
      }
    }
  }

  // ---------------------------------------------------------------------------
  // alphabeta

  /** `alphabeta` with the window (a, b). */
  function AlphaBeta<P(!new)>(g: Game<P>, p: P, a: ExtReal, b: ExtReal, maximizing: bool, depth: int): ExtReal
    requires Descends(g) && g.ok(p)
    decreases g.rank(p), 1
  {
    if depth == 0 || g.over(p) then g.eval(p)
    else if maximizing then ABMax(g, p, 0, a, b, depth - 1, NegInf)
    else ABMin(g, p, 0, a, b, depth - 1, PosInf)
  }

  /** The maximizing loop from child `i` on, with the current alpha `a` and
      running value: each child is searched with the window (a, b); the
      loop stops as soon as the value reaches b, and otherwise raises alpha
      to the value. */
  function ABMax<P(!new)>(g: Game<P>, p: P, i: nat, a: ExtReal, b: ExtReal, d: int, value: ExtReal): ExtReal
    requires Descends(g) && g.ok(p) && !g.over(p) && i <= |g.next(p)|
    decreases g.rank(p), 0, |g.next(p)| - i
  {
    if i == |g.next(p)| then value
    else
      var v := Max(value, AlphaBeta(g, g.next(p)[i], a, b, false, d));
      if Le(b, v) then v else ABMax(g, p, i + 1, Max(a, v), b, d, v)
  }

  /** The minimizing loop: it stops as soon as the value falls to a, and
      otherwise lowers beta to the value. */
  function ABMin<P(!new)>(g: Game<P>, p: P, i: nat, a: ExtReal, b: ExtReal, d: int, value: ExtReal): ExtReal
    requires Descends(g) && g.ok(p) && !g.over(p) && i <= |g.next(p)|
    decreases g.rank(p), 0, |g.next(p)| - i
  {
    if i == |g.next(p)| then value
    else
      var v := Min(value, AlphaBeta(g, g.next(p)[i], a, b, true, d));
      if Le(v, a) then v else ABMin(g, p, i + 1, a, Min(b, v), d, v)
  }

  /** The fail-soft window property of a search result r against the true
      value v: below the window r is an upper bound at least v, inside it r
      is v, above it r is a lower bound at most v. */
  predicate FailSoft(r: ExtReal, v: ExtReal, a: ExtReal, b: ExtReal) {
    && (Le(v, a) ==> Le(v, r) && Le(r, a))
    && (Lt(a, v) && Lt(v, b) ==> r == v)
    && (Le(b, v) ==> Le(b, r) && Le(r, v))
  }

  /** The maximizing loop's state against the true running maximum m:
      either both are at most the caller's alpha, with the value above m, or
      the value has passed alpha and is m. */
  predicate MaxState(m: ExtReal, value: ExtReal, a0: ExtReal) {
    (Le(m, value) && Le(value, a0)) || (Lt(a0, value) && m == value)
  }

  /** The minimizing loop's state, mirrored. */
  predicate MinState(m: ExtReal, value: ExtReal, b0: ExtReal) {
    (Le(value, m) && Le(b0, value)) || (Lt(value, b0) && m == value)
  }

  /** The step of the maximizing loop on a value below b, for a child whose
      search result r is fail-soft against its value mm in the window
      (max(a0, value), b): the state carries over to the new running values. */
  lemma MaxStep(m: ExtReal, mm: ExtReal, value: ExtReal, r: ExtReal, a0: ExtReal, b: ExtReal)
    requires MaxState(m, value, a0) && Lt(a0, b) && Lt(value, b)
    requires FailSoft(r, mm, Max(a0, value), b) && Lt(Max(value, r), b)
    ensures MaxState(Max(m, mm), Max(value, r), a0)
    ensures Max(Max(a0, value), Max(value, r)) == Max(a0, Max(value, r))
  {
  }

  /** The cut of the maximizing loop: the value reached b, so it is the
      child's result, and the child's value is at least it. */
  lemma MaxCut(mm: ExtReal, value: ExtReal, r: ExtReal, a: ExtReal, b: ExtReal)
    requires FailSoft(r, mm, a, b) && Lt(a, b) && Lt(value, b) && Le(b, Max(value, r))
    ensures Max(value, r) == r && Le(b, mm) && Le(r, mm)
  {
  }

  /** A result at or above b and at most the true value is fail-soft. */
  lemma AboveWindow(r: ExtReal, total: ExtReal, a0: ExtReal, b: ExtReal)
    requires Lt(a0, b) && Le(b, r) && Le(r, total)
    ensures FailSoft(r, total, a0, b)
  {
    LeTrans(b, r, total);
  }

  lemma MinStep(m: ExtReal, mm: ExtReal, value: ExtReal, r: ExtReal, a: ExtReal, b0: ExtReal)
    requires MinState(m, value, b0) && Lt(a, b0) && Lt(a, value)
    requires FailSoft(r, mm, a, Min(b0, value)) && Lt(a, Min(value, r))
    ensures MinState(Min(m, mm), Min(value, r), b0)
    ensures Min(Min(b0, value), Min(value, r)) == Min(b0, Min(value, r))
  {
  }

  lemma MinCut(mm: ExtReal, value: ExtReal, r: ExtReal, a: ExtReal, b: ExtReal)
    requires FailSoft(r, mm, a, b) && Lt(a, b) && Lt(a, value) && Le(Min(value, r), a)
    ensures Min(value, r) == r && Le(mm, a) && Le(mm, r)
  {
  }

  lemma BelowWindow(r: ExtReal, total: ExtReal, a: ExtReal, b0: ExtReal)
    requires Lt(a, b0) && Le(r, a) && Le(total, r)
    ensures FailSoft(r, total, a, b0)
  {
    LeTrans(total, r, a);
  }

  /** The window lemma for one position: alpha-beta's result satisfies the
      fail-soft property against the minimax value. */
  lemma {:induction false} AlphaBetaFailSoft<P(!new)>(g: Game<P>, p: P, a: ExtReal, b: ExtReal, maximizing: bool, depth: int)
    requires Descends(g) && g.ok(p) && Lt(a, b)
    ensures FailSoft(AlphaBeta(g, p, a, b, maximizing, depth), Minimax(g, p, maximizing, depth), a, b)
    decreases g.rank(p), 1
  {
    if depth == 0 || g.over(p) {
    } else if maximizing {
      assert Max(a, NegInf) == a;
      ABMaxFailSoft(g, p, 0, a, b, depth - 1, NegInf);
    } else {
      assert Min(b, PosInf) == b;
      ABMinFailSoft(g, p, 0, a, b, depth - 1, PosInf);
    }
  }

  lemma {:induction false} ABMaxFailSoft<P(!new)>(g: Game<P>, p: P, i: nat, a0: ExtReal, b: ExtReal, d: int, value: ExtReal)
    requires Descends(g) && g.ok(p) && !g.over(p) && i <= |g.next(p)|
    requires Lt(a0, b) && Lt(value, b)
    requires MaxState(MinimaxOver(g, p, true, d, i), value, a0)
    ensures FailSoft(ABMax(g, p, i, Max(a0, value), b, d, value), MinimaxOver(g, p, true, d, |g.next(p)|), a0, b)
    decreases g.rank(p), 0, |g.next(p)| - i
  {
    var n := |g.next(p)|;
    if i == n {
      return;
    }
    var a := Max(a0, value);
    var c := g.next(p)[i];
    var r := AlphaBeta(g, c, a, b, false, d);
    var mm := Minimax(g, c, false, d);
    assert Lt(a, b);
    AlphaBetaFailSoft(g, c, a, b, false, d);
    var v := Max(value, r);
    var m1 := MinimaxOver(g, p, true, d, i + 1);
    assert m1 == Max(MinimaxOver(g, p, true, d, i), mm);
    if Le(b, v) {
      assert ABMax(g, p, i, a, b, d, value) == v;
      MaxCut(mm, value, r, a, b);
      MinimaxOverMonotone(g, p, true, d, i + 1, n);
      LeTrans(r, mm, m1);
      LeTrans(r, m1, MinimaxOver(g, p, true, d, n));
      AboveWindow(r, MinimaxOver(g, p, true, d, n), a0, b);
    } else {
      assert ABMax(g, p, i, a, b, d, value) == ABMax(g, p, i + 1, Max(a, v), b, d, v);
      MaxStep(MinimaxOver(g, p, true, d, i), mm, value, r, a0, b);
      ABMaxFailSoft(g, p, i + 1, a0, b, d, v);
    }
  }

  lemma {:induction false} ABMinFailSoft<P(!new)>(g: Game<P>, p: P, i: nat, a: ExtReal, b0: ExtReal, d: int, value: ExtReal)
    requires Descends(g) && g.ok(p) && !g.over(p) && i <= |g.next(p)|
    requires Lt(a, b0) && Lt(a, value)
    requires MinState(MinimaxOver(g, p, false, d, i), value, b0)
    ensures FailSoft(ABMin(g, p, i, a, Min(b0, value), d, value), MinimaxOver(g, p, false, d, |g.next(p)|), a, b0)
    decreases g.rank(p), 0, |g.next(p)| - i
  {
    var n := |g.next(p)|;
    if i == n {
      return;
    }
    var b := Min(b0, value);
    var c := g.next(p)[i];
    var r := AlphaBeta(g, c, a, b, true, d);
    var mm := Minimax(g, c, true, d);
    assert Lt(a, b);
    AlphaBetaFailSoft(g, c, a, b, true, d);
    var v := Min(value, r);
    var m1 := MinimaxOver(g, p, false, d, i + 1);
    assert m1 == Min(MinimaxOver(g, p, false, d, i), mm);
    if Le(v, a) {
      assert ABMin(g, p, i, a, b, d, value) == v;
      MinCut(mm, value, r, a, b);
      MinimaxOverMonotone(g, p, false, d, i + 1, n);
      LeTrans(m1, mm, r);
      LeTrans(MinimaxOver(g, p, false, d, n), m1, r);
      BelowWindow(r, MinimaxOver(g, p, false, d, n), a, b0);
    } else {
      assert ABMin(g, p, i, a, b, d, value) == ABMin(g, p, i + 1, a, Min(b, v), d, v);
      MinStep(MinimaxOver(g, p, false, d, i), mm, value, r, a, b0);
      ABMinFailSoft(g, p, i + 1, a, b0, d, v);
    }
  }

  /** With the full window (-inf, +inf) alpha-beta returns the minimax value. */
  lemma AlphaBetaFullWindow<P(!new)>(g: Game<P>, p: P, maximizing: bool, depth: int)
    requires Descends(g) && g.ok(p)
    ensures AlphaBeta(g, p, NegInf, PosInf, maximizing, depth) == Minimax(g, p, maximizing, depth)
  {
    AlphaBetaFailSoft(g, p, NegInf, PosInf, maximizing, depth);
  }

  /** Strictly inside the window alpha-beta is exact. */
  lemma AlphaBetaInWindow<P(!new)>(g: Game<P>, p: P, a: ExtReal, b: ExtReal, maximizing: bool, depth: int)
    requires Descends(g) && g.ok(p)
    requires Lt(a, Minimax(g, p, maximizing, depth)) && Lt(Minimax(g, p, maximizing, depth), b)
    ensures AlphaBeta(g, p, a, b, maximizing, depth) == Minimax(g, p, maximizing, depth)
  {
    LeTrans(a, Minimax(g, p, maximizing, depth), b);
    AlphaBetaFailSoft(g, p, a, b, maximizing, depth);
  }

  // ---------------------------------------------------------------------------
  // The root choice of `ply`

  /** The root loop after the first `n` values: the best value so far from
      -inf and the index that gave it, replaced only on a strictly larger
      value. */
  function Pick(vals: seq<ExtReal>, n: nat): (r: (ExtReal, Option<nat>))
    requires n <= |vals|
    ensures r.1.Some? ==> r.1.value < n
  {
    if n == 0 then (NegInf, None)
    else
      var best := Pick(vals, n - 1);
      if Lt(best.0, vals[n - 1]) then (vals[n - 1], Some(n - 1)) else best
  }

  /** The root loop keeps the first maximal value; it has no move exactly when
      every value is -inf. */
  lemma {:induction false} PickFirstMaximum(vals: seq<ExtReal>, n: nat)
    requires n <= |vals|
    ensures Pick(vals, n).1 == None <==> forall k | 0 <= k < n :: vals[k] == NegInf
    ensures Pick(vals, n).1 == None ==> Pick(vals, n).0 == NegInf
    ensures Pick(vals, n).1.Some? ==>
              var j := Pick(vals, n).1.value;
              j < n && Pick(vals, n).0 == vals[j] && vals[j] != NegInf &&
              (forall k | 0 <= k < n :: Le(vals[k], vals[j])) &&
              (forall k | 0 <= k < j :: Lt(vals[k], vals[j]))
  {
    if n > 0 {
      PickFirstMaximum(vals, n - 1);
      var prev := Pick(vals, n - 1);
      var x := vals[n - 1];
      if Lt(prev.0, x) {
        forall k | 0 <= k < n - 1 ensures Lt(vals[k], x) {
          if prev.1.Some? {
            LeTrans(vals[k], prev.0, x);
            if vals[k] == x {
              LeAntisym(prev.0, x);
            }
          }
        }
      } else {
        LeTotal(prev.0, x);
        if prev.1.None? {
          assert x == NegInf;
        }
      }
    }
  }
}
