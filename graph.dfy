/** The search graph shared by the searching agents: a dictionary from a
    position's key to its node. Nodes are added on first request and expanded
    lazily, once: expansion gives a node one child key per distinct successor
    position and records the node among each child's parents. */
module Graphs {
  import opened Common
  import opened Board

  // ---------------------------------------------------------------------------
  // Keys

  /** The text of one 10x10 array, one character per cell in row-major order.
      It stands for numpy's `array2string`, of which the engine uses only
      that it tells arrays apart. */
  function Render(g: Grid): (s: string)
    ensures |s| == 100
  {
    seq(100, k requires 0 <= k < 100 => if CellAt(k) in g then 'T' else 'F')
  }

  function TurnText(t: bool): string {
    if t then "True" else "False"
  }

  /** The key of a (white, black, white_turn) tuple. */
  function KeyOf(p: Position): string {
    Render(p.white) + Render(p.black) + TurnText(p.whiteTurn)
  }

  /** What `get_key` accepts: a key already in text form, or a position tuple. */
  datatype BoardKey = StrKey(s: string) | TupleKey(pos: Position)

  /** `get_key`. */
  function GetKey(key: BoardKey): string {
    match key
    case StrKey(s) => s
    case TupleKey(p) => KeyOf(p)
  }

  lemma RenderInjective(g: Grid, h: Grid)
    requires WindowGrid(g) && WindowGrid(h) && Render(g) == Render(h)
    ensures g == h
  {
    forall x | x in g ensures x in h {
      CellIndex(x);
      assert Render(g)[IndexOf(x)] == 'T';
    }
    forall x | x in h ensures x in g {
      CellIndex(x);
      assert Render(h)[IndexOf(x)] == 'T';
    }
  }

  /** Two positions on the array have the same key exactly when they are equal. */
  lemma KeyOfInjective(p: Position, q: Position)
    requires WindowPos(p) && WindowPos(q)
    ensures KeyOf(p) == KeyOf(q) <==> p == q
  {
    if KeyOf(p) == KeyOf(q) {
      var kp, kq := KeyOf(p), KeyOf(q);
      assert kp[..100] == Render(p.white) && kq[..100] == Render(q.white);
      assert kp[100..200] == Render(p.black) && kq[100..200] == Render(q.black);
      RenderInjective(p.white, q.white);
      RenderInjective(p.black, q.black);
      assert |TurnText(p.whiteTurn)| == |kp| - 200 == |kq| - 200 == |TurnText(q.whiteTurn)|;
    }
  }

  /** `get_key` passes text unchanged and sends tuples to a text determined by
      the position alone, different for different positions. */
  lemma GetKeyFacts(s: string, p: Position, q: Position)
    requires WindowPos(p) && WindowPos(q)
    ensures GetKey(StrKey(s)) == s
    ensures GetKey(TupleKey(p)) == GetKey(TupleKey(q)) <==> p == q
  {
    KeyOfInjective(p, q);
  }

  /** The keys of a list of positions, in order. */
  function KeysOf(ps: seq<Position>): (ks: seq<string>)
    ensures |ks| == |ps|
    ensures forall i :: 0 <= i < |ps| ==> ks[i] == KeyOf(ps[i])
  {
    seq(|ps|, i requires 0 <= i < |ps| => KeyOf(ps[i]))
  }

  /** The child keys expansion gives a node: the keys of its distinct
      successors, in generation order. */
  function ChildKeys(p: Position): seq<string> {
    KeysOf(Children(p))
  }

  lemma KeysOfAppend(ps: seq<Position>, q: Position)
    ensures KeysOf(ps + [q]) == KeysOf(ps) + [KeyOf(q)]
  {
  }

  /** One more position extends the distinct keys of a prefix by its key, unless already there. */
  lemma DedupKeysStep(s: seq<Position>, i: nat)
    requires i < |s|
    ensures var d := Dedup(KeysOf(s[..i]));
            Dedup(KeysOf(s[..i + 1])) == if KeyOf(s[i]) in d then d else d + [KeyOf(s[i])]
  {
    assert s[..i + 1] == s[..i] + [s[i]];
    KeysOfAppend(s[..i], s[i]);
    assert KeysOf(s[..i + 1])[..i] == KeysOf(s[..i]);
  }

  /** Keeping first occurrences commutes with taking keys, as no two positions
      on the array share a key. */
  lemma {:induction false} DedupKeys(ps: seq<Position>)
    requires forall i :: 0 <= i < |ps| ==> WindowPos(ps[i])
    ensures Dedup(KeysOf(ps)) == KeysOf(Dedup(ps))
    decreases |ps|
  {
    if ps != [] {
      var init, q := ps[..|ps| - 1], ps[|ps| - 1];
      assert ps == init + [q];
      DedupKeys(init);
      KeysOfAppend(init, q);
      assert KeysOf(ps)[..|ps| - 1] == KeysOf(init);
      var d := Dedup(init);
      assert KeyOf(q) in KeysOf(d) <==> q in d by {
        if KeyOf(q) in KeysOf(d) {
          var j :| 0 <= j < |d| && KeysOf(d)[j] == KeyOf(q);
          assert d[j] in init;
          KeyOfInjective(d[j], q);
        }
      }
      if q !in d {
        KeysOfAppend(d, q);
      }
    }
  }

  /** The child keys name each successor position exactly once, in the order
      of first generation. */
  lemma ChildKeysExactly(p: Position)
    requires InteriorPos(p)
    ensures ChildKeys(p) == Dedup(KeysOf(Successors(p)))
    ensures NoDup(ChildKeys(p))
    ensures forall k :: k in ChildKeys(p) <==> exists i :: 0 <= i < |Successors(p)| && k == KeyOf(Successors(p)[i])
  {
    ChildrenFacts(p);
    var s := Successors(p);
    forall i | 0 <= i < |s| ensures WindowPos(s[i]) {
      assert s[i] in Children(p);
    }
    DedupKeys(s);
  }

  // ---------------------------------------------------------------------------
  // Nodes and the graph invariant

  /** `Graph.Node`. The board is held as a position value; its cached move
      list is `LegalMoves(board)`. */
  datatype Node = Node(board: Position, isTerminal: (bool, bool), isComputed: bool, isExploited: bool,
                       h: ExtReal, children: seq<string>, parents: seq<string>)

  /** A node as first created: terminal status from `is_checkmate`, a zero,
      not yet computed score, not expanded, no links. */
  function NewNode(p: Position): Node {
    Node(p, IsCheckmate(p), false, false, Fin(0.0), [], [])
  }

  type Dict = map<string, Node>

  /** The node sits under its own key, holds a position on the array and the
      terminal status of that position. */
  ghost predicate Keyed(k: string, n: Node) {
    KeyOf(n.board) == k && WindowPos(n.board) && n.isTerminal == IsCheckmate(n.board)
  }

  /** A node's children are all its child keys once it is expanded, none before. */
  ghost predicate Complete(n: Node) {
    n.children == if n.isExploited then ChildKeys(n.board) else []
  }

  ghost predicate WellKeyed(m: Dict) {
    forall k | k in m :: Keyed(k, m[k])
  }

  /** Children and parents name nodes of the graph, each child lists its
      parent, each parent lists its child, and no list repeats a key. */
  ghost predicate Linked(m: Dict) {
    && (forall k, c | k in m && c in m[k].children :: c in m && k in m[c].parents)
    && (forall k, q | k in m && q in m[k].parents :: q in m && k in m[q].children)
    && (forall k | k in m :: NoDup(m[k].children) && NoDup(m[k].parents))
  }

  /** Every node except possibly `e` is complete. */
  ghost predicate CompleteBut(m: Dict, e: string) {
    forall x | x in m && x != e :: Complete(m[x])
  }

  ghost predicate GraphInv(m: Dict) {
    WellKeyed(m) && Linked(m) && forall k | k in m :: Complete(m[k])
  }

  /** The state inside `exploit`'s loop for node `k`: the invariant holds for
      every other node, and `k` has gathered the children `kids` so far. */
  ghost predicate Exploiting(m: Dict, k: string, p: Position, kids: seq<string>) {
    && k in m && m[k].board == p && m[k].children == kids
    && WellKeyed(m) && Linked(m) && CompleteBut(m, k)
  }

  /** Keys are never removed and a key's position never changes. */
  ghost predicate Grows(m0: Dict, m1: Dict) {
    forall k | k in m0 :: k in m1 && m1[k].board == m0[k].board
  }

  /** Scores are left alone and new nodes have none. */
  ghost predicate KeepsScores(m0: Dict, m1: Dict) {
    forall k | k in m1 ::
      if k in m0 then m1[k].isComputed == m0[k].isComputed && m1[k].h == m0[k].h else !m1[k].isComputed
  }

  /** Expanding `k` would change nothing: it is expanded, or has no move. */
  ghost predicate Ready(m: Dict, k: string) {
    k in m && (m[k].isExploited || |LegalMoves(m[k].board)| == 0)
  }

  /** The position a key stands for: a tuple's own position, or the position
      of the node already under a text key. */
  function KeyBoard(m: Dict, key: BoardKey): Position
    requires key.StrKey? ==> key.s in m
  {
    match key
    case StrKey(s) => m[s].board
    case TupleKey(p) => p
  }

  /** Under the invariant, an expanded node's children are the nodes of its
      distinct successors, and each lists it as a parent. */
  lemma ChildBoards(m: Dict, k: string)
    requires GraphInv(m) && k in m && InteriorPos(m[k].board)
    requires m[k].children == ChildKeys(m[k].board)
    ensures forall i | 0 <= i < |m[k].children| ::
              m[k].children[i] in m && m[m[k].children[i]].board == Children(m[k].board)[i] &&
              k in m[m[k].children[i]].parents
  {
    var p := m[k].board;
    var cs := Children(p);
    ChildrenFacts(p);
    forall i | 0 <= i < |m[k].children|
      ensures m[k].children[i] in m && m[m[k].children[i]].board == cs[i]
      ensures k in m[m[k].children[i]].parents
    {
      assert cs[i] in cs;
      ChildBoard(m, k, m[k].children[i], cs[i]);
    }
  }

  lemma ChildBoard(m: Dict, k: string, c: string, q: Position)
    requires WellKeyed(m) && Linked(m) && k in m
    requires c in m[k].children && c == KeyOf(q) && WindowPos(q)
    ensures c in m && m[c].board == q && k in m[c].parents
  {
    assert Keyed(c, m[c]);
    KeyOfInjective(m[c].board, q);
  }

  // ---------------------------------------------------------------------------
  // How the updates keep the invariant

  /** `exploit`'s two list updates for the child key `c` of `k`: `c` joins
      `k`'s children and `k` joins `c`'s parents, each unless already there. */
  function Link(m: Dict, k: string, c: string): Dict
    requires k in m && c in m
  {
    var m1 := if c in m[k].children then m else m[k := m[k].(children := m[k].children + [c])];
    if k in m1[c].parents then m1 else m1[c := m1[c].(parents := m1[c].parents + [k])]
  }

  lemma KeyedUpdate(m: Dict, k: string, n: Node)
    requires WellKeyed(m) && Keyed(k, n)
    ensures WellKeyed(m[k := n])
  {
  }

  lemma CompleteUpdate(m: Dict, e: string, k: string, n: Node)
    requires CompleteBut(m, e) && (k != e ==> Complete(n))
    ensures CompleteBut(m[k := n], e)
  {
  }

  /** Changing anything but the lists keeps the links. */
  lemma LinkedSameLists(m: Dict, k: string, n: Node)
    requires Linked(m) && k in m && n.children == m[k].children && n.parents == m[k].parents
    ensures Linked(m[k := n])
  {
    var m' := m[k := n];
    assert forall x, c | x in m' && c in m'[x].children :: c in m' && x in m'[c].parents;
    assert forall x, r | x in m' && r in m'[x].parents :: r in m' && x in m'[r].children;
    assert forall x | x in m' :: NoDup(m'[x].children) && NoDup(m'[x].parents);
  }

  lemma LinkedFresh(m: Dict, k: string, n: Node)
    requires Linked(m) && k !in m && n.children == [] && n.parents == []
    ensures Linked(m[k := n])
  {
    var m' := m[k := n];
    assert forall x, c | x in m' && c in m'[x].children :: c in m' && x in m'[c].parents;
    assert forall x, r | x in m' && r in m'[x].parents :: r in m' && x in m'[r].children;
    assert forall x | x in m' :: NoDup(m'[x].children) && NoDup(m'[x].parents);
  }

  /** What linking changes: only the two lists, each by at most the one key. */
  lemma LinkShape(m: Dict, k: string, c: string)
    requires k in m && c in m && k != c
    ensures var m' := Link(m, k, c);
            m'.Keys == m.Keys &&
            (forall x | x in m :: m'[x].board == m[x].board && m'[x].isTerminal == m[x].isTerminal &&
               m'[x].isExploited == m[x].isExploited && m'[x].isComputed == m[x].isComputed && m'[x].h == m[x].h) &&
            (forall x | x in m && x != k :: m'[x].children == m[x].children) &&
            (forall x | x in m && x != c :: m'[x].parents == m[x].parents) &&
            m'[k].children == (if c in m[k].children then m[k].children else m[k].children + [c]) &&
            m'[c].parents == (if k in m[c].parents then m[c].parents else m[c].parents + [k])
  {
  }

  lemma NoDupAppend(s: seq<string>, x: string)
    requires NoDup(s) && x !in s
    ensures NoDup(s + [x])
  {
  }

  lemma LinkedLink(m: Dict, k: string, c: string)
    requires Linked(m) && k in m && c in m && k != c
    ensures Linked(Link(m, k, c))
  {
    var m' := Link(m, k, c);
    LinkShape(m, k, c);
    forall x, y | x in m' && y in m'[x].children ensures y in m' && x in m'[y].parents {
      if !(x == k && y == c) {
        assert y in m[x].children;
        assert x in m[y].parents;
      }
    }
    forall x, r | x in m' && r in m'[x].parents ensures r in m' && x in m'[r].children {
      if !(x == c && r == k) {
        assert r in m[x].parents;
        assert x in m[r].children;
      }
    }
    forall x | x in m' ensures NoDup(m'[x].children) && NoDup(m'[x].parents) {
      if x == k && c !in m[k].children {
        NoDupAppend(m[k].children, c);
      }
      if x == c && k !in m[c].parents {
        NoDupAppend(m[c].parents, k);
      }
    }
  }

  lemma FreshKeeps(m: Dict, k: string, p: Position, kids: seq<string>, q: Position)
    requires Exploiting(m, k, p, kids) && KeyOf(q) !in m && WindowPos(q)
    ensures Exploiting(m[KeyOf(q) := NewNode(q)], k, p, kids)
  {
    KeyedUpdate(m, KeyOf(q), NewNode(q));
    LinkedFresh(m, KeyOf(q), NewNode(q));
    CompleteUpdate(m, k, KeyOf(q), NewNode(q));
  }

  lemma FreshKeepsInv(m: Dict, q: Position)
    requires GraphInv(m) && KeyOf(q) !in m && WindowPos(q)
    ensures GraphInv(m[KeyOf(q) := NewNode(q)])
  {
    KeyedUpdate(m, KeyOf(q), NewNode(q));
    LinkedFresh(m, KeyOf(q), NewNode(q));
  }

  lemma LinkKeeps(m: Dict, k: string, p: Position, kids: seq<string>, c: string)
    requires Exploiting(m, k, p, kids) && c in m && c != k
    ensures Exploiting(Link(m, k, c), k, p, if c in kids then kids else kids + [c])
    ensures k in Link(m, k, c)[c].parents
  {
    var m' := Link(m, k, c);
    LinkShape(m, k, c);
    LinkedLink(m, k, c);
    forall x | x in m' ensures Keyed(x, m'[x]) {
      assert Keyed(x, m[x]);
    }
    forall x | x in m' && x != k ensures Complete(m'[x]) {
      assert Complete(m[x]);
    }
  }

  lemma MarkKeeps(m: Dict, k: string, p: Position, kids: seq<string>)
    requires Exploiting(m, k, p, kids)
    ensures Exploiting(m[k := m[k].(isExploited := true)], k, p, kids)
  {
    var n := m[k].(isExploited := true);
    assert Keyed(k, m[k]);
    KeyedUpdate(m, k, n);
    LinkedSameLists(m, k, n);
    CompleteUpdate(m, k, k, n);
  }

  /** The invariant, with node `k` not yet expanded, is the loop's start. */
  lemma StartExploiting(m: Dict, k: string)
    requires GraphInv(m) && k in m && !m[k].isExploited
    ensures Exploiting(m, k, m[k].board, [])
  {
    assert Complete(m[k]);
  }

  /** The loop's end, with all child keys gathered, is the invariant again. */
  lemma EndExploiting(m: Dict, k: string, p: Position)
    requires Exploiting(m, k, p, ChildKeys(p))
    requires m[k].isExploited || ChildKeys(p) == []
    ensures GraphInv(m)
  {
    assert Complete(m[k]);
  }

  /** With every successor visited, the node holds all its child keys and
      the invariant is whole again. */
  lemma ExploitDone(m0: Dict, m: Dict, k: string, p: Position, s: seq<Position>)
    requires InteriorPos(p) && s == Successors(p) && k in m0 && m0[k].board == p
    requires Exploiting(m, k, p, Dedup(KeysOf(s[..|s|])))
    requires m[k].isExploited == (|s| > 0)
    requires |s| == 0 ==> m == m0
    requires Grows(m0, m) && KeepsScores(m0, m)
    ensures GraphInv(m)
    ensures k in m && m[k].board == m0[k].board
    ensures m[k].children == ChildKeys(m[k].board)
    ensures m[k].isExploited <==> |LegalMoves(m[k].board)| > 0
    ensures |LegalMoves(m[k].board)| == 0 ==> m == m0
    ensures Grows(m0, m) && KeepsScores(m0, m)
  {
    assert s[..|s|] == s;
    ChildKeysExactly(p);
    EndExploiting(m, k, p);
  }

  /** Writing a node's score keeps the invariant. */
  lemma ScoreKeeps(m: Dict, k: string, h: ExtReal)
    requires GraphInv(m) && k in m
    ensures GraphInv(m[k := m[k].(h := h, isComputed := true)])
  {
    var n := m[k].(h := h, isComputed := true);
    assert Keyed(k, m[k]) && Complete(m[k]);
    KeyedUpdate(m, k, n);
    LinkedSameLists(m, k, n);
  }

  /** Adding a node, relinking or marking grows the graph and keeps its scores. */
  lemma FreshGrows(m: Dict, q: Position)
    requires KeyOf(q) !in m
    ensures Grows(m, m[KeyOf(q) := NewNode(q)]) && KeepsScores(m, m[KeyOf(q) := NewNode(q)])
  {
  }

  lemma LinkGrows(m: Dict, k: string, c: string)
    requires k in m && c in m && k != c
    ensures Grows(m, Link(m, k, c)) && KeepsScores(m, Link(m, k, c))
    ensures Link(m, k, c)[c].board == m[c].board
  {
    LinkShape(m, k, c);
  }

  lemma MarkGrows(m: Dict, k: string)
    requires k in m
    ensures Grows(m, m[k := m[k].(isExploited := true)]) && KeepsScores(m, m[k := m[k].(isExploited := true)])
  {
  }

  lemma GrowsTrans(m0: Dict, m1: Dict, m2: Dict)
    requires Grows(m0, m1) && KeepsScores(m0, m1) && Grows(m1, m2) && KeepsScores(m1, m2)
    ensures Grows(m0, m2) && KeepsScores(m0, m2)
  {
    forall k | k in m2 ensures
      if k in m0 then m2[k].isComputed == m0[k].isComputed && m2[k].h == m0[k].h else !m2[k].isComputed
    {
      if k in m1 {
        assert m2[k].isComputed == m1[k].isComputed && m2[k].h == m1[k].h;
      }
    }
  }

  lemma GrowsRefl(m: Dict)
    ensures Grows(m, m) && KeepsScores(m, m)
  {
  }

  class Graph {
    var graph: Dict

    ghost predicate Valid()
      reads this
    {
      GraphInv(graph)
    }

    constructor ()
      ensures Valid() && graph == map[]
    {
      graph := map[];
    }

    /** Caches the score `h` on the node under `k` and marks it computed. */
    method SetScore(k: string, h: ExtReal)
      requires Valid() && k in graph
      modifies this
      ensures Valid()
      ensures graph == old(graph)[k := old(graph)[k].(h := h, isComputed := true)]
    {
      ScoreKeeps(graph, k, h);
      graph := graph[k := graph[k].(h := h, isComputed := true)];
    }

    /** `add_node`, at its one call site: the key is not yet in the graph. */
    method AddNode(p: Position)
      requires Valid() && WindowPos(p) && KeyOf(p) !in graph
      modifies this
      ensures Valid()
      ensures graph == old(graph)[KeyOf(p) := NewNode(p)]
    {
      FreshKeepsInv(graph, p);
      graph := graph[KeyOf(p) := NewNode(p)];
    }

    /** One pass of `exploit`'s loop, for the successor `q` of the node `k`:
        add a node for `q` if it is new, add its key to `k`'s children and
        `k` to its parents unless already there, and mark `k` expanded. */
    method Visit(k: string, q: Position, ghost p: Position, ghost kids: seq<string>)
      requires Exploiting(graph, k, p, kids)
      requires WindowPos(q) && KeyOf(q) != k
      modifies this
      ensures Exploiting(graph, k, p, if KeyOf(q) in kids then kids else kids + [KeyOf(q)])
      ensures graph[k].isExploited
      ensures KeyOf(q) in graph && graph[KeyOf(q)].board == q
      ensures Grows(old(graph), graph) && KeepsScores(old(graph), graph)
    {
      var ck := KeyOf(q);
      ghost var g0 := graph;
      if ck !in graph {
        FreshKeeps(graph, k, p, kids, q);
        FreshGrows(graph, q);
        graph := graph[ck := NewNode(q)];
      } else {
        KeyOfInjective(graph[ck].board, q);
        GrowsRefl(graph);
      }
      ghost var g1 := graph;
      LinkKeeps(g1, k, p, kids, ck);
      LinkGrows(g1, k, ck);
      GrowsTrans(g0, g1, Link(g1, k, ck));
      graph := Link(graph, k, ck);
      ghost var g2 := graph;
      MarkKeeps(graph, k, p, if ck in kids then kids else kids + [ck]);
      MarkGrows(graph, k);
      graph := graph[k := graph[k].(isExploited := true)];
      GrowsTrans(g0, g2, graph);
    }

    /** The body of `exploit`'s loop for the `i`-th move: the node has then
        gathered the distinct keys of the first `i + 1` successors. */
    method ExploitStep(k: string, p: Position, ms: seq<Move>, i: nat, ghost g0: Dict)
      requires InteriorPos(p) && ms == LegalMoves(p) && i < |ms|
      requires Exploiting(graph, k, p, Dedup(KeysOf(Successors(p)[..i])))
      requires Grows(g0, graph) && KeepsScores(g0, graph)
      modifies this
      ensures Exploiting(graph, k, p, Dedup(KeysOf(Successors(p)[..i + 1])))
      ensures graph[k].isExploited
      ensures Grows(g0, graph) && KeepsScores(g0, graph)
    {
      var q := Successor(p, ms[i]);
      ghost var s := Successors(p);
      assert q == s[i];
      MoveLowersPotential(p, ms[i]);
      MoveStaysOnBoard(p, ms[i]);
      ghost var g := graph;
      assert Keyed(k, graph[k]);
      KeyOfInjective(p, q);
      Visit(k, q, p, Dedup(KeysOf(s[..i])));
      GrowsTrans(g0, g, graph);
      DedupKeysStep(s, i);
    }

    /** `exploit`, at its one call site: a node not yet expanded, on the
        playable board. Its children become the keys of its distinct
        successors; a node with no move is left unmarked and unchanged. */
    method Exploit(k: string)
      requires Valid() && k in graph && !graph[k].isExploited && InteriorPos(graph[k].board)
      modifies this
      ensures Valid()
      ensures k in graph && graph[k].board == old(graph[k].board)
      ensures graph[k].children == ChildKeys(graph[k].board)
      ensures graph[k].isExploited <==> |LegalMoves(graph[k].board)| > 0
      ensures |LegalMoves(graph[k].board)| == 0 ==> graph == old(graph)
      ensures Grows(old(graph), graph) && KeepsScores(old(graph), graph)
    {
      var p := graph[k].board;
      var ms := LegalMoves(p);
      ghost var s := Successors(p);
      StartExploiting(graph, k);
      GrowsRefl(graph);
      var i := 0;
      while i < |ms|
        invariant 0 <= i <= |ms|
        invariant Exploiting(graph, k, p, Dedup(KeysOf(s[..i])))
        invariant graph[k].isExploited == (i > 0)
        invariant Grows(old(graph), graph) && KeepsScores(old(graph), graph)
        invariant i == 0 ==> graph == old(graph)
      {
        ExploitStep(k, p, ms, i, old(graph));
        i := i + 1;
      }
      ExploitDone(old(graph), graph, k, p, s);
    }

    /** The first half of `get_node`: the key's node, added when the key is new. */
    method Locate(key: BoardKey) returns (k: string)
      requires Valid()
      requires key.StrKey? ==> key.s in graph
      requires WindowPos(KeyBoard(graph, key))
      modifies this
      ensures Valid()
      ensures k == GetKey(key) && k in graph && graph[k].board == KeyBoard(old(graph), key)
      ensures k in old(graph) ==> graph == old(graph)
      ensures k !in old(graph) ==> !graph[k].isExploited
      ensures Grows(old(graph), graph) && KeepsScores(old(graph), graph)
    {
      k := GetKey(key);
      if k !in graph {
        FreshGrows(graph, key.pos);
        AddNode(key.pos);
      } else {
        GrowsRefl(graph);
        if key.TupleKey? {
          assert Keyed(k, graph[k]);
          KeyOfInjective(graph[k].board, key.pos);
        }
      }
    }

    /** `get_node`: add the node if its key is new, expand it if it is not
        expanded, and return it. The key must name a node already when it is
        text, and its position must be on the playable board. */
    method GetNode(key: BoardKey) returns (node: Node)
      requires Valid()
      requires key.StrKey? ==> key.s in graph
      requires InteriorPos(KeyBoard(graph, key))
      modifies this
      ensures Valid()
      ensures GetKey(key) in graph && node == graph[GetKey(key)]
      ensures node.board == KeyBoard(old(graph), key)
      ensures node.isTerminal == IsCheckmate(node.board)
      ensures node.children == ChildKeys(node.board)
      ensures forall i | 0 <= i < |node.children| ::
                node.children[i] in graph && graph[node.children[i]].board == Children(node.board)[i] &&
                GetKey(key) in graph[node.children[i]].parents
      ensures Ready(graph, GetKey(key))
      ensures Ready(old(graph), GetKey(key)) ==> graph == old(graph)
      ensures Grows(old(graph), graph) && KeepsScores(old(graph), graph)
    {
      var k := Locate(key);
      ghost var g1 := graph;
      if !graph[k].isExploited {
        Exploit(k);
      } else {
        assert Complete(graph[k]);
        GrowsRefl(graph);
      }
      GrowsTrans(old(graph), g1, graph);
      node := graph[k];
      assert Keyed(k, node);
      ChildBoards(graph, k);
    }
  }
}
