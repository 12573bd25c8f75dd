/** Shared value types: optional and fallible results, the extended reals used
    for search scores, and text splitting. */
module Common {

  datatype Option<+T> = None | Some(value: T)

  datatype Result<+T, +E> = Ok(value: T) | Err(error: E)

  /** A score that may be one of the two infinite sentinels used by the search. */
  datatype ExtReal = NegInf | Fin(r: real) | PosInf

  predicate Le(x: ExtReal, y: ExtReal) {
    match (x, y)
    case (NegInf, _) => true
    case (_, PosInf) => true
    case (Fin(a), Fin(b)) => a <= b
    case _ => false
  }

  predicate Lt(x: ExtReal, y: ExtReal) {
    Le(x, y) && x != y
  }

  function Max(x: ExtReal, y: ExtReal): (m: ExtReal)
    ensures Le(x, m) && Le(y, m) && (m == x || m == y)
  {
    if Le(x, y) then y else x
  }

  function Min(x: ExtReal, y: ExtReal): (m: ExtReal)
    ensures Le(m, x) && Le(m, y) && (m == x || m == y)
  {
    if Le(x, y) then x else y
  }

  lemma LeTotal(x: ExtReal, y: ExtReal)
    ensures Le(x, y) || Le(y, x)
  {
  }

  lemma LeTrans(x: ExtReal, y: ExtReal, z: ExtReal)
    requires Le(x, y) && Le(y, z)
    ensures Le(x, z)
  {
  }

  lemma LeAntisym(x: ExtReal, y: ExtReal)
    requires Le(x, y) && Le(y, x)
    ensures x == y
  {
  }

  /** Python's `str.split` / `re.split` on single-character separators: the
      pieces between separators, so there is always one more piece than there
      are separators. Defined on the last character so that it follows a
      left-to-right scan. */
  function Split(s: string, seps: set<char>): (parts: seq<string>)
    ensures |parts| >= 1
    decreases |s|
  {
    if s == [] then [""]
    else
      var parts := Split(s[..|s| - 1], seps);
      var ch := s[|s| - 1];
      if ch in seps then parts + [""]
      else parts[..|parts| - 1] + [parts[|parts| - 1] + [ch]]
  }

  /** Appending a separator-free piece extends the last part. */
  lemma {:induction false} SplitAppendPiece(s: string, t: string, seps: set<char>)
    requires forall i :: 0 <= i < |t| ==> t[i] !in seps
    ensures var p := Split(s, seps);
            Split(s + t, seps) == p[..|p| - 1] + [p[|p| - 1] + t]
    decreases |t|
  {
    if t != [] {
      var t' := t[..|t| - 1];
      SplitAppendPiece(s, t', seps);
      assert (s + t)[..|s + t| - 1] == s + t';
      assert (s + t)[|s + t| - 1] == t[|t| - 1];
      assert t' + [t[|t| - 1]] == t;
      var p := Split(s, seps);
      var q := Split(s + t', seps);
      assert q[..|q| - 1] == p[..|p| - 1];
      assert q[|q| - 1] + [t[|t| - 1]] == p[|p| - 1] + t;
    } else {
      assert s + t == s;
      var p := Split(s, seps);
      assert t == [];
      assert p[|p| - 1] + t == p[|p| - 1];
      assert p[..|p| - 1] + [p[|p| - 1]] == p;
    }
  }

  /** Appending a separator starts a new, empty part. */
  lemma SplitAppendSep(s: string, ch: char, seps: set<char>)
    requires ch in seps
    ensures Split(s + [ch], seps) == Split(s, seps) + [""]
  {
    assert (s + [ch])[..|s + [ch]| - 1] == s;
  }

  /** Number of occurrences of the separators in `s`. */
  function SepCount(s: string, seps: set<char>): nat
    decreases |s|
  {
    if s == [] then 0
    else SepCount(s[..|s| - 1], seps) + (if s[|s| - 1] in seps then 1 else 0)
  }

  /** There is exactly one more part than there are separators. */
  lemma {:induction false} SplitLength(s: string, seps: set<char>)
    ensures |Split(s, seps)| == SepCount(s, seps) + 1
    decreases |s|
  {
    if s != [] {
      SplitLength(s[..|s| - 1], seps);
    }
  }

  /** No part contains a separator. */
  lemma {:induction false} SplitPartsSeparatorFree(s: string, seps: set<char>)
    ensures forall i, j :: 0 <= i < |Split(s, seps)| && 0 <= j < |Split(s, seps)[i]| ==>
              Split(s, seps)[i][j] !in seps
    decreases |s|
  {
    if s != [] {
      SplitPartsSeparatorFree(s[..|s| - 1], seps);
    }
  }
}
