/** The password-change rule: a two-row edit-distance loop, and the metric it computes.

    The reference notion is a path of single edits (insert, delete or substitute one
    character anywhere in the string); `Lev` is only the recurrence that connects the
    loop to that notion. */
module EditDistance {

  function Min(a: int, b: int): int { if a <= b then a else b }

  function Differs(x: char, y: char): nat { if x == y then 0 else 1 }

  // ----- the reference: paths of single edits -----

  ghost predicate Inserts(s: string, t: string, k: nat, c: char)
  {
    k <= |s| && t == s[..k] + [c] + s[k..]
  }

  ghost predicate Substitutes(s: string, t: string, k: nat, c: char)
  {
    k < |s| && t == s[k := c]
  }

  /** `t` is `s` after one insertion, one deletion or one substitution. */
  ghost predicate OneEdit(s: string, t: string)
  {
    || (exists k: nat, c: char :: Inserts(s, t, k, c))
    || (exists k: nat, c: char :: Inserts(t, s, k, c))
    || (exists k: nat, c: char :: Substitutes(s, t, k, c))
  }

  /** A path of |p| - 1 single edits from `s` to `t`. */
  ghost predicate EditPath(p: seq<string>, s: string, t: string)
  {
    && |p| > 0 && p[0] == s && p[|p| - 1] == t
    && forall i :: 0 < i < |p| ==> OneEdit(p[i - 1], p[i])
  }

  /** `n` is the least number of single edits that turn `s` into `t`. */
  ghost predicate IsEditDistance(s: string, t: string, n: nat)
  {
    && (exists p :: EditPath(p, s, t) && |p| == n + 1)
    && (forall p :: EditPath(p, s, t) ==> n + 1 <= |p|)
  }

  // ----- the recurrence -----

  function Lev(s: string, t: string): nat
    decreases |s| + |t|
  {
    if s == [] then |t|
    else if t == [] then |s|
    else
      var s', t' := s[..|s| - 1], t[..|t| - 1];
      Min(Min(Lev(s', t) + 1, Lev(s, t') + 1), Lev(s', t') + Differs(s[|s| - 1], t[|t| - 1]))
  }

  /** The recurrence satisfies the triangle inequality. */
  lemma {:induction false} LevTriangle(a: string, b: string, c: string)
    ensures Lev(a, c) <= Lev(a, b) + Lev(b, c)
    decreases |a| + |b| + |c|
  {
    if b == [] {
      LevAtMostSum(a, c);
    } else if a != [] && c != [] {
      var a', b', c' := a[..|a| - 1], b[..|b| - 1], c[..|c| - 1];
      LevTriangle(a', b, c);
      LevTriangle(a, b, c');
      LevTriangle(a, b', c);
      LevTriangle(a, b', c');
      LevTriangle(a', b', c);
      LevTriangle(a', b', c');
    } else if a == [] && c != [] {
      LevTriangle(a, b, c[..|c| - 1]);
      LevLength(b, c);
    } else {
      LevLength(a, b);
    }
  }

  lemma {:induction false} LevAtMostSum(a: string, c: string)
    ensures Lev(a, c) <= |a| + |c|
    decreases |a| + |c|
  {
    if a != [] && c != [] {
      LevAtMostSum(a[..|a| - 1], c);
    }
  }

  lemma {:induction false} LevLength(a: string, b: string)
    ensures |b| - |a| <= Lev(a, b)
    ensures |a| - |b| <= Lev(a, b)
    decreases |a| + |b|
  {
    if a != [] && b != [] {
      var a', b' := a[..|a| - 1], b[..|b| - 1];
      LevLength(a', b);
      LevLength(a, b');
      LevLength(a', b');
    }
  }

  lemma {:induction false} LevSelf(s: string)
    ensures Lev(s, s) == 0
    decreases |s|
  {
    if s != [] {
      LevSelf(s[..|s| - 1]);
    }
  }

  lemma {:induction false} LevZero(s: string, t: string)
    requires Lev(s, t) == 0
    ensures s == t
    decreases |s|
  {
    if s != [] && t != [] {
      LevZero(s[..|s| - 1], t[..|t| - 1]);
      assert s == s[..|s| - 1] + [s[|s| - 1]] && t == t[..|t| - 1] + [t[|t| - 1]];
    }
  }

  /** A last character costs nothing where it is common, and at most one where it is not. */
  lemma LevAppend(s: string, c: char, t: string, d: char)
    ensures Lev(s + [c], t + [d]) <= Lev(s, t) + Differs(c, d)
  {
    assert (s + [c])[..|s|] == s && (t + [d])[..|t|] == t;
  }

  lemma SplitLast(s: string, u: string)
    requires u != []
    ensures s + u == (s + u[..|u| - 1]) + [u[|u| - 1]]
  {
  }

  lemma {:induction false} LevAppendAll(s: string, t: string, u: string)
    ensures Lev(s + u, t + u) <= Lev(s, t)
    decreases |u|
  {
    if u == [] {
      assert s + u == s && t + u == t;
    } else {
      SplitLast(s, u);
      SplitLast(t, u);
      LevAppendAll(s, t, u[..|u| - 1]);
      LevAppend(s + u[..|u| - 1], u[|u| - 1], t + u[..|u| - 1], u[|u| - 1]);
    }
  }

  lemma LevInsert(s: string, t: string, k: nat, c: char)
    requires Inserts(s, t, k, c)
    ensures Lev(s, t) <= 1 && Lev(t, s) <= 1
  {
    var a, u := s[..k], s[k..];
    assert s == a + u && t == (a + [c]) + u;
    LevOneMore(a, c);
    LevAppendAll(a, a + [c], u);
    LevAppendAll(a + [c], a, u);
  }

  lemma LevOneMore(a: string, c: char)
    ensures Lev(a, a + [c]) <= 1 && Lev(a + [c], a) <= 1
  {
    assert (a + [c])[..|a|] == a;
    LevSelf(a);
  }

  lemma LevOneChanged(a: string, c: char, d: char)
    ensures Lev(a + [c], a + [d]) <= 1
  {
    LevSelf(a);
    LevAppend(a, c, a, d);
  }

  /** One single edit is at distance at most one. */
  lemma LevOneEdit(s: string, t: string)
    requires OneEdit(s, t)
    ensures Lev(s, t) <= 1
  {
    if k: nat, c: char :| Inserts(s, t, k, c) {
      LevInsert(s, t, k, c);
    } else if k: nat, c: char :| Inserts(t, s, k, c) {
      LevInsert(t, s, k, c);
    } else {
      var k: nat, c: char :| Substitutes(s, t, k, c);
      LevSubstitute(s, t, k, c);
    }
  }

  lemma LevSubstitute(s: string, t: string, k: nat, c: char)
    requires Substitutes(s, t, k, c)
    ensures Lev(s, t) <= 1
  {
    var a, u := s[..k], s[k + 1..];
    assert s == (a + [s[k]]) + u && t == (a + [c]) + u;
    LevOneChanged(a, s[k], c);
    LevAppendAll(a + [s[k]], a + [c], u);
  }

  /** No path of single edits is shorter than the recurrence says. */
  lemma {:induction false} PathIsNoShorter(p: seq<string>, s: string, t: string)
    requires EditPath(p, s, t)
    ensures Lev(s, t) + 1 <= |p|
    decreases |p|
  {
    if |p| == 1 {
      LevSelf(s);
    } else {
      var q := p[..|p| - 1];
      PathIsNoShorter(q, s, q[|q| - 1]);
      LevOneEdit(q[|q| - 1], t);
      LevTriangle(s, q[|q| - 1], t);
    }
  }

  /** A path carries over when the same character is appended to every string on it. */
  lemma AppendPath(p: seq<string>, s: string, t: string, c: char) returns (q: seq<string>)
    requires EditPath(p, s, t)
    ensures EditPath(q, s + [c], t + [c]) && |q| == |p|
  {
    q := seq(|p|, i requires 0 <= i < |p| => p[i] + [c]);
    forall i | 0 < i < |q| ensures OneEdit(q[i - 1], q[i]) {
      AppendOneEdit(p[i - 1], p[i], c);
    }
  }

  lemma AppendOneEdit(s: string, t: string, c: char)
    requires OneEdit(s, t)
    ensures OneEdit(s + [c], t + [c])
  {
    if k: nat, d: char :| Inserts(s, t, k, d) {
      assert (s + [c])[k..] == s[k..] + [c];
      assert Inserts(s + [c], t + [c], k, d);
    } else if k: nat, d: char :| Inserts(t, s, k, d) {
      assert (t + [c])[k..] == t[k..] + [c];
      assert Inserts(t + [c], s + [c], k, d);
    } else {
      var k: nat, d: char :| Substitutes(s, t, k, d);
      assert Substitutes(s + [c], t + [c], k, d);
    }
  }

  lemma ExtendPath(p: seq<string>, s: string, t: string, u: string) returns (q: seq<string>)
    requires EditPath(p, s, t) && OneEdit(t, u)
    ensures EditPath(q, s, u) && |q| == |p| + 1
  {
    q := p + [u];
  }

  lemma PrependPath(r: string, p: seq<string>, s: string, t: string) returns (q: seq<string>)
    requires OneEdit(r, s) && EditPath(p, s, t)
    ensures EditPath(q, r, t) && |q| == |p| + 1
  {
    q := [r] + p;
  }

  lemma DropLast(s: string)
    requires s != []
    ensures Inserts(s[..|s| - 1], s, |s| - 1, s[|s| - 1])
    ensures OneEdit(s, s[..|s| - 1]) && OneEdit(s[..|s| - 1], s)
  {
    var s', c := s[..|s| - 1], s[|s| - 1];
    assert s == s'[..|s'|] + [c] + s'[|s'|..];
    assert Inserts(s', s, |s'|, c);
  }

  /** A path exactly as long as the recurrence says. */
  lemma {:induction false} ShortestPath(s: string, t: string) returns (p: seq<string>)
    ensures EditPath(p, s, t) && |p| == Lev(s, t) + 1
    decreases |s| + |t|
  {
    if s == [] && t == [] {
      p := [[]];
    } else if s == [] {
      p := ShortestPath(s, t[..|t| - 1]);
      DropLast(t);
      p := ExtendPath(p, s, t[..|t| - 1], t);
    } else if t == [] {
      p := ShortestPath(s[..|s| - 1], t);
      DropLast(s);
      p := PrependPath(s, p, s[..|s| - 1], t);
    } else {
      var s', t' := s[..|s| - 1], t[..|t| - 1];
      var c, d := s[|s| - 1], t[|t| - 1];
      assert s == s' + [c] && t == t' + [d];
      DropLast(s);
      DropLast(t);
      if Lev(s, t) == Lev(s', t) + 1 {
        p := ShortestPath(s', t);
        p := PrependPath(s, p, s', t);
      } else if Lev(s, t) == Lev(s, t') + 1 {
        p := ShortestPath(s, t');
        p := ExtendPath(p, s, t', t);
      } else {
        p := ShortestPath(s', t');
        p := AppendPath(p, s', t', c);
        if c != d {
          assert Substitutes(t' + [c], t, |t'|, d);
          p := ExtendPath(p, s, t' + [c], t);
        }
      }
    }
  }

  /** The recurrence is the length of a shortest path of single edits. */
  lemma LevIsEditDistance(s: string, t: string)
    ensures IsEditDistance(s, t, Lev(s, t))
  {
    var p := ShortestPath(s, t);
    forall q | EditPath(q, s, t) ensures Lev(s, t) + 1 <= |q| {
      PathIsNoShorter(q, s, t);
    }
  }

  lemma ReversePath(p: seq<string>, s: string, t: string) returns (q: seq<string>)
    requires EditPath(p, s, t)
    ensures EditPath(q, t, s) && |q| == |p|
  {
    q := seq(|p|, i requires 0 <= i < |p| => p[|p| - 1 - i]);
    forall i | 0 < i < |q| ensures OneEdit(q[i - 1], q[i]) {
      var j := |p| - i;
      assert OneEdit(p[j - 1], p[j]);
      OneEditSymmetric(p[j - 1], p[j]);
    }
  }

  lemma OneEditSymmetric(s: string, t: string)
    requires OneEdit(s, t)
    ensures OneEdit(t, s)
  {
    if k: nat, c: char :| Substitutes(s, t, k, c) {
      assert Substitutes(t, s, k, s[k]);
    }
  }

  /** The edit distance is a metric: zero exactly on equal strings, symmetric, triangle. */
  lemma EditDistanceIsMetric(a: string, b: string, c: string, ab: nat, ba: nat, bc: nat, ac: nat)
    requires IsEditDistance(a, b, ab) && IsEditDistance(b, a, ba)
    requires IsEditDistance(b, c, bc) && IsEditDistance(a, c, ac)
    ensures ab == 0 <==> a == b
    ensures ab == ba
    ensures ac <= ab + bc
  {
    LevIsEditDistance(a, b);
    LevIsEditDistance(b, c);
    LevIsEditDistance(a, c);
    assert ab == Lev(a, b) && bc == Lev(b, c) && ac == Lev(a, c);
    LevTriangle(a, b, c);
    LevSelf(a);
    if ab == 0 { LevZero(a, b); }
    var p :| EditPath(p, a, b) && |p| == ab + 1;
    var q :| EditPath(q, b, a) && |q| == ba + 1;
    var p' := ReversePath(p, a, b);
    var q' := ReversePath(q, b, a);
  }

  // ----- the loop -----

  /** The recurrence by prefix lengths: cell (i, j) of the table. */
  function Cell(s: string, t: string, i: nat, j: nat): nat
    requires i <= |s| && j <= |t|
  {
    if i == 0 then j
    else if j == 0 then i
    else Min(Min(Cell(s, t, i - 1, j) + 1, Cell(s, t, i, j - 1) + 1), Cell(s, t, i - 1, j - 1) + Differs(s[i - 1], t[j - 1]))
  }

  lemma {:induction false} CellIsLev(s: string, t: string, i: nat, j: nat, a: string, b: string)
    requires i <= |s| && j <= |t| && a == s[..i] && b == t[..j]
    ensures Cell(s, t, i, j) == Lev(a, b)
  {
    if i > 0 && j > 0 {
      CellIsLev(s, t, i - 1, j, a[..i - 1], b);
      CellIsLev(s, t, i, j - 1, a, b[..j - 1]);
      CellIsLev(s, t, i - 1, j - 1, a[..i - 1], b[..j - 1]);
      LevUnfolds(a, b, Cell(s, t, i - 1, j), Cell(s, t, i, j - 1), Cell(s, t, i - 1, j - 1));
    }
  }

  lemma LevUnfolds(a: string, b: string, up: nat, left: nat, diagonal: nat)
    requires a != [] && b != [] && up == Lev(a[..|a| - 1], b) && left == Lev(a, b[..|b| - 1])
    requires diagonal == Lev(a[..|a| - 1], b[..|b| - 1])
    ensures Lev(a, b) == Min(Min(up + 1, left + 1), diagonal + Differs(a[|a| - 1], b[|b| - 1]))
  {
  }

  /** The first `m` cells of row `i` of the table. */
  ghost predicate IsRow(row: seq<nat>, s: string, t: string, i: nat, m: nat)
    requires i <= |s| && m <= |t| + 1 <= |row|
  {
    forall j {:trigger row[j]} :: 0 <= j < m ==> row[j] == Cell(s, t, i, j)
  }

  lemma RowStep(prev: seq<nat>, row: seq<nat>, s: string, t: string, i: nat, j: nat)
    requires 0 < i <= |s| && 0 < j <= |t| && |prev| == |row| == |t| + 1
    requires IsRow(prev, s, t, i - 1, |t| + 1) && IsRow(row, s, t, i, j)
    requires row[j] == Min(Min(prev[j] + 1, row[j - 1] + 1), prev[j - 1] + Differs(s[i - 1], t[j - 1]))
    ensures IsRow(row, s, t, i, j + 1)
  {
    assert row[j] == Cell(s, t, i, j);
  }

  /** The inner loop of auth.password_edit_distance: one row from the row before it. */
  method NextRow(prev: array<nat>, old_: string, new_: string, i: nat) returns (cur: array<nat>)
    requires 0 < i <= |old_| && prev.Length == |new_| + 1
    requires IsRow(prev[..], old_, new_, i - 1, |new_| + 1)
    ensures fresh(cur) && cur.Length == |new_| + 1
    ensures IsRow(cur[..], old_, new_, i, |new_| + 1)
  {
    cur := new nat[|new_| + 1](j => if j == 0 then i else 0);
    for j := 1 to |new_| + 1
      invariant fresh(cur) && cur.Length == |new_| + 1
      invariant prev[..] == old(prev[..])
      invariant IsRow(cur[..], old_, new_, i, j)
    {
      ghost var before := cur[..];
      cur[j] := Min(Min(prev[j] + 1, cur[j - 1] + 1), prev[j - 1] + Differs(old_[i - 1], new_[j - 1]));
      assert cur[..] == before[j := cur[j]];
      RowStep(prev[..], cur[..], old_, new_, i, j);
    }
  }

  /** auth.password_edit_distance. */
  method PasswordEditDistance(old_: string, new_: string) returns (distance: nat)
    ensures IsEditDistance(old_, new_, distance)
  {
    var n := |new_|;
    var prev := new nat[n + 1](j => j);
    for i := 1 to |old_| + 1
      invariant prev.Length == n + 1
      invariant IsRow(prev[..], old_, new_, i - 1, n + 1)
    {
      prev := NextRow(prev, old_, new_, i);
    }
    distance := prev[n];
    assert old_[..|old_|] == old_ && new_[..n] == new_;
    CellIsLev(old_, new_, |old_|, n, old_, new_);
    LevIsEditDistance(old_, new_);
  }

  /** Auth.validate_password_changed_enough: `accepted` is false where it raises. */
  method ValidatePasswordChangedEnough(minimum: int, old_: string, new_: string) returns (accepted: bool)
    ensures !accepted <==> exists p :: EditPath(p, old_, new_) && |p| - 1 < minimum
  {
    if minimum <= 0 {
      return true;
    }
    var distance := PasswordEditDistance(old_, new_);
    accepted := distance >= minimum;
  }
}
