/** The static nesting gate bounds the recursion of the scanner. */
module EnvNesting {
  import opened Common
  import opened EnvTemplate
  import opened EnvScanner

  /** The largest surplus of "}" over "${" in a prefix of at most `n` characters. */
  function Surplus(v: string, n: nat): nat
    requires n <= |v|
  {
    if n == 0 then 0 else Max(Surplus(v, n - 1), if Balance(v, n) < 0 then -Balance(v, n) else 0)
  }

  lemma {:induction false} SurplusBounds(v: string, n: nat, k: nat)
    requires k <= n <= |v|
    ensures -Balance(v, k) <= Surplus(v, n)
  {
    if k < n {
      SurplusBounds(v, n - 1, k);
    }
  }

  /** Counting inside a word that ends just before a "}" is counting in the enclosing value. */
  lemma {:induction false} BalanceWithin(v: string, o: nat, c: nat, k: nat)
    requires o + k <= c < |v| && v[c] == '}'
    ensures Balance(v[o..c], k) == Balance(v, o + k) - Balance(v, o)
    decreases k
  {
    if k > 0 {
      BalanceWithin(v, o, c, k - 1);
      assert OpensAt(v[o..c], k - 1) == OpensAt(v, o + k - 1);
    }
  }

  /** Words nested `n` deep leave `n` levels open between two points of the value. */
  lemma {:induction false} NestingIsOpenLevels(v: string, i: nat) returns (a: nat, b: nat)
    requires i <= |v|
    ensures a <= b <= |v| && Balance(v, b) - Balance(v, a) >= Nesting(Parse(v, i))
    decreases |v|, |v| - i, 1
  {
    if i == |v| {
      a, b := 0, 0;
    } else if v[i] == '\\' && i + 1 < |v| && v[i + 1] == '$' {
      a, b := NestingIsOpenLevels(v, i + 2);
    } else if v[i] != '$' {
      a, b := NestingIsOpenLevels(v, i + 1);
    } else if i + 1 < |v| && v[i + 1] == '$' {
      a, b := NestingIsOpenLevels(v, i + 2);
    } else if OpensAt(v, i) {
      var c, word := BracedShape(v, i);
      a, b := BracedNesting(v, i, ParseBraced(v, i), c, word);
    } else {
      var e := NameEnd(v, i + 1);
      a, b := NestingIsOpenLevels(v, e);
    }
  }

  /** The shape of a braced reference `t` at `i`: where it closes, and the word of its operator. */
  ghost predicate Shaped(v: string, i: nat, t: Template, c: nat, word: string)
  {
    && OpensAt(v, i) && (t.Bad? || t.Var? || t.Op?)
    && (!t.Bad? ==> Close(v, i + 2, 1) == Some(c) && i + 2 <= c < |v| && t.rest == Parse(v, c + 1))
    && (t.Op? ==> |word| < c - (i + 2) && word == v[c - |word|..c] && t.word == Parse(word, 0))
  }

  lemma {:induction false} BracedNesting(v: string, i: nat, t: Template, c: nat, word: string) returns (a: nat, b: nat)
    requires Shaped(v, i, t, c, word)
    ensures a <= b <= |v| && Balance(v, b) - Balance(v, a) >= Nesting(t)
    decreases |v|, |v| - i, 0
  {
    if t.Bad? {
      a, b := 0, 0;
    } else if t.Op? && 1 + Nesting(t.word) > Nesting(t.rest) {
      a := i;
      b := WordNesting(v, i, c, word);
    } else {
      a, b := NestingIsOpenLevels(v, c + 1);
    }
  }

  lemma BracedShape(v: string, i: nat) returns (c: nat, word: string)
    requires OpensAt(v, i)
    ensures Shaped(v, i, ParseBraced(v, i), c, word)
  {
    c, word := 0, "";
    var close := Close(v, i + 2, 1);
    if close.Some? {
      c := close.value;
      var split := SplitOperator(v[i + 2..c]);
      if split.Applied? {
        word := split.word;
        SliceTail(v, i + 2, c, |word|);
      }
    }
  }

  lemma SliceTail(v: string, lo: nat, hi: nat, n: nat)
    requires lo + n <= hi <= |v|
    ensures v[lo..hi][hi - lo - n..] == v[hi - n..hi]
  {
  }

  /** The opening "${" adds one level to whatever its word leaves open. */
  lemma {:induction false} WordNesting(v: string, i: nat, c: nat, word: string) returns (b: nat)
    requires OpensAt(v, i) && Close(v, i + 2, 1) == Some(c) && |word| < c - (i + 2)
    requires word == v[c - |word|..c]
    ensures i <= b <= |v| && Balance(v, b) - Balance(v, i) >= 1 + Nesting(Parse(word, 0))
    decreases |v|, 0
  {
    var o := c - |word|;
    var a', b' := NestingIsOpenLevels(word, 0);
    BalanceWithin(v, o, c, a');
    BalanceWithin(v, o, c, b');
    StaysOpen(v, i, c, o + a');
    b := o + b';
  }

  /** Up to its closing brace a reference keeps at least one level open. */
  lemma StaysOpen(v: string, i: nat, c: nat, k: nat)
    requires OpensAt(v, i) && Close(v, i + 2, 1) == Some(c) && i + 2 <= k <= c
    ensures Balance(v, k) >= Balance(v, i) + 1
  {
    CloseIsFirstDrop(v, i + 2, 1);
    assert Balance(v, i + 2) == Balance(v, i + 1) == Balance(v, i) + 1;
  }

  /** Whatever the environment, a value the gate accepts never nests more than 16 word expansions
      beyond the surplus of closing braces it starts with. */
  lemma NestingBound(v: string)
    requires Accepted(v)
    ensures Nesting(Parse(v, 0)) <= 16 + Surplus(v, |v|)
  {
    var a, b := NestingIsOpenLevels(v, 0);
    SurplusBounds(v, |v|, a);
  }

  /** The recursion actually performed by expand_env_value stays within the bound. */
  method ExpandWithinBound(v: string, env: Env) returns (r: Result<string>, ghost depth: nat)
    ensures r == Meaning(v, env)
    ensures depth <= 16 + Surplus(v, |v|)
    ensures (forall k :: 0 <= k <= |v| ==> Balance(v, k) >= 0) ==> depth <= 16
  {
    r, depth := ExpandEnvValue(v, env);
    if Accepted(v) {
      NestingBound(v);
      EvalDepthBound(Parse(v, 0), env);
      NoSurplus(v, |v|);
    }
  }

  lemma {:induction false} NoSurplus(v: string, n: nat)
    requires n <= |v|
    ensures (forall k :: 0 <= k <= |v| ==> Balance(v, k) >= 0) ==> Surplus(v, n) == 0
  {
    if n > 0 {
      NoSurplus(v, n - 1);
    }
  }

  // ----- the bound is attained for every surplus -----

  /** "${A-${A-...}}", `n` references deep. */
  function Nest(n: nat): string
  {
    if n == 0 then "" else "${A-" + Nest(n - 1) + "}"
  }

  function Closers(n: nat): string { seq(n, _ => '}') }

  lemma {:induction false} BalanceOfSuffix(v: string, o: nat, k: nat)
    requires o + k <= |v|
    ensures Balance(v[o..], k) == Balance(v, o + k) - Balance(v, o)
    decreases k
  {
    if k > 0 {
      BalanceOfSuffix(v, o, k - 1);
      assert OpensAt(v[o..], k - 1) == OpensAt(v, o + k - 1);
    }
  }

  /** From `i` on, `v` is one default reference whose word is `word`. */
  ghost predicate Layer(v: string, i: nat, word: string)
  {
    && |v| == i + 5 + |word| && OpensAt(v, i) && v[i + 2] == 'A' && v[i + 3] == '-' && v[|v| - 1] == '}'
    && v[i + 4..|v| - 1] == word
  }

  lemma LayerBalance(v: string, i: nat, word: string, k: nat)
    requires Layer(v, i, word) && k <= |word|
    ensures Balance(v, i + 4 + k) == Balance(v, i) + 1 + Balance(word, k)
    ensures Balance(v, i + 4) == Balance(v, i + 3) == Balance(v, i + 2) == Balance(v, i + 1) == Balance(v, i) + 1
    ensures Balance(v, |v|) == Balance(v, i) + Balance(word, |word|)
  {
    BalanceWithin(v, i + 4, |v| - 1, k);
    BalanceWithin(v, i + 4, |v| - 1, |word|);
    assert Balance(v, i + 2) == Balance(v, i + 1) == Balance(v, i) + 1;
    assert Balance(v, i + 4) == Balance(v, i + 3) == Balance(v, i + 2);
  }

  ghost predicate Balanced(word: string)
  {
    Balance(word, |word|) == 0 && forall k :: 0 <= k <= |word| ==> Balance(word, k) >= 0
  }

  /** The reference closes on the last character. */
  lemma LayerCloses(v: string, i: nat, word: string)
    requires Layer(v, i, word) && Balanced(word)
    ensures Close(v, i + 2, 1) == Some(|v| - 1)
  {
    var last := |v| - 1;
    LayerBalance(v, i, word, |word|);
    CloseIsFirstDrop(v, i + 2, 1);
    var r := Close(v, i + 2, 1);
    if r.Some? && r.value < last {
      if r.value + 1 >= i + 4 {
        LayerBalance(v, i, word, r.value + 1 - (i + 4));
      }
    }
  }

  lemma SplitDefault(word: string)
    ensures SplitOperator("A-" + word) == Applied("A", Default, false, word)
  {
    var inner := "A-" + word;
    assert inner[0] == 'A' && inner[1] == '-';
    assert NameEnd(inner, 0) == 1;
    assert inner[..1] == "A" && inner[1..][1..] == word;
  }

  lemma LayerParses(v: string, i: nat, word: string)
    requires Layer(v, i, word) && Balanced(word)
    ensures Parse(v, i) == Op("A", Default, false, v, Parse(word, 0), End)
  {
    LayerCloses(v, i, word);
    assert v[i + 2..|v| - 1] == "A-" + word;
    SplitDefault(word);
    ParsesToOp(v, i, |v| - 1, "A", Default, false, word);
  }

  lemma NestIsLayer(v: string, i: nat, n: nat)
    requires i <= |v| && n > 0 && v[i..] == Nest(n)
    ensures Layer(v, i, Nest(n - 1))
  {
    var w, word := v[i..], Nest(n - 1);
    assert w == "${A-" + word + "}";
    assert v == v[..i] + w;
  }

  lemma {:induction false} NestBalance(n: nat)
    ensures Balanced(Nest(n))
    ensures forall k :: 0 <= k <= |Nest(n)| ==> Balance(Nest(n), k) <= n
  {
    if n > 0 {
      var v, word := Nest(n), Nest(n - 1);
      assert v[0..] == v;
      NestIsLayer(v, 0, n);
      NestBalance(n - 1);
      forall k | 0 <= k <= |v| ensures 0 <= Balance(v, k) <= n && (k == |v| ==> Balance(v, k) == 0) {
        LayerBalance(v, 0, word, if 4 <= k < |v| then k - 4 else |word|);
        assert k < 4 ==> k == 0 || k == 1 || k == 2 || k == 3;
      }
    }
  }

  /** Where `A` is unset, every one of the nested words is expanded, and to nothing. */
  lemma {:induction false} NestNesting(v: string, i: nat, n: nat, env: Env)
    requires i <= |v| && v[i..] == Nest(n) && !env.Has("A")
    ensures EvalDepth(Parse(v, i), env) == n && Eval(Parse(v, i), env) == Ok("")
    decreases n
  {
    if n > 0 {
      var word := Nest(n - 1);
      NestIsLayer(v, i, n);
      NestBalance(n - 1);
      LayerParses(v, i, word);
      assert word[0..] == word;
      NestNesting(word, 0, n - 1, env);
      LayerEvaluates(v, Parse(word, 0), env);
    }
  }

  lemma LayerEvaluates(v: string, word: Template, env: Env)
    requires !env.Has("A") && Eval(word, env) == Ok("")
    ensures var t := Op("A", Default, false, v, word, End);
      EvalDepth(t, env) == 1 + EvalDepth(word, env) && Eval(t, env) == Ok("")
  {
    assert EvalOp("A", Default, false, v, word, env) == Ok("");
    assert "" + "" == "";
  }

  lemma {:induction false} SurplusAtMost(v: string, n: nat, s: nat)
    requires n <= |v| && forall k :: 0 <= k <= n ==> -Balance(v, k) <= s
    ensures Surplus(v, n) <= s
  {
    if n > 0 {
      SurplusAtMost(v, n - 1, s);
    }
  }

  lemma CloserIsText(v: string, i: nat, env: Env)
    requires i < |v| && v[i] == '}'
    ensures EvalDepth(Parse(v, i), env) == EvalDepth(Parse(v, i + 1), env)
  {
    assert Parse(v, i) == Lit([v[i]], Parse(v, i + 1));
  }

  lemma {:induction false} LeadingClosers(v: string, s: nat, k: nat, env: Env)
    requires k <= s <= |v| && forall m :: 0 <= m < s ==> v[m] == '}'
    ensures EvalDepth(Parse(v, s - k), env) == EvalDepth(Parse(v, s), env)
  {
    if k > 0 {
      LeadingClosers(v, s, k - 1, env);
      CloserIsText(v, s - k, env);
    }
  }

  lemma {:induction false} ClosersBalance(v: string, s: nat, k: nat)
    requires k <= s <= |v| && forall m :: 0 <= m < s ==> v[m] == '}'
    ensures Balance(v, k) + k == 0
  {
    if k > 0 {
      ClosersBalance(v, s, k - 1);
    }
  }

  function Tight(s: nat): string { Closers(s) + Nest(MAX_NESTING + s) }

  lemma TightBalance(s: nat, k: nat)
    requires k <= |Tight(s)|
    ensures 0 <= Balance(Tight(s), k) + s && Balance(Tight(s), k) <= MAX_NESTING
    ensures k == s ==> Balance(Tight(s), k) + s == 0
  {
    var v, n := Tight(s), MAX_NESTING + s;
    assert v[s..] == Nest(n);
    if k <= s {
      ClosersBalance(v, s, k);
    } else {
      ClosersBalance(v, s, s);
      BalanceOfSuffix(v, s, k - s);
      NestBalance(n);
    }
  }

  lemma TightNesting(s: nat, env: Env)
    requires !env.Has("A")
    ensures EvalDepth(Parse(Tight(s), 0), env) == MAX_NESTING + s
  {
    var v := Tight(s);
    assert v[s..] == Nest(MAX_NESTING + s);
    LeadingClosers(v, s, s, env);
    NestNesting(v, s, MAX_NESTING + s, env);
  }

  /** The bound is tight: for every surplus there is an accepted value on which the scanner, wherever
      `A` is unset, nests exactly that many word expansions. */
  lemma NestingBoundIsTight(s: nat, env: Env)
    requires !env.Has("A")
    ensures var v := Tight(s);
      Accepted(v) && Surplus(v, |v|) == s && EvalDepth(Parse(v, 0), env) == 16 + s
  {
    var v := Tight(s);
    forall k | 0 <= k <= |v| ensures 0 <= Balance(v, k) + s && Balance(v, k) <= MAX_NESTING { TightBalance(s, k); }
    TightNesting(s, env);
    SurplusAtMost(v, |v|, s);
    TightBalance(s, s);
    SurplusBounds(v, |v|, s);
  }

  // ----- what validation does not see -----

  /** Validation accepts a default reference whatever its word, as long as braces balance and the gate
      lets it through; with the name unset, the word decides. */
  lemma ValidationIgnoresWord(v: string, word: string)
    requires Layer(v, 0, word) && Balanced(word) && forall k :: 0 <= k <= |word| ==> Balance(word, k) < MAX_NESTING
    ensures Meaning(v, ALL_SET) == Ok("x")
    ensures Meaning(v, Env(map[], None)) == Then(Eval(Parse(word, 0), Env(map[], None)), Ok(""))
  {
    LayerParses(v, 0, word);
    DefaultEvaluates(v, Parse(word, 0));
    LayerAccepted(v, word);
  }

  lemma DefaultEvaluates(v: string, word: Template)
    ensures var t := Op("A", Default, false, v, word, End);
      && Eval(t, ALL_SET) == Ok("x")
      && Eval(t, Env(map[], None)) == Then(Eval(word, Env(map[], None)), Ok(""))
  {
    assert EvalOp("A", Default, false, v, word, ALL_SET) == Ok("x");
    assert EvalOp("A", Default, false, v, word, Env(map[], None)) == Eval(word, Env(map[], None));
    assert "x" + "" == "x";
  }

  lemma LayerAccepted(v: string, word: string)
    requires Layer(v, 0, word) && Balanced(word) && forall k :: 0 <= k <= |word| ==> Balance(word, k) < MAX_NESTING
    ensures Accepted(v)
  {
    forall k | 0 <= k <= |v| ensures Balance(v, k) <= MAX_NESTING {
      LayerBalance(v, 0, word, if 4 <= k < |v| then k - 4 else |word|);
      assert k < 4 ==> k == 0 || k == 1 || k == 2 || k == 3;
    }
  }

  /** So an accepted value can still be a bad substitution where the name is unset. */
  lemma ValidationMissesDefaultWords()
    ensures Meaning("${A-${}}", ALL_SET) == Ok("x")
    ensures Meaning("${A-${}}", Env(map[], None)) == Err(BadName(""))
  {
    var v, word := "${A-${}}", "${}";
    assert v[4..7] == word;
    assert Balance(word, 1) == 1 && Balance(word, 2) == 1 && Balance(word, 3) == 0;
    assert Close(word, 2, 1) == Some(2) && word[2..2] == "";
    assert Parse(word, 0) == Bad(BadName(""));
    ValidationIgnoresWord(v, word);
  }
}
