/** What the written forms mean: each operator, plain references, bad ones and bare dollars, spelled
    out as strings and read back through set, empty and unset variables. */
module EnvSyntax {
  import opened Common
  import opened EnvTemplate
  import opened EnvScanner
  import opened EnvNesting

  /** [A-Za-z_][A-Za-z0-9_]* */
  ghost predicate Letter(c: char) { 'a' <= c <= 'z' || 'A' <= c <= 'Z' || c == '_' }

  ghost predicate Digit(c: char) { '0' <= c <= '9' }

  ghost predicate ValidName(n: string)
  {
    n != "" && Letter(n[0]) && forall i :: 0 <= i < |n| ==> Letter(n[i]) || Digit(n[i])
  }

  /** No character that matters to brace matching. */
  ghost predicate Inert(s: string) { forall i :: 0 <= i < |s| ==> s[i] != '$' && s[i] != '}' }

  lemma {:induction false} RunEndsAfter(v: string, i: nat, e: nat)
    requires i <= e <= |v| && (forall k :: i <= k < e ==> Letter(v[k]) || Digit(v[k]))
    requires e < |v| ==> !Letter(v[e]) && !Digit(v[e])
    ensures NameRunEnd(v, i) == e
    decreases e - i
  {
    if i < e { RunEndsAfter(v, i + 1, e); }
  }

  /** A name at `i` ends where no letter or digit follows. */
  lemma NameEndsAfter(v: string, i: nat, n: string)
    requires ValidName(n) && i + |n| <= |v| && v[i..i + |n|] == n
    requires i + |n| < |v| ==> !Letter(v[i + |n|]) && !Digit(v[i + |n|])
    ensures NameEnd(v, i) == i + |n|
  {
    forall k | i <= k < i + |n| ensures v[k] == n[k - i] { assert v[i..i + |n|][k - i] == v[k]; }
    RunEndsAfter(v, i + 1, i + |n|);
  }

  // ----- braces -----

  /** "${" + head + word + "}" */
  function Braced(head: string, word: string): string { "${" + head + word + "}" }

  lemma BracedParts(head: string, word: string)
    ensures var v := Braced(head, word); var o := 2 + |head|;
      && |v| == o + |word| + 1 && v[0] == '$' && v[1] == '{' && v[|v| - 1] == '}'
      && v[2..o] == head && v[o..|v| - 1] == word && v[2..|v| - 1] == head + word
  {
  }

  lemma {:induction false} HeadBalance(head: string, word: string, k: nat)
    requires Inert(head) && 1 <= k <= 2 + |head|
    ensures Balance(Braced(head, word), k) == 1
  {
    var v := Braced(head, word);
    BracedParts(head, word);
    if k == 1 {
      assert OpensAt(v, 0) && Balance(v, 1) == Balance(v, 0) + Weight(v, 0);
    } else {
      HeadBalance(head, word, k - 1);
      assert k > 2 ==> v[k - 1] == v[2..2 + |head|][k - 3];
    }
  }

  lemma WordBalance(head: string, word: string, k: nat)
    requires Inert(head) && k <= |word|
    ensures Balance(Braced(head, word), 2 + |head| + k) == 1 + Balance(word, k)
  {
    var v, o := Braced(head, word), 2 + |head|;
    BracedParts(head, word);
    HeadBalance(head, word, o);
    BalanceWithin(v, o, |v| - 1, k);
  }

  /** The reference closes on the last character. */
  lemma BracedCloses(head: string, word: string)
    requires Inert(head) && Balanced(word)
    ensures Close(Braced(head, word), 2, 1) == Some(|Braced(head, word)| - 1)
  {
    var v, o := Braced(head, word), 2 + |head|;
    BracedParts(head, word);
    HeadBalance(head, word, 2);
    WordBalance(head, word, |word|);
    assert Balance(v, |v|) == Balance(v, |v| - 1) - 1;
    forall k | 2 <= k < |v| ensures Balance(v, k) >= 1 {
      if k <= o { HeadBalance(head, word, k); } else { WordBalance(head, word, k - o); }
    }
    CloseIsFirstDrop(v, 2, 1);
  }

  /** The gate lets a reference through whose word leaves room for one more level. */
  lemma BracedAccepted(head: string, word: string)
    requires Inert(head) && Balanced(word) && Shallow(word)
    ensures Accepted(Braced(head, word)) && Accepted(word)
  {
    var v, o := Braced(head, word), 2 + |head|;
    BracedParts(head, word);
    forall k | 0 <= k <= |v| ensures Balance(v, k) <= MAX_NESTING {
      if 1 <= k <= o {
        HeadBalance(head, word, k);
      } else if o < k < |v| {
        WordBalance(head, word, k - o);
      } else if k == |v| {
        WordBalance(head, word, |word|);
      }
    }
  }

  ghost predicate Shallow(word: string) { forall k :: 0 <= k <= |word| ==> Balance(word, k) < 16 }

  lemma BracedParses(head: string, word: string)
    requires Inert(head) && Balanced(word)
    ensures var v := Braced(head, word);
      Parse(v, 0) == match SplitOperator(head + word)
                     case Malformed(error) => Bad(error)
                     case Plain(name) => Var(name, End)
                     case Applied(name, op, colon, w) => Op(name, op, colon, v, Parse(w, 0), End)
  {
    var v := Braced(head, word);
    BracedParts(head, word);
    BracedCloses(head, word);
    assert Parse(v, 0) == ParseBraced(v, 0);
  }

  /** What a reference means, by the split of its innards. */
  function SplitMeaning(s: Split, whole: string, env: Env): Result<string>
  {
    match s
    case Malformed(error) => Err(error)
    case Plain(name) => Ok(env.Lookup(name))
    case Applied(name, op, colon, w) => EvalOp(name, op, colon, whole, Parse(w, 0), env)
  }

  lemma SingleEvaluates(s: Split, whole: string, env: Env, t: Template)
    requires t == match s
                  case Malformed(error) => Bad(error)
                  case Plain(name) => Var(name, End)
                  case Applied(name, op, colon, w) => Op(name, op, colon, whole, Parse(w, 0), End)
    ensures Eval(t, env) == SplitMeaning(s, whole, env)
  {
    var r := SplitMeaning(s, whole, env);
    if r.Ok? { assert r.value + "" == r.value; }
  }

  lemma BracedMeans(head: string, word: string, inner: string, env: Env)
    requires Inert(head) && Balanced(word) && Shallow(word) && inner == head + word
    ensures Meaning(Braced(head, word), env) == SplitMeaning(SplitOperator(inner), Braced(head, word), env)
    ensures Meaning(word, env) == Eval(Parse(word, 0), env)
  {
    BracedAccepted(head, word);
    BracedParses(head, word);
    SingleEvaluates(SplitOperator(inner), Braced(head, word), env, Parse(Braced(head, word), 0));
  }

  lemma Assembles(n: string, rest: string, word: string)
    ensures "${" + n + rest + word + "}" == Braced(n + rest, word)
  {
    assert "${" + n + rest == "${" + (n + rest);
  }

  // ----- the six operators -----

  datatype Form = ColonDash | Dash | ColonPlus | Plus | ColonQuestion | Question

  function Written(f: Form): string
  {
    match f
    case ColonDash => ":-"
    case Dash => "-"
    case ColonPlus => ":+"
    case Plus => "+"
    case ColonQuestion => ":?"
    case Question => "?"
  }

  /** What "${n" + form + word + "}" comes to, where `expanded` is the word's own expansion and `whole`
      the value: the colon forms take an empty variable for an unset one. */
  function FormMeaning(f: Form, n: string, vars: map<string, string>, expanded: Result<string>, whole: string): Result<string>
  {
    var isSet := n in vars;
    var isFull := n in vars && vars[n] != "";
    var complaint := if expanded.Err? then expanded
                     else Err(Unset(whole, if expanded.value != "" then expanded.value else n + ": parameter null or not set"));
    match f
    case ColonDash => if isFull then Ok(vars[n]) else expanded
    case Dash => if isSet then Ok(vars[n]) else expanded
    case ColonPlus => if isFull then expanded else Ok("")
    case Plus => if isSet then expanded else Ok("")
    case ColonQuestion => if isFull then Ok(vars[n]) else complaint
    case Question => if isSet then Ok(vars[n]) else complaint
  }

  /** The split comes right after the name. */
  lemma NameThen(n: string, rest: string)
    requires ValidName(n) && rest != "" && !Letter(rest[0]) && !Digit(rest[0])
    ensures var inner := n + rest; NameEnd(inner, 0) == |n| && inner[..|n|] == n && inner[|n|..] == rest
  {
    var inner := n + rest;
    assert inner[0..|n|] == n && inner[|n|] == rest[0];
    NameEndsAfter(inner, 0, n);
  }

  lemma FormReads(f: Form, word: string)
    ensures var rest := Written(f) + word;
      && rest != "" && !Letter(rest[0]) && !Digit(rest[0])
      && (f.Dash? ==> rest[0] == '-') && (f.Plus? ==> rest[0] == '+') && (f.Question? ==> rest[0] == '?')
      && (f.ColonDash? || f.ColonPlus? || f.ColonQuestion? ==>
            |rest| >= 2 && rest[0] == ':' && rest[1] == (if f.ColonDash? then '-' else if f.ColonPlus? then '+' else '?') && rest[2..] == word)
      && (f.Dash? || f.Plus? || f.Question? ==> rest[1..] == word)
  {
  }

  lemma FormSplits(f: Form, n: string, word: string)
    requires ValidName(n)
    ensures SplitOperator(n + Written(f) + word) == Applied(n, OperatorIn(f), f.ColonDash? || f.ColonPlus? || f.ColonQuestion?, word)
  {
    Associate(n, Written(f), word);
    FormReads(f, word);
    NameThen(n, Written(f) + word);
  }

  function OperatorIn(f: Form): Operator
  {
    if f.ColonDash? || f.Dash? then Default else if f.ColonPlus? || f.Plus? then Alternative else Required
  }

  lemma ValidNameIsInert(n: string, f: Form)
    requires ValidName(n)
    ensures Inert(n) && Inert(n + Written(f))
  {
  }

  /** The operator a form stands for, evaluated. */
  lemma FormEvaluates(f: Form, n: string, whole: string, word: Template, vars: map<string, string>)
    ensures EvalOp(n, OperatorIn(f), f.ColonDash? || f.ColonPlus? || f.ColonQuestion?, whole, word, Env(vars, None))
         == FormMeaning(f, n, vars, Eval(word, Env(vars, None)), whole)
  {
  }

  /** Each operator form, for every name, every word with balanced braces that the gate accepts inside
      it, and every environment: what it expands to, by the variable's state and the word's own
      expansion. */
  lemma OperatorsMean(f: Form, n: string, word: string, vars: map<string, string>)
    requires ValidName(n) && Balanced(word) && Shallow(word)
    ensures var v, env := "${" + n + Written(f) + word + "}", Env(vars, None);
      Meaning(v, env) == FormMeaning(f, n, vars, Meaning(word, env), v)
  {
    var head := n + Written(f);
    Assembles(n, Written(f), word);
    ValidNameIsInert(n, f);
    FormSplits(f, n, word);
    BracedMeans(head, word, n + Written(f) + word, Env(vars, None));
    FormEvaluates(f, n, Braced(head, word), Parse(word, 0), vars);
  }

  // ----- references without an operator -----

  /** "${" + inner + "}" where the innards hold no reference of their own: the variable's value for a
      name, an error for anything that is not a name and an operator. */
  lemma PlainBraces(inner: string, vars: map<string, string>)
    requires Inert(inner)
    ensures var r := Meaning("${" + inner + "}", Env(vars, None));
      && (ValidName(inner) ==> r == Ok(if inner in vars then vars[inner] else ""))
      && (inner == "" || !Letter(inner[0]) ==> r == Err(BadName(inner)))
  {
    InertMeans(inner, Env(vars, None));
    if ValidName(inner) {
      assert inner[0..|inner|] == inner && inner[..|inner|] == inner;
      NameEndsAfter(inner, 0, inner);
    }
  }

  lemma InertMeans(inner: string, env: Env)
    requires Inert(inner)
    ensures Meaning("${" + inner + "}", env) == SplitMeaning(SplitOperator(inner), "${" + inner + "}", env)
  {
    assert "${" + inner + "" == "${" + inner && inner + "" == inner;
    assert Balanced("") && Shallow("");
    BracedMeans(inner, "", inner, env);
  }

  /** A name followed by anything but an operator is a bad substitution. */
  lemma BadOperatorFails(n: string, rest: string, vars: map<string, string>)
    requires ValidName(n) && Inert(rest) && NoOperator(rest)
    ensures Meaning("${" + (n + rest) + "}", Env(vars, None)) == Err(BadOperator(n + rest, n))
  {
    InertMeans(n + rest, Env(vars, None));
    BadSplit(n, rest);
  }

  ghost predicate NoOperator(rest: string)
  {
    && rest != "" && !Letter(rest[0]) && !Digit(rest[0]) && rest[0] != '-' && rest[0] != '+' && rest[0] != '?'
    && (rest[0] == ':' && |rest| > 1 ==> rest[1] != '-' && rest[1] != '+' && rest[1] != '?')
  }

  lemma BadSplit(n: string, rest: string)
    requires ValidName(n) && NoOperator(rest)
    ensures SplitOperator(n + rest) == Malformed(BadOperator(n + rest, n))
  {
    NameThen(n, rest);
  }

  /** "$name" anywhere in a value stands for the variable up to where the name ends. */
  lemma DollarName(v: string, i: nat, n: string, vars: map<string, string>)
    requires ValidName(n) && i + 1 + |n| <= |v| && v[i] == '$' && v[i + 1..i + 1 + |n|] == n
    requires i + 1 + |n| < |v| ==> !Letter(v[i + 1 + |n|]) && !Digit(v[i + 1 + |n|])
    ensures var env := Env(vars, None);
      Eval(Parse(v, i), env) == Then(Ok(if n in vars then vars[n] else ""), Eval(Parse(v, i + 1 + |n|), env))
  {
    assert v[i + 1] == v[i + 1..i + 1 + |n|][0];
    NameEndsAfter(v, i + 1, n);
  }

  /** A reference whose brace never closes fails with the whole value. */
  lemma UnclosedFails(v: string, i: nat, env: Env)
    requires OpensAt(v, i) && forall m :: i + 2 <= m <= |v| ==> Balance(v, m) > Balance(v, i)
    ensures Eval(Parse(v, i), env) == Err(Unterminated(v))
  {
    CloseIsFirstDrop(v, i + 2, 1);
    assert Balance(v, i + 2) == Balance(v, i + 1) == Balance(v, i) + 1;
    assert Parse(v, i) == ParseBraced(v, i);
  }

  /** A dollar that starts no reference, and any other character that escapes no dollar, is itself. */
  lemma BareCharacter(v: string, i: nat, env: Env)
    requires i < |v|
    requires v[i] == '$' ==> i + 1 == |v| || !(v[i + 1] == '$' || v[i + 1] == '{' || Letter(v[i + 1]))
    requires v[i] == '\\' ==> i + 1 == |v| || v[i + 1] != '$'
    ensures Eval(Parse(v, i), env) == Then(Ok([v[i]]), Eval(Parse(v, i + 1), env))
  {
  }

  // ----- values that refer to earlier ones -----

  /** The last of the first `n` entries with this key. */
  ghost predicate LastWith(entries: seq<Entry>, n: nat, key: string, j: nat)
    requires n <= |entries|
  {
    j < n && entries[j].key == key && forall k :: j < k < n ==> entries[k].key != key
  }

  lemma {:induction false} OverlayHolds(base: map<string, string>, entries: seq<Entry>, resolved: seq<string>, key: string)
    requires |resolved| <= |entries|
    ensures var ctx := Overlay(base, entries, resolved);
      && (forall j: nat :: LastWith(entries, |resolved|, key, j) ==> key in ctx && ctx[key] == resolved[j])
      && ((forall j :: 0 <= j < |resolved| ==> entries[j].key != key) ==> (key in ctx <==> key in base) && (key in base ==> ctx[key] == base[key]))
    decreases |resolved|
  {
    var n := |resolved|;
    if n > 0 {
      OverlayHolds(base, entries, resolved[..n - 1], key);
      forall j: nat | LastWith(entries, n, key, j)
        ensures var ctx := Overlay(base, entries, resolved); key in ctx && ctx[key] == resolved[j]
      {
        if j < n - 1 { assert LastWith(entries, n - 1, key, j); }
      }
    }
  }

  /** An entry written "${KEY}" takes the value of the last entry before it with that key, or else the
      base environment's, and never that of a later one. */
  lemma EarlierEntriesAreSeen(entries: seq<Entry>, base: map<string, string>, resolved: seq<string>, key: string)
    requires |resolved| < |entries| && ValidName(key) && entries[|resolved|].value == "${" + key + "}"
    ensures forall j: nat :: LastWith(entries, |resolved|, key, j) ==> NextValue(entries, base, resolved) == Ok(resolved[j])
    ensures (forall j :: 0 <= j < |resolved| ==> entries[j].key != key) ==>
      NextValue(entries, base, resolved) == Ok(if key in base then base[key] else "")
  {
    OverlayHolds(base, entries, resolved, key);
    assert Inert(key);
    PlainBraces(key, Overlay(base, entries, resolved));
  }
}
