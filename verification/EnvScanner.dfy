/** The one-pass scanner of envexp.py, in its own imperative form, against the template tree.

    Every method that may raise returns a `Result`; `depth` counts the word expansions that were
    nested inside the call. */
module EnvScanner {
  import opened Common
  import opened EnvTemplate

  /** envexp._find_closing_brace: `i` is one past the opening brace. */
  method FindClosingBrace(v: string, i: nat) returns (r: Option<nat>)
    requires i <= |v|
    ensures r == Close(v, i, 1)
  {
    var depth, k := 1, i;
    while k < |v|
      invariant i <= k <= |v| && depth > 0
      invariant Close(v, k, depth) == Close(v, i, 1)
      decreases |v| - k
    {
      if OpensAt(v, k) {
        assert !OpensAt(v, k + 1) && v[k + 1] != '}';
        depth, k := depth + 1, k + 2;
      } else {
        if v[k] == '}' {
          depth := depth - 1;
          if depth == 0 {
            return Some(k);
          }
        }
        k := k + 1;
      }
    }
    return None;
  }

  /** envexp._reject_deep_nesting: `ok` is false where it raises. */
  method RejectDeepNesting(v: string) returns (ok: bool)
    ensures ok <==> Accepted(v)
  {
    var depth, k := 0, 0;
    while k < |v|
      invariant 0 <= k <= |v| && depth == Balance(v, k)
      invariant forall m :: 0 <= m <= k ==> Balance(v, m) <= MAX_NESTING
      decreases |v| - k
    {
      if OpensAt(v, k) {
        depth := depth + 1;
        assert depth == Balance(v, k + 1) == Balance(v, k + 2);
        k := k + 2;
      } else {
        if v[k] == '}' {
          depth := depth - 1;
        }
        k := k + 1;
      }
      if depth > MAX_NESTING {
        return false;
      }
    }
    return true;
  }

  /** The `-`/`:-` handler. */
  method DefaultWord(raw: string, env: Env, name: string, colon: bool, word: string)
    returns (r: Result<string>, ghost depth: nat)
    requires |word| < |raw|
    ensures r == EvalOp(name, Default, colon, raw, Parse(word, 0), env)
    ensures depth == OpDepth(name, Default, colon, Parse(word, 0), env)
    decreases |raw|, 0, 0
  {
    if env.Passes(colon, name) {
      return Ok(env.Get(name)), 0;
    }
    r, depth := Expand(word, env);
    depth := depth + 1;
  }

  /** The `+`/`:+` handler. */
  method AltWord(raw: string, env: Env, name: string, colon: bool, word: string)
    returns (r: Result<string>, ghost depth: nat)
    requires |word| < |raw|
    ensures r == EvalOp(name, Alternative, colon, raw, Parse(word, 0), env)
    ensures depth == OpDepth(name, Alternative, colon, Parse(word, 0), env)
    decreases |raw|, 0, 0
  {
    if !env.Passes(colon, name) {
      return Ok(""), 0;
    }
    r, depth := Expand(word, env);
    depth := depth + 1;
  }

  /** The `?`/`:?` handler. */
  method RequiredWord(raw: string, env: Env, name: string, colon: bool, word: string)
    returns (r: Result<string>, ghost depth: nat)
    requires |word| < |raw|
    ensures r == EvalOp(name, Required, colon, raw, Parse(word, 0), env)
    ensures depth == OpDepth(name, Required, colon, Parse(word, 0), env)
    decreases |raw|, 0, 0
  {
    if env.Passes(colon, name) {
      return Ok(env.Get(name)), 0;
    }
    r, depth := Expand(word, env);
    depth := depth + 1;
    if r.Ok? {
      r := Err(Unset(raw, if r.value != "" then r.value else name + ": parameter null or not set"));
    }
  }

  /** envexp._apply for a reference with an operator. */
  method Apply(raw: string, env: Env, name: string, op: Operator, colon: bool, word: string)
    returns (r: Result<string>, ghost depth: nat)
    requires |word| < |raw|
    ensures r == EvalOp(name, op, colon, raw, Parse(word, 0), env)
    ensures depth == OpDepth(name, op, colon, Parse(word, 0), env)
    decreases |raw|, 0, 1
  {
    match op {
      case Default => r, depth := DefaultWord(raw, env, name, colon, word);
      case Alternative => r, depth := AltWord(raw, env, name, colon, word);
      case Required => r, depth := RequiredWord(raw, env, name, colon, word);
    }
  }

  /** What one scan step from `i` to `next` contributes to the whole. */
  ghost predicate Scanned(v: string, i: nat, env: Env, r: Result<string>, next: nat)
    requires i <= |v|
  {
    && (r.Ok? ==> i < next <= |v|)
    && (r.Ok? ==> Eval(Parse(v, i), env) == Then(r, Eval(Parse(v, next), env)))
    && (r.Err? ==> Eval(Parse(v, i), env) == r)
  }

  /** How deep the words of that step were nested. */
  ghost predicate Nested(v: string, i: nat, env: Env, r: Result<string>, next: nat, depth: nat)
    requires i <= |v| && (r.Ok? ==> next <= |v|)
  {
    EvalDepth(Parse(v, i), env) == if r.Ok? then Max(depth, EvalDepth(Parse(v, next), env)) else depth
  }

  lemma VarScans(v: string, i: nat, env: Env, name: string, next: nat)
    requires i < next <= |v| && Parse(v, i) == Var(name, Parse(v, next))
    ensures Scanned(v, i, env, Ok(env.Lookup(name)), next) && Nested(v, i, env, Ok(env.Lookup(name)), next, 0)
  {
  }

  lemma OpScans(v: string, i: nat, env: Env, name: string, op: Operator, colon: bool, word: Template, next: nat)
    requires i < next <= |v| && Parse(v, i) == Op(name, op, colon, v, word, Parse(v, next))
    ensures var r := EvalOp(name, op, colon, v, word, env);
      Scanned(v, i, env, r, next) && Nested(v, i, env, r, next, OpDepth(name, op, colon, word, env))
  {
  }

  /** envexp._expand_braced: `i` is at the "$". */
  method ExpandBraced(v: string, i: nat, env: Env) returns (r: Result<string>, next: nat, ghost depth: nat)
    requires OpensAt(v, i)
    ensures Scanned(v, i, env, r, next) && Nested(v, i, env, r, next, depth)
    decreases |v|, 0, 2
  {
    next, depth := |v|, 0;
    assert Parse(v, i) == ParseBraced(v, i);
    var close := FindClosingBrace(v, i + 2);
    if close.None? {
      return Err(Unterminated(v)), next, 0;
    }
    next := close.value + 1;
    match SplitOperator(v[i + 2..close.value]) {
      case Malformed(error) => r := Err(error);
      case Plain(name) =>
        r := Ok(env.Lookup(name));
        VarScans(v, i, env, name, next);
      case Applied(name, op, colon, word) =>
        r, depth := Apply(v, env, name, op, colon, word);
        OpScans(v, i, env, name, op, colon, Parse(word, 0), next);
    }
  }

  /** envexp._scan_reference: one "$" at `i`. */
  method ScanReference(v: string, i: nat, env: Env) returns (r: Result<string>, next: nat, ghost depth: nat)
    requires i < |v| && v[i] == '$'
    ensures Scanned(v, i, env, r, next) && Nested(v, i, env, r, next, depth)
    decreases |v|, 0, 3
  {
    depth := 0;
    if i + 1 < |v| && v[i + 1] == '$' {
      return Ok("$"), i + 2, 0;
    }
    if i + 1 < |v| && v[i + 1] == '{' {
      r, next, depth := ExpandBraced(v, i, env);
      return;
    }
    var e := NameEnd(v, i + 1);
    if e == i + 1 {
      return Ok("$"), i + 1, 0;
    }
    return Ok(env.Lookup(v[i + 1..e])), e, 0;
  }

  /** envexp._expand: the scanner loop equals parse-then-evaluate. */
  method Expand(v: string, env: Env) returns (r: Result<string>, ghost depth: nat)
    ensures r == Eval(Parse(v, 0), env)
    ensures depth == EvalDepth(Parse(v, 0), env)
    decreases |v|, 0, 4
  {
    var out, i := "", 0;
    depth := 0;
    ThenEmpty(Eval(Parse(v, 0), env));
    while i < |v|
      invariant 0 <= i <= |v|
      invariant Eval(Parse(v, 0), env) == Then(Ok(out), Eval(Parse(v, i), env))
      invariant EvalDepth(Parse(v, 0), env) == Max(depth, EvalDepth(Parse(v, i), env))
      decreases |v| - i
    {
      var text, next := Ok("$"), i + 2;
      ghost var d := 0;
      if v[i] == '\\' && i + 1 < |v| && v[i + 1] == '$' {
      } else if v[i] != '$' {
        text, next := Ok([v[i]]), i + 1;
      } else {
        text, next, d := ScanReference(v, i, env);
        if text.Err? {
          return text, Max(depth, d);
        }
      }
      assert Scanned(v, i, env, text, next) && Nested(v, i, env, text, next, d);
      ThenAssociates(out, text.value, Eval(Parse(v, next), env));
      out, i, depth := out + text.value, next, Max(depth, d);
    }
    assert out + "" == out;
    return Ok(out), depth;
  }

  lemma ThenEmpty(r: Result<string>)
    ensures Then(Ok(""), r) == r
  {
    if r.Ok? {
      assert "" + r.value == r.value;
    }
  }

  lemma ThenAssociates(a: string, b: string, rest: Result<string>)
    ensures Then(Ok(a), Then(Ok(b), rest)) == Then(Ok(a + b), rest)
  {
    if rest.Ok? {
      assert a + (b + rest.value) == (a + b) + rest.value;
    }
  }

  /** envexp.expand_env_value. */
  method ExpandEnvValue(v: string, env: Env) returns (r: Result<string>, ghost depth: nat)
    ensures r == Meaning(v, env)
    ensures depth == if Accepted(v) then EvalDepth(Parse(v, 0), env) else 0
  {
    var ok := RejectDeepNesting(v);
    if !ok {
      return Err(TooDeep), 0;
    }
    r, depth := Expand(v, env);
  }

  /** envexp.validate_env_value: `ok` is false where it raises. */
  method ValidateEnvValue(v: string) returns (ok: bool)
    ensures ok <==> Meaning(v, ALL_SET).Ok?
  {
    ok := RejectDeepNesting(v);
    if ok {
      var r, _ := Expand(v, ALL_SET);
      ok := r.Ok?;
    }
  }

  datatype Entry = Entry(key: string, value: string)

  /** `base` overlaid by the first `|resolved|` entries, assigned one after another. */
  function Overlay(base: map<string, string>, entries: seq<Entry>, resolved: seq<string>): map<string, string>
    requires |resolved| <= |entries|
  {
    var n := |resolved|;
    if n == 0 then base
    else Overlay(base, entries, resolved[..n - 1])[entries[n - 1].key := resolved[n - 1]]
  }

  /** The next entry's value expands where the base environment is overlaid by the entries before it,
      and only those. */
  ghost function NextValue(entries: seq<Entry>, base: map<string, string>, resolved: seq<string>): Result<string>
    requires |resolved| < |entries|
  {
    Meaning(entries[|resolved|].value, Env(Overlay(base, entries, resolved), None))
  }

  /** Each value is the one that follows from those before it. */
  ghost predicate ExpandsInOrder(entries: seq<Entry>, base: map<string, string>, resolved: seq<string>)
    requires |resolved| <= |entries|
  {
    forall j {:trigger resolved[j]} :: 0 <= j < |resolved| ==>
      NextValue(entries, base, resolved[..j]) == Ok(resolved[j])
  }

  lemma OverlayStep(entries: seq<Entry>, base: map<string, string>, resolved: seq<string>, value: string)
    requires |resolved| < |entries| && ExpandsInOrder(entries, base, resolved)
    requires NextValue(entries, base, resolved) == Ok(value)
    ensures ExpandsInOrder(entries, base, resolved + [value])
    ensures forall start :: Overlay(start, entries, resolved + [value])
                         == Overlay(start, entries, resolved)[entries[|resolved|].key := value]
  {
    var longer := resolved + [value];
    assert longer[..|resolved|] == resolved;
    forall j | 0 <= j < |longer|
      ensures NextValue(entries, base, longer[..j]) == Ok(longer[j])
    {
      if j < |resolved| {
        assert longer[..j] == resolved[..j] && longer[j] == resolved[j];
      }
    }
  }

  /** `resolved` holds the expanded values in order: all of them where `r` is a map, which they then
      make up, and otherwise those before the first entry that fails, with that entry's error. */
  ghost predicate Resolves(
    entries: seq<Entry>, base: map<string, string>, resolved: seq<string>, r: Result<map<string, string>>)
  {
    && |resolved| <= |entries|
    && ExpandsInOrder(entries, base, resolved)
    && (r.Ok? ==> |resolved| == |entries| && r.value == Overlay(map[], entries, resolved))
    && (r.Err? ==>
          && |resolved| < |entries|
          && NextValue(entries, base, resolved) == Err(r.error))
  }

  /** envexp.expand_env_map over a dict's items. */
  method ExpandEnvMap(entries: seq<Entry>, base: map<string, string>) returns (r: Result<map<string, string>>)
    ensures exists resolved :: Resolves(entries, base, resolved, r)
  {
    var ctx, out := Env(base, None), map[];
    ghost var resolved := [];
    for i := 0 to |entries|
      invariant |resolved| == i && ExpandsInOrder(entries, base, resolved)
      invariant ctx == Env(Overlay(base, entries, resolved), None)
      invariant out == Overlay(map[], entries, resolved)
    {
      var value, _ := ExpandEnvValue(entries[i].value, ctx);
      if value.Err? {
        r := Err(value.error);
        assert Resolves(entries, base, resolved, r);
        return;
      }
      ctx := ctx.Set(entries[i].key, value.value);
      out := out[entries[i].key := value.value];
      OverlayStep(entries, base, resolved, value.value);
      resolved := resolved + [value.value];
    }
    r := Ok(out);
    assert Resolves(entries, base, resolved, r);
  }

  /** With a dict's distinct keys, the result holds each entry's own expansion and nothing else. */
  lemma {:induction false} OverlayContents(entries: seq<Entry>, resolved: seq<string>)
    requires forall i, j :: 0 <= i < j < |entries| ==> entries[i].key != entries[j].key
    requires |resolved| <= |entries|
    ensures forall j :: 0 <= j < |resolved| ==>
      entries[j].key in Overlay(map[], entries, resolved)
      && Overlay(map[], entries, resolved)[entries[j].key] == resolved[j]
    ensures forall key :: key in Overlay(map[], entries, resolved) ==>
      exists j :: 0 <= j < |resolved| && entries[j].key == key
    decreases |resolved|
  {
    if resolved != [] {
      OverlayContents(entries, resolved[..|resolved| - 1]);
    }
  }

  /** Each element is what `next` says of those before it. */
  ghost predicate Follows(next: seq<string> -> Result<string>, values: seq<string>)
  {
    forall j {:trigger values[j]} :: 0 <= j < |values| ==> next(values[..j]) == Ok(values[j])
  }

  lemma {:induction false} FollowsOnce(next: seq<string> -> Result<string>, ours: seq<string>, theirs: seq<string>, n: nat)
    requires Follows(next, ours) && Follows(next, theirs) && n <= |ours| && n <= |theirs|
    ensures ours[..n] == theirs[..n]
    decreases n
  {
    if n > 0 {
      FollowsOnce(next, ours, theirs, n - 1);
      assert ours[n - 1] == theirs[n - 1];
      assert ours[..n] == ours[..n - 1] + [ours[n - 1]];
      assert theirs[..n] == theirs[..n - 1] + [theirs[n - 1]];
    }
  }

  /** A reading that is shorter than another goes on. */
  lemma ShorterGoesOn(next: seq<string> -> Result<string>, short: seq<string>, long: seq<string>)
    requires Follows(next, short) && Follows(next, long) && |short| < |long|
    ensures next(short).Ok?
  {
    FollowsOnce(next, short, long, |short|);
    assert long[..|short|] == short[..|short|] == short;
    assert next(long[..|short|]) == Ok(long[|short|]);
  }

  /** A reading that stops where there is no next value is the only one. */
  lemma FollowsToTheEnd(next: seq<string> -> Result<string>, ours: seq<string>, theirs: seq<string>)
    requires Follows(next, ours) && Follows(next, theirs) && next(ours).Err? && next(theirs).Err?
    ensures ours == theirs
  {
    if |ours| < |theirs| {
      ShorterGoesOn(next, ours, theirs);
    } else if |theirs| < |ours| {
      ShorterGoesOn(next, theirs, ours);
    } else {
      FollowsOnce(next, ours, theirs, |ours|);
    }
  }

  /** The next value of a map's reading; none past its last entry. */
  ghost function NextOf(entries: seq<Entry>, base: map<string, string>): seq<string> -> Result<string>
  {
    resolved => if |resolved| < |entries| then NextValue(entries, base, resolved) else Err(TooDeep)
  }

  lemma ResolvesFollows(entries: seq<Entry>, base: map<string, string>, resolved: seq<string>, r: Result<map<string, string>>)
    requires Resolves(entries, base, resolved, r)
    ensures var next := NextOf(entries, base);
      && Follows(next, resolved) && next(resolved).Err?
      && r == if |resolved| == |entries| then Ok(Overlay(map[], entries, resolved)) else Err(next(resolved).error)
  {
  }

  /** The outcome is determined: two readings of one map agree on every value and on the error. */
  lemma ResolvesOnce(
    entries: seq<Entry>, base: map<string, string>,
    ours: seq<string>, r: Result<map<string, string>>, theirs: seq<string>, r': Result<map<string, string>>)
    requires Resolves(entries, base, ours, r) && Resolves(entries, base, theirs, r')
    ensures ours == theirs && r == r'
  {
    ResolvesFollows(entries, base, ours, r);
    ResolvesFollows(entries, base, theirs, r');
    FollowsToTheEnd(NextOf(entries, base), ours, theirs);
  }
}
