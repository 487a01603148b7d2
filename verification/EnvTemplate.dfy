/** Workspace env values as a small language: names, brace matching, operators, the template
    tree a value denotes, and its evaluation in an environment. */
module EnvTemplate {
  import opened Common

  datatype Error =
    | Unterminated(value: string)
    | BadName(inner: string)
    | BadOperator(inner: string, name: string)
    | Unset(raw: string, message: string)
    | TooDeep

  datatype Result<+T> = Ok(value: T) | Err(error: Error)

  /** A mapping of names; `fallback`, when present, answers for every name not listed. */
  datatype Env = Env(vars: map<string, string>, fallback: Option<string>) {
    predicate Has(name: string) { name in vars || fallback.Some? }

    function Get(name: string): string
      requires Has(name)
    {
      if name in vars then vars[name] else fallback.value
    }

    /** envexp._lookup: unset expands to the empty string. */
    function Lookup(name: string): string { if Has(name) then Get(name) else "" }

    /** envexp._passes: the set-test of an operator. */
    predicate Passes(colon: bool, name: string) { Has(name) && (!colon || Get(name) != "") }

    function Set(name: string, value: string): Env { this.(vars := vars[name := value]) }
  }

  /** envexp._AllSet: every name is set to "x". */
  const ALL_SET := Env(map[], Some("x"))

  const MAX_NESTING := 16

  // ----- names -----

  predicate IsNameStart(c: char) { 'A' <= c <= 'Z' || 'a' <= c <= 'z' || c == '_' }

  predicate IsNameChar(c: char) { IsNameStart(c) || '0' <= c <= '9' }

  function NameRunEnd(v: string, i: nat): (e: nat)
    requires i <= |v|
    ensures i <= e <= |v|
    decreases |v| - i
  {
    if i < |v| && IsNameChar(v[i]) then NameRunEnd(v, i + 1) else i
  }

  /** The end of the longest name starting at `i`, or `i` when no name starts there. */
  function NameEnd(v: string, i: nat): (e: nat)
    requires i <= |v|
    ensures i <= e <= |v|
  {
    if i < |v| && IsNameStart(v[i]) then NameRunEnd(v, i + 1) else i
  }

  // ----- braces -----

  predicate OpensAt(v: string, k: nat) { k + 1 < |v| && v[k] == '$' && v[k + 1] == '{' }

  /** What the brace token starting at `k`, if any, adds to the nesting. */
  function Weight(v: string, k: nat): int
    requires k < |v|
  {
    if OpensAt(v, k) then 1 else if v[k] == '}' then -1 else 0
  }

  /** "${" tokens minus "}" tokens starting before `k`. */
  function Balance(v: string, k: nat): int
    requires k <= |v|
  {
    if k == 0 then 0 else Balance(v, k - 1) + Weight(v, k - 1)
  }

  /** The first "}" from `i` on that leaves `depth` levels; `depth` levels are open at `i`. */
  function Close(v: string, i: nat, depth: nat): (r: Option<nat>)
    requires i <= |v| && depth > 0
    ensures r.Some? ==> i <= r.value < |v| && v[r.value] == '}'
    decreases |v| - i
  {
    if i == |v| then None
    else if OpensAt(v, i) then Close(v, i + 1, depth + 1)
    else if v[i] != '}' then Close(v, i + 1, depth)
    else if depth == 1 then Some(i)
    else Close(v, i + 1, depth - 1)
  }

  /** `Close` finds the first point where the balance has dropped by `depth`, if there is one. */
  lemma {:induction false} CloseIsFirstDrop(v: string, i: nat, depth: nat)
    requires i <= |v| && depth > 0
    ensures var r := Close(v, i, depth);
      && (r.Some? ==> Balance(v, r.value + 1) == Balance(v, i) - depth)
      && forall m :: i <= m <= (if r.Some? then r.value else |v|) ==> Balance(v, m) > Balance(v, i) - depth
    decreases |v| - i
  {
    if i < |v| {
      assert Balance(v, i + 1) == Balance(v, i) + Weight(v, i);
      if OpensAt(v, i) {
        CloseIsFirstDrop(v, i + 1, depth + 1);
      } else if v[i] != '}' {
        CloseIsFirstDrop(v, i + 1, depth);
      } else if depth > 1 {
        CloseIsFirstDrop(v, i + 1, depth - 1);
      }
    }
  }

  // ----- operators -----

  datatype Operator = Default | Alternative | Required

  datatype Split =
    | Plain(name: string)
    | Applied(name: string, op: Operator, colon: bool, word: string)
    | Malformed(error: Error)

  function OperatorOf(c: char): Option<Operator>
  {
    if c == '-' then Some(Default) else if c == '+' then Some(Alternative)
    else if c == '?' then Some(Required) else None
  }

  /** envexp._split_operator: the innards of a braced reference. */
  function SplitOperator(inner: string): (r: Split)
    ensures r.Applied? ==> |r.word| < |inner| && r.word == inner[|inner| - |r.word|..]
    ensures r.Plain? ==> r.name == inner
    ensures !r.Malformed? ==> r.name <= inner && NameEnd(inner, 0) == |r.name| > 0
  {
    var e := NameEnd(inner, 0);
    if e == 0 then Malformed(BadName(inner))
    else
      var name, rest := inner[..e], inner[e..];
      if rest == "" then Plain(name)
      else if |rest| >= 2 && rest[0] == ':' && OperatorOf(rest[1]).Some? then
        Applied(name, OperatorOf(rest[1]).value, true, rest[2..])
      else if OperatorOf(rest[0]).Some? then Applied(name, OperatorOf(rest[0]).value, false, rest[1..])
      else Malformed(BadOperator(inner, name))
  }

  // ----- templates -----

  /** What a value denotes, whatever the environment. `Bad` fails only when evaluation reaches it. */
  datatype Template =
    | End
    | Lit(text: string, rest: Template)
    | Var(name: string, rest: Template)
    | Op(name: string, op: Operator, colon: bool, raw: string, word: Template, rest: Template)
    | Bad(error: Error)

  function Parse(v: string, i: nat): Template
    requires i <= |v|
    decreases |v|, |v| - i, 1
  {
    if i == |v| then End
    else if v[i] == '\\' && i + 1 < |v| && v[i + 1] == '$' then Lit("$", Parse(v, i + 2))
    else if v[i] != '$' then Lit([v[i]], Parse(v, i + 1))
    else if i + 1 < |v| && v[i + 1] == '$' then Lit("$", Parse(v, i + 2))
    else if i + 1 < |v| && v[i + 1] == '{' then ParseBraced(v, i)
    else
      var e := NameEnd(v, i + 1);
      if e == i + 1 then Lit("$", Parse(v, i + 1)) else Var(v[i + 1..e], Parse(v, e))
  }

  function ParseBraced(v: string, i: nat): Template
    requires i + 1 < |v|
    decreases |v|, |v| - i, 0
  {
    match Close(v, i + 2, 1)
    case None => Bad(Unterminated(v))
    case Some(c) =>
      match SplitOperator(v[i + 2..c])
      case Malformed(error) => Bad(error)
      case Plain(name) => Var(name, Parse(v, c + 1))
      case Applied(name, op, colon, word) => Op(name, op, colon, v, Parse(word, 0), Parse(v, c + 1))
  }

  lemma ParsesToOp(v: string, i: nat, c: nat, name: string, op: Operator, colon: bool, word: string)
    requires OpensAt(v, i) && Close(v, i + 2, 1) == Some(c) && SplitOperator(v[i + 2..c]) == Applied(name, op, colon, word)
    ensures Parse(v, i) == Op(name, op, colon, v, Parse(word, 0), Parse(v, c + 1))
  {
    assert Parse(v, i) == ParseBraced(v, i);
  }

  /** First error wins, left to right; otherwise the texts are joined. */
  function Then(first: Result<string>, rest: Result<string>): Result<string>
  {
    if first.Err? then first else if rest.Err? then rest else Ok(first.value + rest.value)
  }

  function Eval(t: Template, env: Env): Result<string>
    decreases t, 1
  {
    match t
    case End => Ok("")
    case Lit(text, rest) => Then(Ok(text), Eval(rest, env))
    case Var(name, rest) => Then(Ok(env.Lookup(name)), Eval(rest, env))
    case Bad(error) => Err(error)
    case Op(name, op, colon, raw, word, rest) =>
      Then(EvalOp(name, op, colon, raw, word, env), Eval(rest, env))
  }

  /** One operator reference; the word is evaluated only when it is needed. */
  function EvalOp(name: string, op: Operator, colon: bool, raw: string, word: Template, env: Env): Result<string>
    decreases word, 2
  {
    if op.Alternative? then (if env.Passes(colon, name) then Eval(word, env) else Ok(""))
    else if env.Passes(colon, name) then Ok(env.Get(name))
    else
      var text := Eval(word, env);
      if op.Default? || text.Err? then text
      else Err(Unset(raw, if text.value != "" then text.value else name + ": parameter null or not set"))
  }

  function Max(a: nat, b: nat): nat { if a >= b then a else b }

  /** How deep operator words nest in the template. */
  function Nesting(t: Template): nat
  {
    match t
    case End => 0
    case Bad(_) => 0
    case Lit(_, rest) => Nesting(rest)
    case Var(_, rest) => Nesting(rest)
    case Op(_, _, _, _, word, rest) => Max(1 + Nesting(word), Nesting(rest))
  }

  /** How deep word expansions nest in one evaluation, which ends at the first error. */
  function EvalDepth(t: Template, env: Env): nat
    decreases t, 1
  {
    match t
    case End => 0
    case Bad(_) => 0
    case Lit(_, rest) => EvalDepth(rest, env)
    case Var(_, rest) => EvalDepth(rest, env)
    case Op(name, op, colon, raw, word, rest) =>
      var first := OpDepth(name, op, colon, word, env);
      if EvalOp(name, op, colon, raw, word, env).Err? then first else Max(first, EvalDepth(rest, env))
  }

  /** The word counts only when it is expanded. */
  function OpDepth(name: string, op: Operator, colon: bool, word: Template, env: Env): nat
    decreases word, 2
  {
    if op.Alternative? == env.Passes(colon, name) then 1 + EvalDepth(word, env) else 0
  }

  lemma {:induction false} EvalDepthBound(t: Template, env: Env)
    ensures EvalDepth(t, env) <= Nesting(t)
  {
    match t
    case End =>
    case Bad(_) =>
    case Lit(_, rest) => EvalDepthBound(rest, env);
    case Var(_, rest) => EvalDepthBound(rest, env);
    case Op(_, _, _, _, word, rest) =>
      EvalDepthBound(word, env);
      EvalDepthBound(rest, env);
  }

  /** The meaning of a whole value: the nesting gate, then parse and evaluate. */
  predicate Accepted(v: string)
  {
    forall k :: 0 <= k <= |v| ==> Balance(v, k) <= MAX_NESTING
  }

  function Meaning(v: string, env: Env): Result<string>
  {
    if Accepted(v) then Eval(Parse(v, 0), env) else Err(TooDeep)
  }
}
