/** Laws of env expansion: values are copied verbatim, validation is exact where names are set,
    and escaping a text makes it expand to itself. */
module EnvLaws {
  import opened Common
  import opened EnvTemplate

  // ----- environment values are copied, never scanned -----

  /** One stretch of an expansion: text of the template, or the value of a variable. */
  datatype Piece = Text(text: string) | Value(name: string)

  function Pieces(t: Template, env: Env): Option<seq<Piece>>
    decreases t, 1
  {
    match t
    case End => Some([])
    case Bad(_) => None
    case Lit(text, rest) => Join(Some([Text(text)]), Pieces(rest, env))
    case Var(name, rest) => Join(Some([Value(name)]), Pieces(rest, env))
    case Op(name, op, colon, _, word, rest) => Join(OpPieces(name, op, colon, word, env), Pieces(rest, env))
  }

  function OpPieces(name: string, op: Operator, colon: bool, word: Template, env: Env): Option<seq<Piece>>
    decreases word, 2
  {
    if op.Alternative? then (if env.Passes(colon, name) then Pieces(word, env) else Some([]))
    else if env.Passes(colon, name) then Some([Value(name)])
    else if op.Default? then Pieces(word, env)
    else None
  }

  function Join(a: Option<seq<Piece>>, b: Option<seq<Piece>>): Option<seq<Piece>>
  {
    if a.None? || b.None? then None else Some(a.value + b.value)
  }

  /** Pieces put side by side: a variable contributes its value, character for character. */
  function Render(ps: seq<Piece>, env: Env): string
  {
    if ps == [] then "" else (if ps[0].Text? then ps[0].text else env.Lookup(ps[0].name)) + Render(ps[1..], env)
  }

  lemma {:induction false} RenderAppend(ps: seq<Piece>, qs: seq<Piece>, env: Env)
    ensures Render(ps + qs, env) == Render(ps, env) + Render(qs, env)
    decreases |ps|
  {
    if ps == [] {
      assert ps + qs == qs;
    } else {
      assert (ps + qs)[1..] == ps[1..] + qs;
      RenderAppend(ps[1..], qs, env);
    }
  }

  lemma RenderOne(p: Piece, env: Env)
    ensures Render([p], env) == if p.Text? then p.text else env.Lookup(p.name)
  {
    assert [p][1..] == [];
  }

  ghost predicate Renders(r: Result<string>, ps: Option<seq<Piece>>, env: Env)
  {
    (r.Ok? <==> ps.Some?) && (r.Ok? ==> r.value == Render(ps.value, env))
  }

  lemma JoinRenders(r: Result<string>, ps: Option<seq<Piece>>, rest: Result<string>, qs: Option<seq<Piece>>, env: Env)
    requires Renders(r, ps, env) && Renders(rest, qs, env)
    ensures Renders(Then(r, rest), Join(ps, qs), env)
  {
    if ps.Some? && qs.Some? {
      RenderAppend(ps.value, qs.value, env);
    }
  }

  /** Evaluation succeeds exactly when it has pieces, and then it is their rendering. */
  lemma {:induction false} EvalRendersPieces(t: Template, env: Env)
    ensures Renders(Eval(t, env), Pieces(t, env), env)
  {
    match t
    case End =>
    case Bad(_) =>
    case Lit(text, rest) =>
      EvalRendersPieces(rest, env);
      RenderOne(Text(text), env);
      JoinRenders(Ok(text), Some([Text(text)]), Eval(rest, env), Pieces(rest, env), env);
    case Var(name, rest) =>
      EvalRendersPieces(rest, env);
      RenderOne(Value(name), env);
      JoinRenders(Ok(env.Lookup(name)), Some([Value(name)]), Eval(rest, env), Pieces(rest, env), env);
    case Op(name, op, colon, raw, word, rest) =>
      EvalRendersPieces(word, env);
      EvalRendersPieces(rest, env);
      RenderOne(Value(name), env);
      JoinRenders(EvalOp(name, op, colon, raw, word, env), OpPieces(name, op, colon, word, env),
                  Eval(rest, env), Pieces(rest, env), env);
  }

  /** The names a template mentions, in operator words too. */
  function Names(t: Template): seq<string>
  {
    match t
    case End => []
    case Bad(_) => []
    case Lit(_, rest) => Names(rest)
    case Var(name, rest) => [name] + Names(rest)
    case Op(name, _, _, _, word, rest) => [name] + Names(word) + Names(rest)
  }

  /** The name is set in both or in neither, and to the empty string in both or in neither. */
  predicate SameFor(name: string, e1: Env, e2: Env)
  {
    e1.Has(name) == e2.Has(name) && (e1.Has(name) ==> (e1.Get(name) == "") == (e2.Get(name) == ""))
  }

  ghost predicate SameStatus(names: seq<string>, e1: Env, e2: Env)
  {
    forall name :: name in names ==> SameFor(name, e1, e2)
  }

  lemma StatusSplits(a: seq<string>, b: seq<string>, e1: Env, e2: Env)
    requires SameStatus(a + b, e1, e2)
    ensures SameStatus(a, e1, e2) && SameStatus(b, e1, e2)
  {
    forall name | name in a || name in b ensures SameFor(name, e1, e2) { assert name in a + b; }
  }

  lemma {:induction false} PiecesDependOnStatus(t: Template, e1: Env, e2: Env)
    requires SameStatus(Names(t), e1, e2)
    ensures Pieces(t, e1) == Pieces(t, e2)
  {
    match t
    case End =>
    case Bad(_) =>
    case Lit(_, rest) => PiecesDependOnStatus(rest, e1, e2);
    case Var(name, rest) =>
      StatusSplits([name], Names(rest), e1, e2);
      PiecesDependOnStatus(rest, e1, e2);
    case Op(name, _, colon, _, word, rest) =>
      StatusSplits([name] + Names(word), Names(rest), e1, e2);
      StatusSplits([name], Names(word), e1, e2);
      PiecesDependOnStatus(word, e1, e2);
      PiecesDependOnStatus(rest, e1, e2);
      assert name in [name] && SameFor(name, e1, e2);
      assert e1.Passes(colon, name) == e2.Passes(colon, name);
  }

  /** Results are never re-scanned: the contents of variables cannot steer an expansion, they are only
      copied. The value's pieces, fixed by which of the names it mentions are set and which are empty,
      decide whether it expands, and they render its expansion in every environment of that status. */
  lemma ValuesAreCopiedVerbatim(v: string, e1: Env, e2: Env)
    requires SameStatus(Names(Parse(v, 0)), e1, e2)
    ensures var ps := Pieces(Parse(v, 0), e1);
      && (Meaning(v, e2).Ok? <==> Accepted(v) && ps.Some?)
      && (Meaning(v, e2).Ok? ==> Meaning(v, e2).value == Render(ps.value, e2))
  {
    EvalRendersPieces(Parse(v, 0), e2);
    PiecesDependOnStatus(Parse(v, 0), e1, e2);
  }

  // ----- a finite test for all environments -----

  /** Every way to leave each of the names unset, or set it to "" or to "x". */
  function Trials(names: seq<string>): set<map<string, string>>
  {
    if names == [] then {map[]}
    else
      var rest := Trials(names[1..]);
      rest + (set m | m in rest :: m[names[0] := ""]) + (set m | m in rest :: m[names[0] := "x"])
  }

  /** The trial that treats each of the names as `env` does. */
  function Trial(names: seq<string>, env: Env): map<string, string>
  {
    if names == [] then map[]
    else
      var rest := Trial(names[1..], env);
      if !env.Has(names[0]) then rest else rest[names[0] := if env.Get(names[0]) == "" then "" else "x"]
  }

  lemma {:induction false} TrialIsTrial(names: seq<string>, env: Env)
    ensures Trial(names, env) in Trials(names)
    decreases |names|
  {
    if names != [] { TrialIsTrial(names[1..], env); }
  }

  lemma {:induction false} TrialContents(names: seq<string>, env: Env, name: string)
    ensures name in Trial(names, env) <==> name in names && env.Has(name)
    ensures name in Trial(names, env) ==> Trial(names, env)[name] == if env.Get(name) == "" then "" else "x"
    decreases |names|
  {
    if names != [] { TrialContents(names[1..], env, name); }
  }

  /** An environment and its trial make a value succeed or fail together. */
  lemma TrialDecides(v: string, env: Env)
    ensures var m := Trial(Names(Parse(v, 0)), env);
      m in Trials(Names(Parse(v, 0))) && (Meaning(v, env).Ok? <==> Meaning(v, Env(m, None)).Ok?)
  {
    var t := Parse(v, 0);
    var trial := Env(Trial(Names(t), env), None);
    TrialIsTrial(Names(t), env);
    forall name | name in Names(t) ensures SameFor(name, env, trial) { TrialContents(Names(t), env, name); }
    ValuesAreCopiedVerbatim(v, env, env);
    ValuesAreCopiedVerbatim(v, env, trial);
  }

  /** A value expands in every environment exactly when it expands in each of finitely many trials:
      the names it mentions unset, empty or "x", in every combination. */
  lemma TrialsSuffice(v: string)
    ensures (forall env :: Meaning(v, env).Ok?)
       <==> (forall m :: m in Trials(Names(Parse(v, 0))) ==> Meaning(v, Env(m, None)).Ok?)
  {
    if forall m :: m in Trials(Names(Parse(v, 0))) ==> Meaning(v, Env(m, None)).Ok? {
      forall env ensures Meaning(v, env).Ok? { TrialDecides(v, env); }
    }
  }

  // ----- validation -----

  /** Every name the template mentions is set and not empty. */
  ghost predicate AllNamesSet(t: Template, env: Env)
  {
    match t
    case End => true
    case Bad(_) => true
    case Lit(_, rest) => AllNamesSet(rest, env)
    case Var(name, rest) => env.Passes(true, name) && AllNamesSet(rest, env)
    case Op(name, _, _, _, word, rest) =>
      env.Passes(true, name) && AllNamesSet(word, env) && AllNamesSet(rest, env)
  }

  lemma {:induction false} EvalLikeAllSet(t: Template, env: Env)
    requires AllNamesSet(t, env)
    ensures Eval(t, env).Ok? <==> Eval(t, ALL_SET).Ok?
  {
    match t
    case End =>
    case Bad(_) =>
    case Lit(_, rest) => EvalLikeAllSet(rest, env);
    case Var(_, rest) => EvalLikeAllSet(rest, env);
    case Op(_, _, _, _, word, rest) =>
      EvalLikeAllSet(word, env);
      EvalLikeAllSet(rest, env);
  }

  /** Where every name a value mentions is set and not empty, it expands iff validation accepts it. */
  lemma ValidationIsExact(v: string, env: Env)
    requires AllNamesSet(Parse(v, 0), env)
    ensures Meaning(v, env).Ok? <==> Meaning(v, ALL_SET).Ok?
  {
    EvalLikeAllSet(Parse(v, 0), env);
  }

  // ----- escaping -----

  /** Every "$" rewritten to "\$". */
  function EscapeDollars(s: string): string
  {
    if s == "" then "" else (if s[0] == '$' then "\\$" else [s[0]]) + EscapeDollars(s[1..])
  }

  lemma {:induction false} EscapedExpandsFrom(e: string, i: nat, s: string, env: Env)
    requires i <= |e| && e[i..] == EscapeDollars(s)
    ensures Eval(Parse(e, i), env) == Ok(s)
    decreases |s|
  {
    if s != "" {
      var step := if s[0] == '$' then 2 else 1;
      var tail := EscapeDollars(s[1..]);
      assert e[i..][step..] == tail;
      assert e[i + step..] == tail;
      EscapedExpandsFrom(e, i + step, s[1..], env);
      assert e[i] == e[i..][0];
      assert s == [s[0]] + s[1..];
      if s[0] == '$' {
        assert e[i + 1] == e[i..][1];
      } else if i + 1 < |e| {
        assert e[i + 1] == tail[0];
      }
    }
  }

  /** A text with each "$" escaped expands to the text, in every environment. */
  lemma EscapeRoundTrip(s: string, env: Env)
    ensures Eval(Parse(EscapeDollars(s), 0), env) == Ok(s)
  {
    var e := EscapeDollars(s);
    assert e[0..] == e;
    EscapedExpandsFrom(e, 0, s, env);
  }

  /** Every "$" doubled, the other way to write a literal one. */
  function DoubleDollars(s: string): string
  {
    if s == "" then "" else (if s[0] == '$' then "$$" else [s[0]]) + DoubleDollars(s[1..])
  }

  predicate HasBackslashDollar(s: string)
  {
    |s| >= 2 && ((s[0] == '\\' && s[1] == '$') || HasBackslashDollar(s[1..]))
  }

  lemma FirstCharacter(first: string, rest: Result<string>, c: char, tail: string)
    requires first != ""
    ensures Then(Ok(first), rest) == Ok([c] + tail) ==> first[0] == c
    ensures first == [c] ==> (Then(Ok(first), rest) == Ok([c] + tail) <==> rest == Ok(tail))
  {
    if rest.Ok? {
      assert (first + rest.value)[0] == first[0] && ([c] + tail)[0] == c;
      assert first == [c] ==> (first + rest.value)[1..] == rest.value && ([c] + tail)[1..] == tail;
    }
  }

  lemma {:induction false} DoubledExpandsFrom(e: string, i: nat, s: string, env: Env)
    requires i <= |e| && e[i..] == DoubleDollars(s)
    ensures Eval(Parse(e, i), env) == Ok(s) <==> !HasBackslashDollar(s)
    decreases |s|
  {
    if s != "" {
      var tail := DoubleDollars(s[1..]);
      var step := if s[0] == '$' then 2 else 1;
      assert e[i..][step..] == tail;
      assert e[i + step..] == tail;
      assert e[i] == e[i..][0] == s[0];
      assert s == [s[0]] + s[1..];
      assert s[0] == '$' ==> e[i + 1] == e[i..][1];
      if i + 1 < |e| && s[0] != '$' { assert e[i + 1] == tail[0] == s[1]; }
      if s[0] == '\\' && |s| >= 2 && s[1] == '$' {
        FirstCharacter("$", Eval(Parse(e, i + 2), env), s[0], s[1..]);
      } else {
        DoubledExpandsFrom(e, i + step, s[1..], env);
        FirstCharacter([s[0]], Eval(Parse(e, i + step), env), s[0], s[1..]);
      }
    }
  }

  /** A text with each "$" doubled expands to the text exactly when it has no backslash before a "$". */
  lemma DoublingRoundTrip(s: string, env: Env)
    ensures Eval(Parse(DoubleDollars(s), 0), env) == Ok(s) <==> !HasBackslashDollar(s)
  {
    var e := DoubleDollars(s);
    assert e[0..] == e;
    DoubledExpandsFrom(e, 0, s, env);
  }
}
