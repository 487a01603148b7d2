/** The session registry: issue, refresh, bind, revoke, the session cap and the token blocklist. */
module Sessions {
  import opened Common

  /** Token ids, users, thumbprints, addresses and agents. */
  type Name = string

  /** A token as its claims: key thumbprint `jkt` once bound, `deadline` for web-minted sessions. */
  datatype Token = Token(jti: Name, user: Name, exp: real, jkt: Option<Name>, deadline: Option<real>)

  datatype Workstation = Workstation(ip: Option<Name>, agent: Option<Name>)

  const UNKNOWN := Workstation(None, None)

  datatype Row = Row(jti: Name, user: Name, exp: real, home: Workstation)

  /** Session rows oldest first; each blocklisted jti with the replacement cached beside it, if any. */
  datatype State = State(rows: seq<Row>, blocklist: map<Name, Option<Token>>)

  datatype Binding = Off | Ip | Strict

  /** `sameIp` is the address comparison of the workstation binding. */
  datatype Config = Config(cap: int, binding: Binding, sameIp: (Name, Name) -> bool)

  // ----- rows -----

  datatype Test = OfUser(user: Name) | NotOf(user: Name) | Unexpired(now: real) | NotIn(jtis: set<Name>)

  predicate Holds(t: Test, r: Row)
  {
    match t
    case OfUser(user) => r.user == user
    case NotOf(user) => r.user != user
    case Unexpired(now) => r.exp > now
    case NotIn(jtis) => r.jti !in jtis
  }

  function Filter(rows: seq<Row>, t: Test): seq<Row>
  {
    if rows == [] then [] else (if Holds(t, rows[0]) then [rows[0]] else []) + Filter(rows[1..], t)
  }

  ghost predicate Distinct(rows: seq<Row>) { forall i, j :: 0 <= i < j < |rows| ==> rows[i].jti != rows[j].jti }

  predicate HasRow(rows: seq<Row>, jti: Name) { exists i :: 0 <= i < |rows| && rows[i].jti == jti }

  function Jtis(rows: seq<Row>): set<Name> { set i | 0 <= i < |rows| :: rows[i].jti }

  lemma {:induction false} FilterMembers(rows: seq<Row>, t: Test)
    ensures forall r :: r in Filter(rows, t) <==> r in rows && Holds(t, r)
    ensures |Filter(rows, t)| <= |rows|
    decreases |rows|
  {
    if rows != [] {
      FilterMembers(rows[1..], t);
      assert forall r :: r in rows <==> r == rows[0] || r in rows[1..];
    }
  }

  lemma {:induction false} FilterDistinct(rows: seq<Row>, t: Test)
    requires Distinct(rows)
    ensures Distinct(Filter(rows, t))
    decreases |rows|
  {
    if rows != [] {
      FilterDistinct(rows[1..], t);
      FilterMembers(rows[1..], t);
      var rest := Filter(rows[1..], t);
      assert forall i :: 0 <= i < |rest| ==> rest[i] in rest;
    }
  }

  lemma {:induction false} FilterCommutes(rows: seq<Row>, t: Test, u: Test)
    ensures Filter(Filter(rows, t), u) == Filter(Filter(rows, u), t)
    decreases |rows|
  {
    if rows != [] {
      FilterCommutes(rows[1..], t, u);
      FilterCons(rows[0], Filter(rows[1..], t), u);
      FilterCons(rows[0], Filter(rows[1..], u), t);
    }
  }

  lemma FilterCons(r: Row, rows: seq<Row>, t: Test)
    ensures Filter([r] + rows, t) == (if Holds(t, r) then [r] else []) + Filter(rows, t)
    ensures Filter([] + rows, t) == Filter(rows, t)
  {
    assert ([r] + rows)[1..] == rows && [] + rows == rows;
  }

  lemma {:induction false} FilterAppend(a: seq<Row>, b: seq<Row>, t: Test)
    ensures Filter(a + b, t) == Filter(a, t) + Filter(b, t)
    decreases |a|
  {
    if a == [] {
      assert a + b == b;
    } else {
      assert (a + b)[1..] == a[1..] + b;
      FilterAppend(a[1..], b, t);
      var head := if Holds(t, a[0]) then [a[0]] else [];
      Associate(head, Filter(a[1..], t), Filter(b, t));
    }
  }

  lemma {:induction false} FilterAll(rows: seq<Row>, t: Test)
    requires forall r :: r in rows ==> Holds(t, r)
    ensures Filter(rows, t) == rows
    decreases |rows|
  {
    if rows != [] { FilterAll(rows[1..], t); }
  }

  lemma {:induction false} FilterAgrees(rows: seq<Row>, t: Test, u: Test)
    requires forall r :: r in rows ==> (Holds(t, r) <==> Holds(u, r))
    ensures Filter(rows, t) == Filter(rows, u)
    decreases |rows|
  {
    if rows != [] { FilterAgrees(rows[1..], t, u); }
  }

  lemma {:induction false} FilterNone(rows: seq<Row>, t: Test)
    requires forall r :: r in rows ==> !Holds(t, r)
    ensures Filter(rows, t) == []
    decreases |rows|
  {
    if rows != [] { FilterNone(rows[1..], t); }
  }

  // ----- storage steps -----

  /** INSERT OR IGNORE INTO token_blocklist. */
  function Blocked(blocklist: map<Name, Option<Token>>, jti: Name, replacement: Option<Token>): map<Name, Option<Token>>
  {
    if jti in blocklist then blocklist else blocklist[jti := replacement]
  }

  function BlockedAll(blocklist: map<Name, Option<Token>>, rows: seq<Row>): map<Name, Option<Token>>
  {
    if rows == [] then blocklist else Blocked(BlockedAll(blocklist, rows[..|rows| - 1]), rows[|rows| - 1].jti, None)
  }

  /** _revoke_sessions stopped after `k` single steps: one blocklist write per victim, then one delete. */
  function RevokeSteps(st: State, victims: seq<Row>, k: nat): State
    requires k <= |victims| + 1
  {
    if k <= |victims| then st.(blocklist := BlockedAll(st.blocklist, victims[..k]))
    else State(Filter(st.rows, NotIn(Jtis(victims))), BlockedAll(st.blocklist, victims))
  }

  function Revoke(st: State, jti: Name): State
  {
    State(Filter(st.rows, NotIn({jti})), Blocked(st.blocklist, jti, None))
  }

  /** _enforce_session_limit. */
  function Capped(st: State, user: Name, now: real, cap: int): State
  {
    var st' := st.(rows := Filter(st.rows, Unexpired(now)));
    var mine := Filter(st'.rows, OfUser(user));
    if cap <= 0 || |mine| <= cap then st'
    else RevokeSteps(st', mine[..|mine| - cap], |mine| - cap + 1)
  }

  /** replace_session: the row moves to the new jti in place, or a new row is inserted. */
  function Rekeyed(rows: seq<Row>, old_: Name, new_: Token): seq<Row>
  {
    if HasRow(rows, old_) then
      seq(|rows|, i requires 0 <= i < |rows| => if rows[i].jti == old_ then rows[i].(jti := new_.jti, exp := new_.exp) else rows[i])
    else rows + [Row(new_.jti, new_.user, new_.exp, UNKNOWN)]
  }

  /** _swap_token. */
  function Swapped(st: State, old_: Token, new_: Token): State
  {
    State(Rekeyed(st.rows, old_.jti, new_), Blocked(st.blocklist, old_.jti, Some(new_)))
  }

  // ----- operations -----

  datatype Reply = Minted(token: Token) | Cached(token: Token) | Refused

  datatype Outcome = Outcome(st: State, reply: Reply)

  /** A presentation: where it comes from, the judgements made outside the registry (proof of
      possession, account state, idle check), the new token's jti and lifetime, and the time. */
  datatype Query = Query(ws: Workstation, proofOk: bool, userOk: bool, idle: bool, newJti: Name, lifetime: real, now: real)

  /** workstation_mismatch: unknown values never differ. */
  predicate Mismatch(cfg: Config, home: Workstation, ws: Workstation)
  {
    || (home.ip.Some? && ws.ip.Some? && home.ip != ws.ip && !cfg.sameIp(home.ip.value, ws.ip.value))
    || (cfg.binding.Strict? && home.agent.Some? && ws.agent.Some? && home.agent != ws.agent)
  }

  /** reject_replayed_session: the token's row records another workstation. */
  predicate Replayed(cfg: Config, st: State, jti: Name, ws: Workstation)
  {
    !cfg.binding.Off? && exists i :: 0 <= i < |st.rows| && st.rows[i].jti == jti && Mismatch(cfg, st.rows[i].home, ws)
  }

  /** Hand over the cached replacement, unless the presenter is on another workstation. */
  function Handover(cfg: Config, st: State, cached: Token, ws: Workstation): Outcome
  {
    if Replayed(cfg, st, cached.jti, ws) then Outcome(Revoke(st, cached.jti), Refused) else Outcome(st, Cached(cached))
  }

  function Replacement(st: State, jti: Name): Option<Token>
  {
    if jti in st.blocklist then st.blocklist[jti] else None
  }

  function Renewed(t: Token, q: Query): Token { Token(q.newJti, t.user, q.now + q.lifetime, t.jkt, t.deadline) }

  predicate DeadlinePassed(t: Token, now: real) { t.jkt.None? && t.deadline.Some? && now > t.deadline.value }

  /** Auth.refresh_token. */
  function Refresh(cfg: Config, st: State, t: Token, q: Query): Outcome
  {
    var cached := Replacement(st, t.jti);
    if t.exp < q.now then (if cached.Some? then Handover(cfg, st, cached.value, q.ws) else Outcome(st, Refused))
    else if DeadlinePassed(t, q.now) then Outcome(st, Refused)
    else if Replayed(cfg, st, t.jti, q.ws) then Outcome(Revoke(st, t.jti), Refused)
    else if t.jti in st.blocklist then (if cached.Some? then Handover(cfg, st, cached.value, q.ws) else Outcome(st, Refused))
    else if (t.jkt.Some? && !q.proofOk) || !q.userOk then Outcome(st, Refused)
    else if q.idle then Outcome(Revoke(st, t.jti), Refused)
    else Outcome(Capped(Swapped(st, t, Renewed(t, q)), t.user, q.now, cfg.cap), Minted(Renewed(t, q)))
  }

  function BoundTo(t: Token, jkt: Name, q: Query): Token { Token(q.newJti, t.user, t.exp, Some(jkt), t.deadline) }

  /** Auth.bind_token; `jkt` is the thumbprint of an acceptable key. */
  function Bind(cfg: Config, st: State, t: Token, jkt: Option<Name>, q: Query): Outcome
  {
    var cached := Replacement(st, t.jti);
    if t.exp < q.now then Outcome(st, Refused)
    else if t.jti in st.blocklist then (if cached.Some? then Handover(cfg, st, cached.value, q.ws) else Outcome(st, Refused))
    else if t.jkt.Some? || jkt.None? || !q.userOk then Outcome(st, Refused)
    else Outcome(Capped(Swapped(st, t, BoundTo(t, jkt.value, q)), t.user, q.now, cfg.cap), Minted(BoundTo(t, jkt.value, q)))
  }

  /** Auth.issue_token. */
  function Issue(cfg: Config, st: State, t: Token, home: Workstation, now: real): State
  {
    Capped(st.(rows := st.rows + [Row(t.jti, t.user, t.exp, home)]), t.user, now, cfg.cap)
  }

  /** Auth.revoke_all_user_sessions. */
  function RevokeAll(st: State, user: Name): State
  {
    var mine := Filter(st.rows, OfUser(user));
    RevokeSteps(st, mine, |mine| + 1)
  }

  // ----- what the operations write -----

  lemma {:induction false} BlockedAllKeys(blocklist: map<Name, Option<Token>>, rows: seq<Row>)
    ensures var after := BlockedAll(blocklist, rows);
      && after.Keys == blocklist.Keys + Jtis(rows)
      && (forall j :: j in blocklist ==> after[j] == blocklist[j])
      && (forall j :: j in after && j !in blocklist ==> after[j].None?)
    decreases |rows|
  {
    if rows != [] {
      var init := rows[..|rows| - 1];
      BlockedAllKeys(blocklist, init);
      assert Jtis(rows) == Jtis(init) + {rows[|rows| - 1].jti};
    } else {
      assert Jtis(rows) == {};
    }
  }

  lemma CappedKeepsBlocklist(st: State, user: Name, now: real, cap: int, j: Name)
    requires j in st.blocklist
    ensures j in Capped(st, user, now, cap).blocklist && Capped(st, user, now, cap).blocklist[j] == st.blocklist[j]
  {
    var mine := Filter(Filter(st.rows, Unexpired(now)), OfUser(user));
    if cap > 0 && |mine| > cap { BlockedAllKeys(st.blocklist, mine[..|mine| - cap]); }
  }

  /** No row and a blocklist entry. */
  ghost predicate Ended(st: State, jti: Name) { jti in st.blocklist && !HasRow(st.rows, jti) }

  lemma RevokeEnds(st: State, jti: Name)
    ensures var st' := Revoke(st, jti);
      && Ended(st', jti) && st'.blocklist.Keys == st.blocklist.Keys + {jti}
      && (jti !in st.blocklist ==> st'.blocklist[jti].None?)
      && (forall j :: j in st.blocklist ==> st'.blocklist[j] == st.blocklist[j])
      && (forall r :: r in st'.rows <==> r in st.rows && r.jti != jti)
  {
    FilterMembers(st.rows, NotIn({jti}));
    assert forall i :: 0 <= i < |Revoke(st, jti).rows| ==> Revoke(st, jti).rows[i] in Revoke(st, jti).rows;
  }

  /** Every session of the user is ended, and nobody else's rows are touched. */
  lemma RevokeAllEnds(st: State, user: Name)
    ensures var st' := RevokeAll(st, user);
      && (forall r :: r in st'.rows ==> r in st.rows && r.user != user)
      && (forall r :: r in st.rows && r.user == user ==> r.jti in st'.blocklist && !HasRow(st'.rows, r.jti))
      && (forall j :: j in st.blocklist ==> j in st'.blocklist && st'.blocklist[j] == st.blocklist[j])
      && (Distinct(st.rows) ==> st'.rows == Filter(st.rows, NotOf(user)))
  {
    var mine := Filter(st.rows, OfUser(user));
    var gone := NotIn(Jtis(mine));
    BlockedAllKeys(st.blocklist, mine);
    FilterMembers(st.rows, OfUser(user));
    FilterMembers(st.rows, gone);
    forall r | r in st.rows && r.user == user ensures !Holds(gone, r) { JtisHas(mine, r); }
    assert forall i :: 0 <= i < |Filter(st.rows, gone)| ==> Filter(st.rows, gone)[i] in Filter(st.rows, gone);
    if Distinct(st.rows) {
      forall r | r in st.rows ensures Holds(gone, r) <==> Holds(NotOf(user), r) { OthersSpared(st.rows, mine, user, r); }
      FilterAgrees(st.rows, gone, NotOf(user));
    }
  }

  lemma JtisHas(rows: seq<Row>, r: Row)
    requires r in rows
    ensures r.jti in Jtis(rows)
  {
  }

  lemma OthersSpared(rows: seq<Row>, mine: seq<Row>, user: Name, r: Row)
    requires Distinct(rows) && r in rows && forall m :: m in mine <==> m in rows && m.user == user
    ensures r.jti in Jtis(mine) <==> r.user == user
  {
    if r.jti in Jtis(mine) {
      var i :| 0 <= i < |mine| && mine[i].jti == r.jti;
      assert mine[i] in mine;
      var j :| 0 <= j < |rows| && rows[j] == mine[i];
      var k :| 0 <= k < |rows| && rows[k] == r;
    }
    if r.user == user { JtisHas(mine, r); }
  }

  /** A swap re-keys the session's row where it stands, with its home, or adds a row of unknown home. */
  lemma RekeyedRows(rows: seq<Row>, old_: Name, new_: Token)
    ensures var after := Rekeyed(rows, old_, new_);
      && (HasRow(rows, old_) ==> |after| == |rows| && forall i :: 0 <= i < |rows| ==>
            after[i].user == rows[i].user && after[i].home == rows[i].home
            && (if rows[i].jti == old_ then after[i].jti == new_.jti && after[i].exp == new_.exp else after[i] == rows[i]))
      && (!HasRow(rows, old_) ==> after == rows + [Row(new_.jti, new_.user, new_.exp, UNKNOWN)])
  {
  }

  /** When a presentation counts as coming from another workstation: never with the binding off, and
      never by a value that is unknown on either side; by known addresses that differ, and in strict
      mode by known agents that differ. */
  lemma ReplayedExactly(cfg: Config, st: State, jti: Name, ws: Workstation)
    ensures Replayed(cfg, st, jti, ws) <==>
      exists r :: r in st.rows && r.jti == jti && (
        || (cfg.binding in {Ip, Strict} && IpsDiffer(cfg, r.home, ws))
        || (cfg.binding == Strict && AgentsDiffer(r.home, ws)))
  {
    if Replayed(cfg, st, jti, ws) {
      var i :| 0 <= i < |st.rows| && st.rows[i].jti == jti && Mismatch(cfg, st.rows[i].home, ws);
      assert st.rows[i] in st.rows;
    }
  }

  predicate IpsDiffer(cfg: Config, home: Workstation, ws: Workstation)
  {
    home.ip.Some? && ws.ip.Some? && home.ip.value != ws.ip.value && !cfg.sameIp(home.ip.value, ws.ip.value)
  }

  predicate AgentsDiffer(home: Workstation, ws: Workstation)
  {
    home.agent.Some? && ws.agent.Some? && home.agent.value != ws.agent.value
  }

  predicate InTime(t: Token, now: real)
  {
    now <= t.exp && (t.jkt.None? && t.deadline.Some? ==> now <= t.deadline.value)
  }

  /** The token is presented in time from a workstation that is not its session's. */
  predicate FromElsewhere(cfg: Config, st: State, t: Token, q: Query) { InTime(t, q.now) && Replayed(cfg, st, t.jti, q.ws) }

  /** The token is good in every way, and its session is idle. */
  predicate IdledOut(cfg: Config, st: State, t: Token, q: Query)
  {
    && InTime(t, q.now) && !Replayed(cfg, st, t.jti, q.ws) && t.jti !in st.blocklist
    && (t.jkt.Some? ==> q.proofOk) && q.userOk && q.idle
  }

  /** The token has a replacement, which is all that it can still get. */
  predicate AsksForReplacement(cfg: Config, st: State, t: Token, q: Query)
  {
    (q.now > t.exp || (InTime(t, q.now) && !Replayed(cfg, st, t.jti, q.ws))) && Replacement(st, t.jti).Some?
  }

  /** What a refresh that does not mint does: from another workstation, or idle, it ends the session;
      asked for the replacement from another workstation it ends that; otherwise it writes nothing. */
  lemma RefreshRefuses(cfg: Config, st: State, t: Token, q: Query)
    ensures var o := Refresh(cfg, st, t, q);
      && (FromElsewhere(cfg, st, t, q) || IdledOut(cfg, st, t, q) ==>
            o == Outcome(Revoke(st, t.jti), Refused) && Ended(o.st, t.jti))
      && (AsksForReplacement(cfg, st, t, q) ==>
            var cached := Replacement(st, t.jti).value;
            if Replayed(cfg, st, cached.jti, q.ws)
            then o == Outcome(Revoke(st, cached.jti), Refused) && Ended(o.st, cached.jti)
            else o == Outcome(st, Cached(cached)))
      && (o.reply.Refused? && !FromElsewhere(cfg, st, t, q) && !IdledOut(cfg, st, t, q) && !AsksForReplacement(cfg, st, t, q) ==>
            o.st == st)
  {
    RevokeEnds(st, t.jti);
    if Replacement(st, t.jti).Some? { RevokeEnds(st, Replacement(st, t.jti).value.jti); }
  }

  /** What a bind that does not mint does: it writes only where the replacement is asked for from
      another workstation, and then ends that. */
  lemma BindRefuses(cfg: Config, st: State, t: Token, jkt: Option<Name>, q: Query)
    ensures var o, cached := Bind(cfg, st, t, jkt, q), Replacement(st, t.jti);
      && (q.now <= t.exp && cached.Some? ==>
            if Replayed(cfg, st, cached.value.jti, q.ws)
            then o == Outcome(Revoke(st, cached.value.jti), Refused) && Ended(o.st, cached.value.jti)
            else o == Outcome(st, Cached(cached.value)))
      && (o.reply.Refused? && !(q.now <= t.exp && cached.Some?) ==> o.st == st)
  {
    if Replacement(st, t.jti).Some? { RevokeEnds(st, Replacement(st, t.jti).value.jti); }
  }

  /** What a refresh returns and writes: a mint swaps the presented token for its successor, a cached
      answer writes nothing, and no blocklist entry is ever changed. */
  lemma RefreshWrites(cfg: Config, st: State, t: Token, q: Query)
    ensures var o := Refresh(cfg, st, t, q);
      && (o.reply.Minted? ==> t.jti in o.st.blocklist && o.st.blocklist[t.jti] == Some(o.reply.token))
      && (o.reply.Cached? ==> o.st == st && Replacement(st, t.jti) == Some(o.reply.token))
      && (forall j :: j in st.blocklist ==> j in o.st.blocklist && o.st.blocklist[j] == st.blocklist[j])
  {
    RotationWrites(st, t, Renewed(t, q), q.now, cfg.cap);
  }

  lemma BindWrites(cfg: Config, st: State, t: Token, jkt: Option<Name>, q: Query)
    ensures var o := Bind(cfg, st, t, jkt, q);
      && (o.reply.Minted? ==> t.jti in o.st.blocklist && o.st.blocklist[t.jti] == Some(o.reply.token))
      && (o.reply.Cached? ==> o.st == st && Replacement(st, t.jti) == Some(o.reply.token))
      && (forall j :: j in st.blocklist ==> j in o.st.blocklist && o.st.blocklist[j] == st.blocklist[j])
  {
    if jkt.Some? { RotationWrites(st, t, BoundTo(t, jkt.value, q), q.now, cfg.cap); }
  }

  lemma RotationWrites(st: State, old_: Token, new_: Token, now: real, cap: int)
    ensures var st' := Capped(Swapped(st, old_, new_), old_.user, now, cap);
      && (old_.jti !in st.blocklist ==> old_.jti in st'.blocklist && st'.blocklist[old_.jti] == Some(new_))
      && (forall j :: j in st.blocklist ==> j in st'.blocklist && st'.blocklist[j] == st.blocklist[j])
  {
    var swapped := Swapped(st, old_, new_);
    forall j | j in swapped.blocklist
      ensures var st' := Capped(swapped, old_.user, now, cap); j in st'.blocklist && st'.blocklist[j] == swapped.blocklist[j]
    {
      CappedKeepsBlocklist(swapped, old_.user, now, cap, j);
    }
  }

  // ----- the object -----

  class Registry {
    const cfg: Config
    var rows: seq<Row>
    var blocklist: map<Name, Option<Token>>

    function View(): State reads this { State(rows, blocklist) }

    constructor (cfg: Config)
      ensures this.cfg == cfg && View() == State([], map[])
    {
      this.cfg, rows, blocklist := cfg, [], map[];
    }

    method BlocklistToken(jti: Name, replacement: Option<Token>)
      modifies `blocklist
      ensures blocklist.Keys == old(blocklist).Keys + {jti}
      ensures jti !in old(blocklist) ==> blocklist[jti] == replacement
      ensures forall j :: j in old(blocklist) ==> blocklist[j] == old(blocklist)[j]
      ensures blocklist == Blocked(old(blocklist), jti, replacement)
    {
      if jti !in blocklist {
        blocklist := blocklist[jti := replacement];
      }
    }

    /** _revoke_sessions: blocklist each victim, oldest first, then delete the rows. */
    method RevokeSessions(victims: seq<Row>)
      modifies this
      ensures View() == RevokeSteps(old(View()), victims, |victims| + 1)
    {
      for i := 0 to |victims|
        invariant View() == RevokeSteps(old(View()), victims, i)
      {
        assert victims[..i + 1][..i] == victims[..i];
        BlocklistToken(victims[i].jti, None);
      }
      assert victims[..|victims|] == victims;
      rows := Filter(rows, NotIn(Jtis(victims)));
    }

    method EnforceSessionLimit(user: Name, now: real)
      modifies this
      ensures cfg.cap <= 0 ==> blocklist == old(blocklist) && rows == Filter(old(rows), Unexpired(now))
      ensures View() == Capped(old(View()), user, now, cfg.cap)
    {
      rows := Filter(rows, Unexpired(now));
      if cfg.cap <= 0 {
        return;
      }
      var mine := Filter(rows, OfUser(user));
      if |mine| > cfg.cap {
        RevokeSessions(mine[..|mine| - cfg.cap]);
      }
    }

    method IssueToken(t: Token, home: Workstation, now: real)
      modifies this
      ensures cfg.cap <= 0 ==>
        blocklist == old(blocklist) && rows == Filter(old(rows) + [Row(t.jti, t.user, t.exp, home)], Unexpired(now))
      ensures View() == Issue(cfg, old(View()), t, home, now)
    {
      rows := rows + [Row(t.jti, t.user, t.exp, home)];
      EnforceSessionLimit(t.user, now);
    }

    method RevokeSession(jti: Name)
      modifies this
      ensures Ended(View(), jti) && forall r :: r in rows <==> r in old(rows) && r.jti != jti
      ensures View() == Revoke(old(View()), jti)
    {
      RevokeEnds(View(), jti);
      BlocklistToken(jti, None);
      rows := Filter(rows, NotIn({jti}));
    }

    method RevokeAllUserSessions(user: Name)
      modifies this
      ensures forall r :: r in rows ==> r in old(rows) && r.user != user
      ensures forall r :: r in old(rows) && r.user == user ==> Ended(View(), r.jti)
      ensures Distinct(old(rows)) ==> rows == Filter(old(rows), NotOf(user))
      ensures forall j :: j in old(blocklist) ==> j in blocklist && blocklist[j] == old(blocklist)[j]
      ensures View() == RevokeAll(old(View()), user)
    {
      RevokeAllEnds(View(), user);
      RevokeSessions(Filter(rows, OfUser(user)));
    }

    method SwapToken(old_: Token, new_: Token)
      modifies this
      ensures old_.jti !in old(blocklist) ==> blocklist == old(blocklist)[old_.jti := Some(new_)]
      ensures old_.jti in old(blocklist) ==> blocklist == old(blocklist)
      ensures View() == Swapped(old(View()), old_, new_)
    {
      BlocklistToken(old_.jti, Some(new_));
      rows := Rekeyed(rows, old_.jti, new_);
    }

    method RefreshedOrRevoked(cached: Option<Token>, ws: Workstation) returns (reply: Reply)
      modifies this
      ensures reply.Cached? <==> cached.Some? && !old(Replayed(cfg, View(), cached.value.jti, ws))
      ensures reply.Cached? ==> reply.token == cached.value && View() == old(View())
      ensures !reply.Cached? ==> reply.Refused? && if cached.Some? then Ended(View(), cached.value.jti) else View() == old(View())
      ensures Outcome(View(), reply)
           == if cached.Some? then Handover(cfg, old(View()), cached.value, ws) else Outcome(old(View()), Refused)
    {
      if cached.None? {
        return Refused;
      }
      RevokeEnds(View(), cached.value.jti);
      if Replayed(cfg, View(), cached.value.jti, ws) {
        RevokeSession(cached.value.jti);
        return Refused;
      }
      return Cached(cached.value);
    }

    method RefreshToken(t: Token, q: Query) returns (reply: Reply)
      modifies this
      ensures reply.Minted? <==>
        && q.now <= t.exp && t.jti !in old(blocklist) && !old(Replayed(cfg, View(), t.jti, q.ws))
        && (if t.jkt.Some? then q.proofOk else t.deadline.Some? ==> q.now <= t.deadline.value)
        && q.userOk && !q.idle
      ensures reply.Minted? ==> reply.token == Token(q.newJti, t.user, q.now + q.lifetime, t.jkt, t.deadline)
      ensures reply.Minted? ==> t.jti in blocklist && blocklist[t.jti] == Some(reply.token)
      ensures reply.Cached? ==> old(Replacement(View(), t.jti)) == Some(reply.token) && View() == old(View())
      ensures forall j :: j in old(blocklist) ==> j in blocklist && blocklist[j] == old(blocklist)[j]
      ensures old(FromElsewhere(cfg, View(), t, q) || IdledOut(cfg, View(), t, q)) ==> reply.Refused? && Ended(View(), t.jti)
      ensures old(AsksForReplacement(cfg, View(), t, q)) ==>
        var cached := old(Replacement(View(), t.jti)).value;
        if old(Replayed(cfg, View(), cached.jti, q.ws)) then reply.Refused? && Ended(View(), cached.jti) else reply == Cached(cached)
      ensures reply.Refused? && !old(FromElsewhere(cfg, View(), t, q) || IdledOut(cfg, View(), t, q) || AsksForReplacement(cfg, View(), t, q))
        ==> View() == old(View())
      ensures Outcome(View(), reply) == Refresh(cfg, old(View()), t, q)
    {
      RefreshWrites(cfg, View(), t, q);
      RefreshRefuses(cfg, View(), t, q);
      if t.exp < q.now {
        reply := RefreshedOrRevoked(Replacement(View(), t.jti), q.ws);
        return;
      }
      if DeadlinePassed(t, q.now) {
        return Refused;
      }
      if Replayed(cfg, View(), t.jti, q.ws) {
        RevokeSession(t.jti);
        return Refused;
      }
      if t.jti in blocklist {
        reply := RefreshedOrRevoked(blocklist[t.jti], q.ws);
        return;
      }
      if (t.jkt.Some? && !q.proofOk) || !q.userOk {
        return Refused;
      }
      if q.idle {
        RevokeSession(t.jti);
        return Refused;
      }
      SwapToken(t, Renewed(t, q));
      EnforceSessionLimit(t.user, q.now);
      return Minted(Renewed(t, q));
    }

    method BindToken(t: Token, jkt: Option<Name>, q: Query) returns (reply: Reply)
      modifies this
      ensures reply.Minted? <==>
        q.now <= t.exp && t.jti !in old(blocklist) && t.jkt.None? && jkt.Some? && q.userOk
      ensures reply.Minted? ==> reply.token == Token(q.newJti, t.user, t.exp, jkt, t.deadline)
      ensures reply.Minted? ==> t.jti in blocklist && blocklist[t.jti] == Some(reply.token)
      ensures reply.Cached? ==> old(Replacement(View(), t.jti)) == Some(reply.token) && View() == old(View())
      ensures forall j :: j in old(blocklist) ==> j in blocklist && blocklist[j] == old(blocklist)[j]
      ensures q.now <= t.exp && old(Replacement(View(), t.jti)).Some? ==>
        var cached := old(Replacement(View(), t.jti)).value;
        if old(Replayed(cfg, View(), cached.jti, q.ws)) then reply.Refused? && Ended(View(), cached.jti) else reply == Cached(cached)
      ensures reply.Refused? && !(q.now <= t.exp && old(Replacement(View(), t.jti)).Some?) ==> View() == old(View())
      ensures Outcome(View(), reply) == Bind(cfg, old(View()), t, jkt, q)
    {
      BindRefuses(cfg, View(), t, jkt, q);
      BindWrites(cfg, View(), t, jkt, q);
      if t.exp < q.now {
        return Refused;
      }
      if t.jti in blocklist {
        reply := RefreshedOrRevoked(blocklist[t.jti], q.ws);
        return;
      }
      if t.jkt.Some? || jkt.None? || !q.userOk {
        return Refused;
      }
      SwapToken(t, BoundTo(t, jkt.value, q));
      EnforceSessionLimit(t.user, q.now);
      return Minted(BoundTo(t, jkt.value, q));
    }
  }
}
