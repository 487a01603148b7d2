/** Rotations that overlap: refresh and bind split at their awaits, so that the blocklist check, the
    blocklist write and the row's move of one rotation interleave with those of others and with
    revocations. A token counts as minted from its rotation's blocklist write on. */
module Overlap {
  import opened Common
  import opened Sessions

  /** A rotation that has passed the blocklist check, or has written the blocklist and not moved the row. */
  datatype Rotation = Checked(old_: Token) | Swapping(old_: Token, new_: Token)

  /** `chain` maps every minted token to the login its chain started from; `stranded` holds those
      whose rotation ended between its two writes. */
  datatype World = World(st: State, chain: map<Name, Name>, rotations: map<nat, Rotation>, stranded: set<Name>)

  datatype Action =
    | Login(t: Token, home: Workstation)
    | Check(id: nat, t: Token)      // is_token_blocklisted
    | Swap(id: nat, new_: Token)    // blocklist_token with the replacement
    | Move(id: nat)                 // replace_session
    | End(id: nat)                  // refused, cancelled or failed at any await
    | Blocklist(jti: Name)          // the first write of a revocation
    | DeleteRow(jti: Name)          // its second

  const EMPTY := World(State([], map[]), map[], map[], {})

  predicate Enabled(w: World, a: Action)
  {
    match a
    case Login(t, _) => t.jti !in w.chain
    case Check(id, t) => t.jti in w.chain && id !in w.rotations
    case Swap(id, new_) => id in w.rotations && w.rotations[id].Checked? && new_.jti !in w.chain
    case Move(id) => id in w.rotations && w.rotations[id].Swapping?
    case End(id) => id in w.rotations
    case Blocklist(jti) => jti in w.chain
    case DeleteRow(jti) => jti in w.st.blocklist
  }

  function Step(w: World, a: Action): World
  {
    if !Enabled(w, a) then w
    else
      match a
      case Login(t, home) =>
        w.(st := w.st.(rows := w.st.rows + [Row(t.jti, t.user, t.exp, home)]), chain := w.chain[t.jti := t.jti])
      case Check(id, t) => if t.jti in w.st.blocklist then w else w.(rotations := w.rotations[id := Checked(t)])
      case Swap(id, new_) => SwapStep(w, id, w.rotations[id].old_, new_)
      case Move(id) =>
        var r := w.rotations[id];
        w.(st := w.st.(rows := Rekeyed(w.st.rows, r.old_.jti, r.new_)), rotations := w.rotations - {id})
      case End(id) =>
        var r := w.rotations[id];
        w.(rotations := w.rotations - {id}, stranded := w.stranded + if r.Swapping? then {r.new_.jti} else {})
      case Blocklist(jti) => w.(st := w.st.(blocklist := Blocked(w.st.blocklist, jti, None)))
      case DeleteRow(jti) => w.(st := w.st.(rows := Filter(w.st.rows, NotIn({jti}))))
  }

  function SwapStep(w: World, id: nat, old_: Token, new_: Token): World
  {
    World(w.st.(blocklist := Blocked(w.st.blocklist, old_.jti, Some(new_))),
          if old_.jti in w.chain then w.chain[new_.jti := w.chain[old_.jti]] else w.chain,
          w.rotations[id := Swapping(old_, new_)], w.stranded)
  }

  /** With nothing in between, the two writes are the swap of the sequential registry. */
  lemma SwapThenMove(w: World, id: nat, new_: Token)
    requires Enabled(w, Swap(id, new_))
    ensures Step(Step(w, Swap(id, new_)), Move(id)).st == Swapped(w.st, w.rotations[id].old_, new_)
  {
  }

  // ----- the invariant -----

  ghost predicate Root(w: World, r: Name) { r in w.chain && w.chain[r] == r }

  ghost predicate RotationOk(w: World, r: Rotation)
  {
    r.old_.jti in w.chain && (r.Swapping? ==> r.old_.jti in w.st.blocklist && r.new_.jti in w.chain)
  }

  ghost predicate Inv(w: World)
  {
    && (forall j :: j in w.chain ==> Root(w, w.chain[j]))
    && (forall j :: j in w.st.blocklist ==> j in w.chain)
    && (forall id :: id in w.rotations ==> RotationOk(w, w.rotations[id]))
  }

  lemma StepKeepsInv(w: World, a: Action)
    requires Inv(w) && Enabled(w, a)
    ensures Inv(Step(w, a))
  {
    var w' := Step(w, a);
    forall j | j in w'.chain ensures Root(w', w'.chain[j]) {
      if j in w.chain { assert Root(w, w.chain[j]); }
      if a.Swap? { assert RotationOk(w, w.rotations[a.id]) && Root(w, w.chain[w.rotations[a.id].old_.jti]); }
    }
    forall id | id in w'.rotations ensures RotationOk(w', w'.rotations[id]) {
      if id in w.rotations { assert RotationOk(w, w.rotations[id]); }
    }
  }

  // ----- how many tokens of a chain are live -----

  /** The tokens of the chain from login `r` that are not blocklisted. */
  ghost function LiveOf(w: World, r: Name): set<Name> { LiveIn(w.chain, w.st.blocklist.Keys, r) }

  ghost function LiveIn(chain: map<Name, Name>, blocked: set<Name>, r: Name): set<Name>
  {
    set j | j in chain && chain[j] == r && j !in blocked
  }

  /** A rotation writes for a token of chain `r` that someone has blocklisted since its check. */
  ghost predicate Overtaken(w: World, a: Action, r: Name)
  {
    && a.Swap? && a.id in w.rotations && w.rotations[a.id].old_.jti in w.chain
    && w.chain[w.rotations[a.id].old_.jti] == r && w.rotations[a.id].old_.jti in w.st.blocklist
  }

  /** A revocation hits a live token of chain `r`. */
  ghost predicate Revokes(w: World, a: Action, r: Name)
  {
    a.Blocklist? && a.jti in LiveOf(w, r)
  }

  function One(b: bool): nat { if b then 1 else 0 }

  lemma MintCounts(chain: map<Name, Name>, blocked: set<Name>, j: Name, root: Name, r: Name)
    requires j !in chain && j !in blocked
    ensures |LiveIn(chain[j := root], blocked, r)| == |LiveIn(chain, blocked, r)| + One(root == r)
  {
    var before, after := LiveIn(chain, blocked, r), LiveIn(chain[j := root], blocked, r);
    assert after == before + if root == r then {j} else {};
  }

  lemma BlockCounts(chain: map<Name, Name>, blocked: set<Name>, j: Name, r: Name)
    ensures |LiveIn(chain, blocked + {j}, r)| + One(j in LiveIn(chain, blocked, r)) == |LiveIn(chain, blocked, r)|
  {
    var before, after := LiveIn(chain, blocked, r), LiveIn(chain, blocked + {j}, r);
    assert after == before - {j};
  }

  lemma BlockedKeys(blocklist: map<Name, Option<Token>>, jti: Name, replacement: Option<Token>)
    ensures Blocked(blocklist, jti, replacement).Keys == blocklist.Keys + {jti}
  {
  }

  /** One step changes the number of live tokens of a chain only by a login, an overtaken write or a
      revocation. */
  lemma StepCountsLive(w: World, a: Action, r: Name)
    requires Inv(w) && Enabled(w, a)
    ensures |LiveOf(Step(w, a), r)| + One(Revokes(w, a, r))
         == |LiveOf(w, r)| + One(a.Login? && a.t.jti == r) + One(Overtaken(w, a, r))
  {
    match a
    case Login(t, _) => MintCounts(w.chain, w.st.blocklist.Keys, t.jti, t.jti, r);
    case Check(_, _) =>
    case Swap(id, new_) =>
      assert RotationOk(w, w.rotations[id]);
      SwapCountsLive(w, id, w.rotations[id].old_, new_, r);
    case Move(_) =>
    case End(_) =>
    case Blocklist(jti) =>
      BlockedKeys(w.st.blocklist, jti, None);
      BlockCounts(w.chain, w.st.blocklist.Keys, jti, r);
    case DeleteRow(_) =>
  }

  lemma SwapCountsLive(w: World, id: nat, old_: Token, new_: Token, r: Name)
    requires old_.jti in w.chain && new_.jti !in w.chain && new_.jti !in w.st.blocklist
    ensures |LiveOf(SwapStep(w, id, old_, new_), r)|
         == |LiveOf(w, r)| + One(w.chain[old_.jti] == r && old_.jti in w.st.blocklist)
  {
    var blocked := w.st.blocklist.Keys;
    BlockedKeys(w.st.blocklist, old_.jti, Some(new_));
    BlockCounts(w.chain, blocked, old_.jti, r);
    MintCounts(w.chain, blocked + {old_.jti}, new_.jti, w.chain[old_.jti], r);
  }

  // ----- runs -----

  function After(run: seq<Action>): World
  {
    if run == [] then EMPTY else Step(After(run[..|run| - 1]), run[|run| - 1])
  }

  ghost predicate ValidRun(run: seq<Action>)
  {
    run == [] || (ValidRun(run[..|run| - 1]) && Enabled(After(run[..|run| - 1]), run[|run| - 1]))
  }

  lemma {:induction false} RunKeepsInv(run: seq<Action>)
    requires ValidRun(run)
    ensures Inv(After(run))
    decreases |run|
  {
    if run != [] {
      RunKeepsInv(run[..|run| - 1]);
      StepKeepsInv(After(run[..|run| - 1]), run[|run| - 1]);
    }
  }

  /** Overtaken writes of the chain so far. */
  ghost function OvertakenIn(run: seq<Action>, r: Name): nat
  {
    if run == [] then 0
    else OvertakenIn(run[..|run| - 1], r) + One(Overtaken(After(run[..|run| - 1]), run[|run| - 1], r))
  }

  /** Live tokens of the chain revoked so far. */
  ghost function RevokedIn(run: seq<Action>, r: Name): nat
  {
    if run == [] then 0
    else RevokedIn(run[..|run| - 1], r) + One(Revokes(After(run[..|run| - 1]), run[|run| - 1], r))
  }

  lemma StepRoots(w: World, a: Action, r: Name)
    requires Inv(w) && Enabled(w, a)
    ensures Root(Step(w, a), r) <==> Root(w, r) || (a.Login? && a.t.jti == r)
    ensures Root(w, r) ==> !(a.Login? && a.t.jti == r)
  {
    if a.Swap? {
      assert RotationOk(w, w.rotations[a.id]) && Root(w, w.chain[w.rotations[a.id].old_.jti]);
    }
  }

  lemma {:induction false} LiveIsCounted(run: seq<Action>, r: Name)
    requires ValidRun(run)
    ensures |LiveOf(After(run), r)| + RevokedIn(run, r) == One(Root(After(run), r)) + OvertakenIn(run, r)
    decreases |run|
  {
    if run == [] {
      assert LiveOf(EMPTY, r) == {};
    } else {
      var init, a := run[..|run| - 1], run[|run| - 1];
      LiveIsCounted(init, r);
      RunKeepsInv(init);
      StepCountsLive(After(init), a, r);
      StepRoots(After(init), a, r);
    }
  }

  /** However rotations and revocations interleave, a chain has one live token, plus one for each
      overtaken write, less one for each that was revoked. So at most one is live exactly when there
      were no more overtaken writes than revocations. */
  lemma LiveCountExactly(run: seq<Action>, r: Name)
    requires ValidRun(run) && Root(After(run), r)
    ensures |LiveOf(After(run), r)| == 1 + OvertakenIn(run, r) - RevokedIn(run, r)
    ensures |LiveOf(After(run), r)| <= 1 <==> OvertakenIn(run, r) <= RevokedIn(run, r)
  {
    LiveIsCounted(run, r);
  }

  // ----- when a write is overtaken -----

  /** The step blocklists `jti` unless it is blocklisted already: a revocation of it, or the write of a
      rotation that presents it. */
  predicate Writes(w: World, a: Action, jti: Name)
  {
    a == Blocklist(jti) || (a.Swap? && a.id in w.rotations && w.rotations[a.id].old_.jti == jti)
  }

  predicate Blocks(run: seq<Action>, x: nat, jti: Name)
    requires x < |run|
  {
    Writes(After(run[..x]), run[x], jti)
  }

  lemma StepBlocks(w: World, a: Action, jti: Name)
    requires Enabled(w, a)
    ensures jti in Step(w, a).st.blocklist <==> jti in w.st.blocklist || Writes(w, a, jti)
  {
  }

  lemma AfterStep(run: seq<Action>, i: nat)
    requires i < |run| && ValidRun(run)
    ensures After(run[..i + 1]) == Step(After(run[..i]), run[i]) && Enabled(After(run[..i]), run[i])
  {
    ValidPrefix(run, i + 1);
    assert run[..i + 1][..i] == run[..i];
  }

  lemma {:induction false} ValidPrefix(run: seq<Action>, i: nat)
    requires ValidRun(run) && i <= |run|
    ensures ValidRun(run[..i])
    decreases |run|
  {
    if i < |run| {
      ValidPrefix(run[..|run| - 1], i);
      assert run[..|run| - 1][..i] == run[..i];
    } else {
      assert run[..i] == run;
    }
  }

  /** Some step from `i` on and before `j` blocklists `jti`. */
  ghost predicate BlockedBetween(run: seq<Action>, i: nat, j: nat, jti: Name)
    requires i <= j <= |run|
  {
    i < j && (BlockedBetween(run, i, j - 1, jti) || Blocks(run, j - 1, jti))
  }

  lemma {:induction false} BlockedBetweenMeans(run: seq<Action>, i: nat, j: nat, jti: Name)
    requires i <= j <= |run|
    ensures BlockedBetween(run, i, j, jti) <==> exists x :: i <= x < j && Blocks(run, x, jti)
  {
    if i < j { BlockedBetweenMeans(run, i, j - 1, jti); }
  }

  lemma {:induction false} BlockedExactly(run: seq<Action>, i: nat, j: nat, jti: Name)
    requires ValidRun(run) && i <= j <= |run| && jti !in After(run[..i]).st.blocklist
    ensures jti in After(run[..j]).st.blocklist <==> BlockedBetween(run, i, j, jti)
    decreases j
  {
    if i < j {
      BlockedExactly(run, i, j - 1, jti);
      BlockedNext(run, j - 1, jti);
    }
  }

  lemma BlockedNext(run: seq<Action>, x: nat, jti: Name)
    requires ValidRun(run) && x < |run|
    ensures jti in After(run[..x + 1]).st.blocklist <==> jti in After(run[..x]).st.blocklist || Blocks(run, x, jti)
  {
    AfterStep(run, x);
    StepBlocks(After(run[..x]), run[x], jti);
  }

  /** Rotation `id` presents `t`. */
  predicate Presents(w: World, id: nat, t: Token) { id in w.rotations && w.rotations[id].old_ == t }

  lemma StepPresents(w: World, a: Action, id: nat, t: Token)
    requires Enabled(w, a) && Presents(Step(w, a), id, t)
    ensures Presents(w, id, t) || (a == Check(id, t) && t.jti !in w.st.blocklist)
  {
  }

  /** Step `c` is the blocklist check of a rotation that is under way ever since, up to `m`. */
  ghost predicate UnderWaySince(run: seq<Action>, c: nat, m: nat, id: nat, t: Token)
  {
    && c < m <= |run| && run[c] == Check(id, t) && t.jti !in After(run[..c]).st.blocklist
    && forall x :: c < x <= m ==> Presents(After(run[..x]), id, t)
  }

  /** A rotation is under way only since a check that found its token not blocklisted. */
  lemma {:induction false} RotationHistory(run: seq<Action>, m: nat, id: nat, t: Token) returns (c: nat)
    requires ValidRun(run) && m <= |run| && Presents(After(run[..m]), id, t)
    ensures UnderWaySince(run, c, m, id, t)
    decreases m
  {
    c := 0;
    if m > 0 {
      AfterStep(run, m - 1);
      StepPresents(After(run[..m - 1]), run[m - 1], id, t);
      if Presents(After(run[..m - 1]), id, t) {
        c := RotationHistory(run, m - 1, id, t);
      } else {
        c := m - 1;
      }
    }
  }

  /** A write is overtaken exactly when, between its own check and itself, another rotation of the same
      token wrote or the token was revoked. */
  lemma OvertakenExactly(run: seq<Action>, m: nat, t: Token) returns (c: nat)
    requires ValidRun(run) && m < |run| && run[m].Swap? && Presents(After(run[..m]), run[m].id, t)
    ensures UnderWaySince(run, c, m, run[m].id, t)
    ensures var w := After(run[..m]);
      && t.jti in w.chain
      && (Overtaken(w, run[m], w.chain[t.jti]) <==> exists x :: c < x < m && Blocks(run, x, t.jti))
  {
    c := RotationHistory(run, m, run[m].id, t);
    ValidPrefix(run, m);
    RunKeepsInv(run[..m]);
    assert RotationOk(After(run[..m]), After(run[..m]).rotations[run[m].id]);
    BlockedExactly(run, c, m, t.jti);
    BlockedBetweenMeans(run, c, m, t.jti);
    assert !Blocks(run, c, t.jti);
  }

  // ----- rows -----

  /** A live token has its row, or its rotation is between its two writes or ended there. */
  ghost predicate Placed(w: World, j: Name)
  {
    || HasRow(w.st.rows, j) || j in w.stranded
    || exists id :: id in w.rotations && MovesTo(w.rotations[id], j)
  }

  ghost predicate MovesTo(r: Rotation, j: Name) { r.Swapping? && r.new_.jti == j }

  lemma RekeyedHas(rows: seq<Row>, old_: Name, new_: Token, j: Name)
    ensures HasRow(Rekeyed(rows, old_, new_), j) <==> j == new_.jti || (j != old_ && HasRow(rows, j))
  {
    var after := Rekeyed(rows, old_, new_);
    if HasRow(rows, old_) {
      assert |after| == |rows|;
      forall i | 0 <= i < |rows| ensures after[i].jti == if rows[i].jti == old_ then new_.jti else rows[i].jti {}
      var k :| 0 <= k < |rows| && rows[k].jti == old_;
      assert after[k].jti == new_.jti;
      if i :| 0 <= i < |rows| && rows[i].jti == j && j != old_ { assert after[i].jti == j; }
    } else {
      assert after[|rows|].jti == new_.jti;
      if i :| 0 <= i < |rows| && rows[i].jti == j { assert after[i].jti == j; }
    }
  }

  lemma DeletedHas(rows: seq<Row>, jti: Name, j: Name)
    ensures HasRow(Filter(rows, NotIn({jti})), j) <==> j != jti && HasRow(rows, j)
  {
    var after := Filter(rows, NotIn({jti}));
    FilterMembers(rows, NotIn({jti}));
    if i :| 0 <= i < |after| && after[i].jti == j { assert after[i] in rows; }
    if j != jti {
      if i :| 0 <= i < |rows| && rows[i].jti == j { assert rows[i] in after; }
    }
  }

  lemma StepKeepsPlaced(w: World, a: Action, j: Name)
    requires Inv(w) && Enabled(w, a) && j in Step(w, a).chain && j !in Step(w, a).st.blocklist
    requires j in w.chain && j !in w.st.blocklist ==> Placed(w, j)
    ensures Placed(Step(w, a), j)
  {
    var w' := Step(w, a);
    match a
    case Login(t, home) => LoginKeepsPlaced(w, t, home, j);
    case Check(_, _) => KeepsMoving(w, w', j);
    case Swap(id, new_) => SwapKeepsPlaced(w, id, new_, j);
    case Move(id) =>
      assert RotationOk(w, w.rotations[id]);
      RekeyedHas(w.st.rows, w.rotations[id].old_.jti, w.rotations[id].new_, j);
      if id' :| id' in w.rotations && MovesTo(w.rotations[id'], j) && id' != id { assert MovesTo(w'.rotations[id'], j); }
    case End(id) =>
      if id' :| id' in w.rotations && MovesTo(w.rotations[id'], j) && id' != id { assert MovesTo(w'.rotations[id'], j); }
    case Blocklist(_) => KeepsMoving(w, w', j);
    case DeleteRow(jti) =>
      DeletedHas(w.st.rows, jti, j);
      KeepsMoving(w, w', j);
  }

  lemma KeepsMoving(w: World, w': World, j: Name)
    requires Placed(w, j) && (HasRow(w.st.rows, j) ==> HasRow(w'.st.rows, j)) && w.stranded <= w'.stranded
    requires forall id :: id in w.rotations && MovesTo(w.rotations[id], j) ==> id in w'.rotations && w'.rotations[id] == w.rotations[id]
    ensures Placed(w', j)
  {
    if id :| id in w.rotations && MovesTo(w.rotations[id], j) { assert MovesTo(w'.rotations[id], j); }
  }

  lemma LoginKeepsPlaced(w: World, t: Token, home: Workstation, j: Name)
    requires Enabled(w, Login(t, home)) && (j in w.chain ==> Placed(w, j)) && j in Step(w, Login(t, home)).chain
    ensures Placed(Step(w, Login(t, home)), j)
  {
    var w' := Step(w, Login(t, home));
    if j == t.jti {
      assert w'.st.rows[|w.st.rows|].jti == j;
    } else {
      if i :| 0 <= i < |w.st.rows| && w.st.rows[i].jti == j { assert w'.st.rows[i].jti == j; }
      KeepsMoving(w, w', j);
    }
  }

  lemma SwapKeepsPlaced(w: World, id: nat, new_: Token, j: Name)
    requires Enabled(w, Swap(id, new_)) && j in Step(w, Swap(id, new_)).chain && (j in w.chain ==> Placed(w, j))
    ensures Placed(Step(w, Swap(id, new_)), j)
  {
    var w' := Step(w, Swap(id, new_));
    if j == new_.jti {
      assert MovesTo(w'.rotations[id], j);
    } else {
      KeepsMoving(w, w', j);
    }
  }

  /** However rotations and revocations interleave, every live token has its row, except between the two
      writes of its own rotation or where that rotation ended between them. */
  lemma {:induction false} LiveHasRow(run: seq<Action>, j: Name)
    requires ValidRun(run) && j in After(run).chain && j !in After(run).st.blocklist
    ensures Placed(After(run), j)
    decreases |run|
  {
    if run != [] {
      var init, a := run[..|run| - 1], run[|run| - 1];
      RunKeepsInv(init);
      if j in After(init).chain && j !in After(init).st.blocklist { LiveHasRow(init, j); }
      StepKeepsPlaced(After(init), a, j);
    }
  }

  // ----- it does happen -----

  lemma Extend(run: seq<Action>, a: Action)
    requires ValidRun(run) && Enabled(After(run), a)
    ensures ValidRun(run + [a]) && After(run + [a]) == Step(After(run), a)
  {
    assert (run + [a])[..|run|] == run;
  }

  /** The second of two writes for one token mints without blocklisting. */
  lemma TwoSwaps(w: World, a: Token, i: nat, k: nat, b: Token, c: Token)
    requires a.jti in w.chain && a.jti !in w.st.blocklist && b.jti != c.jti
    requires b.jti !in w.chain && c.jti !in w.chain && b.jti !in w.st.blocklist && c.jti !in w.st.blocklist
    ensures var w', r := SwapStep(SwapStep(w, i, a, b), k, a, c), w.chain[a.jti];
      {b.jti, c.jti} <= LiveOf(w', r) && |LiveOf(w', r)| == |LiveOf(w, r)| + 1
  {
    SwapCountsLive(w, i, a, b, w.chain[a.jti]);
    SwapCountsLive(SwapStep(w, i, a, b), k, a, c, w.chain[a.jti]);
  }

  /** Two rotations of one live token that both check before either writes. */
  function Overlapping(run: seq<Action>, a: Token, i: nat, k: nat, b: Token, c: Token): seq<Action>
  {
    run + [Check(i, a)] + [Check(k, a)] + [Swap(i, b)] + [Swap(k, c)]
  }

  /** After any run, they leave their chain with one live token more than before. */
  lemma OverlapAddsOne(run: seq<Action>, a: Token, i: nat, k: nat, b: Token, c: Token)
    requires ValidRun(run) && a.jti in After(run).chain && a.jti !in After(run).st.blocklist
    requires i != k && i !in After(run).rotations && k !in After(run).rotations
    requires b.jti != c.jti && b.jti !in After(run).chain && c.jti !in After(run).chain
    ensures var longer, r := Overlapping(run, a, i, k, b, c), After(run).chain[a.jti];
      && ValidRun(longer) && {b.jti, c.jti} <= LiveOf(After(longer), r)
      && |LiveOf(After(longer), r)| == |LiveOf(After(run), r)| + 1
  {
    var w := After(run);
    var w2 := w.(rotations := w.rotations[i := Checked(a)][k := Checked(a)]);
    RunKeepsInv(run);
    TwoChecks(run, a, i, k);
    var r2 := run + [Check(i, a)] + [Check(k, a)];
    Extend(r2, Swap(i, b));
    Extend(r2 + [Swap(i, b)], Swap(k, c));
    TwoSwaps(w2, a, i, k, b, c);
  }

  lemma TwoChecks(run: seq<Action>, a: Token, i: nat, k: nat)
    requires ValidRun(run) && a.jti in After(run).chain && a.jti !in After(run).st.blocklist
    requires i != k && i !in After(run).rotations && k !in After(run).rotations
    ensures var longer := run + [Check(i, a)] + [Check(k, a)];
      ValidRun(longer) && After(longer) == After(run).(rotations := After(run).rotations[i := Checked(a)][k := Checked(a)])
  {
    Extend(run, Check(i, a));
    Extend(run + [Check(i, a)], Check(k, a));
  }
}
