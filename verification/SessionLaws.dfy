/** What the session registry keeps over every run: token families, the cap, and completeness. */
module SessionLaws {
  import opened Common
  import opened Sessions

  // ----- revocation, step by step -----

  lemma RowJti(rows: seq<Row>, r: Row)
    requires r in rows
    ensures r.jti in Jtis(rows)
  {
    var i :| 0 <= i < |rows| && rows[i] == r;
  }

  /** Stopped after any single step, a revocation has blocklisted every victim whose row is gone. */
  lemma NoLiveVictimWithoutRow(st: State, victims: seq<Row>, k: nat, v: Row)
    requires k <= |victims| + 1 && v in victims && v in st.rows
    ensures var st' := RevokeSteps(st, victims, k);
      v in st'.rows || v.jti in st'.blocklist
  {
    BlockedAllKeys(st.blocklist, victims);
    RowJti(victims, v);
  }

  // ----- the cap -----

  function Newest(rows: seq<Row>, cap: int): seq<Row> { if 0 <= cap < |rows| then rows[|rows| - cap..] else rows }

  lemma RowsOfOthers(rows: seq<Row>, user: Name, victims: seq<Row>, other: Name)
    requires Distinct(rows) && other != user && forall v :: v in victims ==> v in rows && v.user == user
    ensures Filter(Filter(rows, NotIn(Jtis(victims))), OfUser(other)) == Filter(rows, OfUser(other))
  {
    FilterCommutes(rows, NotIn(Jtis(victims)), OfUser(other));
    FilterMembers(rows, OfUser(other));
    forall r | r in Filter(rows, OfUser(other)) ensures Holds(NotIn(Jtis(victims)), r) {
      forall i | 0 <= i < |victims| ensures victims[i].jti != r.jti {
        assert victims[i] in victims;
        SameJtiSameRow(rows, victims[i], r);
      }
    }
    FilterAll(Filter(rows, OfUser(other)), NotIn(Jtis(victims)));
  }

  lemma SameJtiSameRow(rows: seq<Row>, a: Row, b: Row)
    requires Distinct(rows) && a in rows && b in rows
    ensures a.jti == b.jti ==> a == b
  {
    var i :| 0 <= i < |rows| && rows[i] == a;
    var j :| 0 <= j < |rows| && rows[j] == b;
    assert i < j ==> rows[i].jti != rows[j].jti;
    assert j < i ==> rows[j].jti != rows[i].jti;
  }

  lemma NewestRemain(mine: seq<Row>, n: nat)
    requires Distinct(mine) && n <= |mine|
    ensures Filter(mine, NotIn(Jtis(mine[..n]))) == mine[n..]
  {
    var gone := NotIn(Jtis(mine[..n]));
    assert mine == mine[..n] + mine[n..];
    FilterAppend(mine[..n], mine[n..], gone);
    forall r | r in mine[..n] ensures !Holds(gone, r) { RowJti(mine[..n], r); }
    FilterNone(mine[..n], gone);
    FilterAll(mine[n..], gone);
  }

  /** Whoever is kept, everybody newer is kept too. */
  ghost predicate NewestFirst(mine: seq<Row>, kept: seq<Row>)
  {
    forall i, j :: 0 <= i < j < |mine| && mine[i] in kept ==> mine[j] in kept
  }

  lemma KeptAreNewest(mine: seq<Row>, rows: seq<Row>, user: Name, cap: int)
    requires Distinct(mine) && (forall r :: r in mine ==> r.user == user) && cap > 0
    requires Filter(rows, OfUser(user)) == Newest(mine, cap)
    ensures NewestFirst(mine, rows)
  {
    FilterMembers(rows, OfUser(user));
    var n := |mine| - |Newest(mine, cap)|;
    assert Newest(mine, cap) == mine[n..];
    forall i | 0 <= i < |mine| ensures mine[i] in rows <==> n <= i {
      assert mine[i] in mine;
      InSuffix(mine, n, i);
    }
  }

  lemma InSuffix(rows: seq<Row>, n: nat, i: nat)
    requires Distinct(rows) && n <= |rows| && i < |rows|
    ensures rows[i] in rows[n..] <==> n <= i
  {
    if n <= i { assert rows[n..][i - n] == rows[i]; }
    if k :| 0 <= k < |rows| - n && rows[n..][k] == rows[i] { assert rows[n + k] == rows[i]; }
  }

  /** The rows after a write: the user keeps the newest unexpired ones up to the cap, and whoever
      is evicted is blocklisted. */
  ghost predicate KeepsNewest(written: seq<Row>, st: State, user: Name, now: real, cap: int)
  {
    var mine := Filter(Filter(written, Unexpired(now)), OfUser(user));
    && (forall r :: r in mine <==> r in written && r.user == user && r.exp > now)
    && NewestFirst(mine, st.rows)
    && Filter(st.rows, OfUser(user)) == Newest(mine, cap)
    && |Filter(st.rows, OfUser(user))| == (if |mine| <= cap then |mine| else cap)
    && forall r :: r in mine && r !in st.rows ==> r.jti in st.blocklist
  }

  /** Enforcing a positive cap leaves the user exactly the newest rows that have not expired, up to
      the cap; every evicted jti is blocklisted; other users keep their unexpired rows. */
  lemma CapKeepsNewest(st: State, user: Name, now: real, cap: int)
    requires Distinct(st.rows) && cap > 0
    ensures var st' := Capped(st, user, now, cap);
      && KeepsNewest(st.rows, st', user, now, cap)
      && (forall other :: other != user ==>
            Filter(st'.rows, OfUser(other)) == Filter(Filter(st.rows, Unexpired(now)), OfUser(other)))
  {
    FilterMembers(st.rows, Unexpired(now));
    var live := Filter(st.rows, Unexpired(now));
    var mine := Filter(live, OfUser(user));
    FilterDistinct(st.rows, Unexpired(now));
    FilterMembers(live, OfUser(user));
    if |mine| > cap {
      EvictsOldest(st.(rows := live), user, |mine| - cap);
    }
    FilterDistinct(live, OfUser(user));
    KeptAreNewest(mine, Capped(st, user, now, cap).rows, user, cap);
  }

  /** Revoking the oldest `n` rows of a user leaves the user the rest, and the others theirs. */
  lemma EvictsOldest(st: State, user: Name, n: nat)
    requires Distinct(st.rows) && n <= |Filter(st.rows, OfUser(user))|
    ensures var mine := Filter(st.rows, OfUser(user)); var st' := RevokeSteps(st, mine[..n], n + 1);
      && Filter(st'.rows, OfUser(user)) == mine[n..]
      && (forall r :: r in mine && r !in st'.rows ==> r.jti in st'.blocklist)
      && (forall other :: other != user ==> Filter(st'.rows, OfUser(other)) == Filter(st.rows, OfUser(other)))
  {
    var mine := Filter(st.rows, OfUser(user));
    var victims := mine[..n];
    FilterDistinct(st.rows, OfUser(user));
    FilterMembers(st.rows, OfUser(user));
    FilterCommutes(st.rows, NotIn(Jtis(victims)), OfUser(user));
    NewestRemain(mine, n);
    BlockedAllKeys(st.blocklist, victims);
    FilterMembers(st.rows, NotIn(Jtis(victims)));
    assert forall v :: v in victims ==> v in mine;
    forall other | other != user
      ensures Filter(Filter(st.rows, NotIn(Jtis(victims))), OfUser(other)) == Filter(st.rows, OfUser(other))
    {
      RowsOfOthers(st.rows, user, victims, other);
    }
  }

  // ----- tokens ever minted -----

  /** `issued` holds every token ever minted, `root` the mint its chain of swaps started from, and
      `legacy` those that never had a row. */
  datatype World = World(st: State, issued: map<Name, Token>, root: map<Name, Name>, legacy: set<Name>)

  ghost predicate Kin(w: World, i: Name, j: Name)
  {
    i in w.issued && j in w.issued && i in w.root && j in w.root && w.root[i] == w.root[j]
  }

  ghost predicate Live(w: World, j: Name) { j in w.issued && j !in w.st.blocklist }

  /** Token `j` is recorded under its own jti, and so is the root of its chain. */
  ghost predicate Own(w: World, j: Name)
    requires j in w.issued
  {
    w.issued[j].jti == j && j in w.root && w.root[j] in w.issued
  }

  /** A blocklisted jti was issued, and its replacement, if it has one, is a kin. */
  ghost predicate BlockOk(w: World, j: Name)
    requires j in w.st.blocklist
  {
    j in w.issued &&
    (w.st.blocklist[j].Some? ==>
       var r := w.st.blocklist[j].value; r.jti in w.issued && w.issued[r.jti] == r && Kin(w, r.jti, j))
  }

  ghost predicate Recorded(w: World)
  {
    && (forall j :: j in w.issued ==> Own(w, j))
    && (forall j :: j in w.root ==> j in w.issued)
    && (forall j :: j in w.st.blocklist ==> BlockOk(w, j))
  }

  /** Two tokens of one chain share their owner and bind deadline; a key, once set, is that of every
      later one; and only one of them is live. */
  ghost predicate KinOk(w: World, i: Name, j: Name)
    requires Kin(w, i, j)
  {
    && w.issued[i].deadline == w.issued[j].deadline && w.issued[i].user == w.issued[j].user
    && (w.issued[i].jkt.Some? && (w.issued[j].jkt.Some? || Live(w, j)) ==> w.issued[j].jkt == w.issued[i].jkt)
    && (Live(w, i) && Live(w, j) ==> i == j)
  }

  ghost predicate FamilyOk(w: World) { forall i, j :: Kin(w, i, j) ==> KinOk(w, i, j) }

  ghost predicate RowOk(w: World, r: Row)
  {
    r.jti in w.issued && r.exp == w.issued[r.jti].exp && r.user == w.issued[r.jti].user
  }

  /** If `j` is live, unexpired and was minted by the registry, it has its row. */
  ghost predicate Registered(w: World, j: Name, now: real)
    requires j in w.issued
  {
    Live(w, j) && j !in w.legacy && w.issued[j].exp > now ==> HasRow(w.st.rows, j)
  }

  ghost predicate RowsOk(w: World, now: real)
  {
    && Distinct(w.st.rows)
    && (forall r :: r in w.st.rows ==> RowOk(w, r))
    && (forall j :: j in w.issued ==> Registered(w, j, now))
  }

  ghost predicate Inv(w: World, now: real) { Recorded(w) && FamilyOk(w) && RowsOk(w, now) }

  /** The blocklist grows, by issued tokens and without replacements. */
  ghost predicate BlocklistGrows(w: World, st: State)
  {
    && (forall j :: j in w.st.blocklist ==> j in st.blocklist && st.blocklist[j] == w.st.blocklist[j])
    && (forall j :: j in st.blocklist && j !in w.st.blocklist ==> st.blocklist[j].None? && j in w.issued)
  }

  /** A row goes only if it is blocklisted or expired. */
  ghost predicate RowsShrink(w: World, st: State, now: real)
  {
    && Distinct(st.rows)
    && (forall r :: r in st.rows ==> r in w.st.rows)
    && (forall r :: r in w.st.rows ==> r in st.rows || r.jti in st.blocklist || r.exp <= now)
  }

  /** A step that only revokes. */
  ghost predicate OnlyRevokes(w: World, st: State, now: real) { BlocklistGrows(w, st) && RowsShrink(w, st, now) }

  lemma RevokingKeepsKin(w: World, st: State, i: Name, j: Name)
    requires Kin(w, i, j) && KinOk(w, i, j)
    requires (i in w.st.blocklist ==> i in st.blocklist) && (j in w.st.blocklist ==> j in st.blocklist)
    ensures KinOk(w.(st := st), i, j)
  {
  }

  lemma RevokingKeepsBlock(w: World, st: State, j: Name)
    requires j in st.blocklist
    requires if j in w.st.blocklist then BlockOk(w, j) && st.blocklist[j] == w.st.blocklist[j]
             else j in w.issued && st.blocklist[j].None?
    ensures BlockOk(w.(st := st), j)
  {
  }

  lemma RevokingKeepsFamily(w: World, st: State)
    requires Recorded(w) && FamilyOk(w) && BlocklistGrows(w, st)
    ensures Recorded(w.(st := st)) && FamilyOk(w.(st := st))
  {
    var w' := w.(st := st);
    forall j | j in w'.issued ensures Own(w', j) { assert Own(w, j); }
    forall j | j in st.blocklist ensures BlockOk(w', j) { RevokingKeepsBlock(w, st, j); }
    forall i, j | Kin(w', i, j) ensures KinOk(w', i, j) {
      assert Kin(w, i, j);
      RevokingKeepsKin(w, st, i, j);
    }
  }

  lemma RowHasRow(rows: seq<Row>, r: Row)
    requires r in rows
    ensures HasRow(rows, r.jti)
  {
  }

  lemma RevokingKeepsRows(w: World, st: State, before: real, now: real)
    requires RowsOk(w, before) && before <= now && OnlyRevokes(w, st, now)
    ensures RowsOk(w.(st := st), now)
  {
    var w' := w.(st := st);
    forall r | r in st.rows ensures RowOk(w', r) { assert RowOk(w, r); }
    forall j | j in w'.issued ensures Registered(w', j, now) {
      assert Registered(w, j, before);
      if Live(w', j) && j !in w'.legacy && w'.issued[j].exp > now {
        var i :| 0 <= i < |w.st.rows| && w.st.rows[i].jti == j;
        assert w.st.rows[i] in w.st.rows && RowOk(w, w.st.rows[i]);
        RowHasRow(st.rows, w.st.rows[i]);
      }
    }
  }

  lemma RevokingKeepsInv(w: World, st: State, before: real, now: real)
    requires Inv(w, before) && before <= now && OnlyRevokes(w, st, now)
    ensures Inv(w.(st := st), now)
  {
    RevokingKeepsFamily(w, st);
    RevokingKeepsRows(w, st, before, now);
  }

  lemma RevokeOnlyRevokes(w: World, jti: Name, now: real)
    requires jti in w.issued && Distinct(w.st.rows)
    ensures OnlyRevokes(w, Revoke(w.st, jti), now)
  {
    FilterMembers(w.st.rows, NotIn({jti}));
    FilterDistinct(w.st.rows, NotIn({jti}));
  }

  lemma RevokeStepsOnlyRevokes(w: World, live: seq<Row>, victims: seq<Row>, now: real)
    requires Distinct(live) && (forall r :: r in live ==> r in w.st.rows && RowOk(w, r))
    requires forall r :: r in w.st.rows ==> r in live || r.exp <= now
    requires forall v :: v in victims ==> v in live
    ensures OnlyRevokes(w, RevokeSteps(w.st.(rows := live), victims, |victims| + 1), now)
  {
    assert forall v :: v in victims ==> RowOk(w, v);
    RevokeGrowsBlocklist(w, w.st.(rows := live), victims);
    BlockedAllKeys(w.st.blocklist, victims);
    FilterMembers(live, NotIn(Jtis(victims)));
    FilterDistinct(live, NotIn(Jtis(victims)));
  }

  lemma RevokeGrowsBlocklist(w: World, st: State, victims: seq<Row>)
    requires st.blocklist == w.st.blocklist && forall v :: v in victims ==> RowOk(w, v)
    ensures BlocklistGrows(w, RevokeSteps(st, victims, |victims| + 1))
  {
    BlockedAllKeys(w.st.blocklist, victims);
    forall j | j in Jtis(victims) ensures j in w.issued {
      var i :| 0 <= i < |victims| && victims[i].jti == j;
      assert victims[i] in victims;
    }
  }

  /** The rows that have not expired. */
  lemma PurgeKeeps(w: World, now: real)
    requires RowsOk(w, now)
    ensures var live := Filter(w.st.rows, Unexpired(now));
      && Distinct(live)
      && (forall r :: r in live ==> r in w.st.rows && RowOk(w, r))
      && (forall r :: r in w.st.rows ==> r in live || r.exp <= now)
  {
    FilterMembers(w.st.rows, Unexpired(now));
    FilterDistinct(w.st.rows, Unexpired(now));
  }

  lemma OldestAreRows(live: seq<Row>, user: Name, n: nat)
    requires n <= |Filter(live, OfUser(user))|
    ensures forall v :: v in Filter(live, OfUser(user))[..n] ==> v in live
  {
    var mine := Filter(live, OfUser(user));
    FilterMembers(live, OfUser(user));
    assert forall v :: v in mine[..n] ==> v in mine;
  }

  lemma CappedOnlyRevokes(w: World, user: Name, now: real, cap: int)
    requires RowsOk(w, now)
    ensures OnlyRevokes(w, Capped(w.st, user, now, cap), now)
  {
    var live := Filter(w.st.rows, Unexpired(now));
    var mine := Filter(live, OfUser(user));
    PurgeKeeps(w, now);
    if cap > 0 && |mine| > cap {
      OldestAreRows(live, user, |mine| - cap);
      RevokeStepsOnlyRevokes(w, live, mine[..|mine| - cap], now);
    }
  }

  // ----- minting -----

  /** `new_` takes over from `old_`: same owner and deadline, the same key or a first one. */
  ghost predicate Succeeds(old_: Token, new_: Token)
  {
    new_.user == old_.user && new_.deadline == old_.deadline && (old_.jkt.Some? ==> new_.jkt == old_.jkt)
  }

  function WithToken(w: World, t: Token, root: Name, st: State): World
  {
    World(st, w.issued[t.jti := t], w.root[t.jti := root], w.legacy)
  }

  function AfterSwap(w: World, old_: Token, new_: Token): World
    requires old_.jti in w.root
  {
    WithToken(w, new_, w.root[old_.jti], Swapped(w.st, old_, new_))
  }

  lemma SwapRows(rows: seq<Row>, old_: Name, new_: Token)
    requires Distinct(rows) && !HasRow(rows, new_.jti) && forall o :: o in rows && o.jti == old_ ==> o.user == new_.user
    ensures Distinct(Rekeyed(rows, old_, new_)) && HasRow(Rekeyed(rows, old_, new_), new_.jti)
    ensures forall j :: j != old_ && HasRow(rows, j) ==> HasRow(Rekeyed(rows, old_, new_), j)
    ensures forall r :: r in Rekeyed(rows, old_, new_) ==>
      (r in rows && r.jti != old_) || (r.jti == new_.jti && r.exp == new_.exp && r.user == new_.user)
  {
    var after := Rekeyed(rows, old_, new_);
    if HasRow(rows, old_) {
      var i :| 0 <= i < |rows| && rows[i].jti == old_;
      assert after[i].jti == new_.jti;
      forall j | j != old_ && HasRow(rows, j) ensures HasRow(after, j) {
        var k :| 0 <= k < |rows| && rows[k].jti == j;
        assert after[k] == rows[k];
      }
      forall r | r in after
        ensures (r in rows && r.jti != old_) || (r.jti == new_.jti && r.exp == new_.exp && r.user == new_.user)
      {
        var k :| 0 <= k < |after| && after[k] == r;
        assert rows[k] in rows;
      }
    } else {
      assert after[|rows|].jti == new_.jti;
      forall j | HasRow(rows, j) ensures HasRow(after, j) {
        HasRowGrows(rows, after[|rows|], j);
        assert after == rows + [after[|rows|]];
      }
    }
  }

  lemma SwapKeepsKin(w: World, old_: Token, new_: Token, i: Name, j: Name)
    requires FamilyOk(w) && Live(w, old_.jti) && old_.jti in w.root && w.issued[old_.jti] == old_
    requires new_.jti !in w.issued && Succeeds(old_, new_) && Kin(AfterSwap(w, old_, new_), i, j)
    ensures KinOk(AfterSwap(w, old_, new_), i, j)
  {
    var i', j' := if i == new_.jti then old_.jti else i, if j == new_.jti then old_.jti else j;
    assert Kin(w, i', j') && KinOk(w, i', j');
    if w.root[i'] == w.root[old_.jti] {
      assert Kin(w, i', old_.jti) && KinOk(w, i', old_.jti);
      assert Kin(w, j', old_.jti) && KinOk(w, j', old_.jti);
    }
  }

  lemma SwapKeepsBlock(w: World, old_: Token, new_: Token, j: Name)
    requires Live(w, old_.jti) && old_.jti in w.root && new_.jti !in w.issued
    requires j == old_.jti || (j in w.st.blocklist && BlockOk(w, j))
    ensures j in AfterSwap(w, old_, new_).st.blocklist && BlockOk(AfterSwap(w, old_, new_), j)
  {
  }

  lemma SwapKeepsRecorded(w: World, old_: Token, new_: Token)
    requires Recorded(w) && Live(w, old_.jti) && old_.jti in w.root && new_.jti !in w.issued
    ensures Recorded(AfterSwap(w, old_, new_))
  {
    var w' := AfterSwap(w, old_, new_);
    assert Own(w, old_.jti);
    forall j | j in w'.issued ensures Own(w', j) {
      if j != new_.jti { assert Own(w, j); }
    }
    forall j | j in w'.st.blocklist ensures BlockOk(w', j) {
      SwapKeepsBlock(w, old_, new_, j);
    }
  }

  lemma SwapKeepsFamily(w: World, old_: Token, new_: Token)
    requires FamilyOk(w) && Live(w, old_.jti) && old_.jti in w.root && w.issued[old_.jti] == old_
    requires new_.jti !in w.issued && Succeeds(old_, new_)
    ensures FamilyOk(AfterSwap(w, old_, new_))
  {
    var w' := AfterSwap(w, old_, new_);
    forall i, j | Kin(w', i, j) ensures KinOk(w', i, j) { SwapKeepsKin(w, old_, new_, i, j); }
  }

  lemma NoRowYet(w: World, jti: Name)
    requires (forall r :: r in w.st.rows ==> RowOk(w, r)) && jti !in w.issued
    ensures !HasRow(w.st.rows, jti)
  {
    forall i | 0 <= i < |w.st.rows| ensures w.st.rows[i].jti != jti {
      assert w.st.rows[i] in w.st.rows && RowOk(w, w.st.rows[i]);
    }
  }

  lemma SwapKeepsRows(w: World, old_: Token, new_: Token, now: real)
    requires RowsOk(w, now) && Live(w, old_.jti) && old_.jti in w.root && w.issued[old_.jti] == old_
    requires new_.jti !in w.issued && Succeeds(old_, new_)
    ensures RowsOk(AfterSwap(w, old_, new_), now)
  {
    var w' := AfterSwap(w, old_, new_);
    NoRowYet(w, new_.jti);
    forall o | o in w.st.rows && o.jti == old_.jti ensures o.user == new_.user { assert RowOk(w, o); }
    SwapRows(w.st.rows, old_.jti, new_);
    forall r | r in w'.st.rows ensures RowOk(w', r) {
      if r in w.st.rows { assert RowOk(w, r); }
    }
    forall j | j in w'.issued ensures Registered(w', j, now) {
      if j != new_.jti { assert Registered(w, j, now); }
    }
  }

  /** A swap keeps the invariant. */
  lemma SwapKeepsInv(w: World, old_: Token, new_: Token, now: real)
    requires Inv(w, now) && Live(w, old_.jti) && w.issued[old_.jti] == old_
    requires new_.jti !in w.issued && Succeeds(old_, new_) && old_.jti in w.root
    ensures Inv(AfterSwap(w, old_, new_), now)
  {
    SwapKeepsRecorded(w, old_, new_);
    SwapKeepsFamily(w, old_, new_);
    SwapKeepsRows(w, old_, new_, now);
  }

  function AfterMint(w: World, t: Token, st: State, legacy: set<Name>): World
  {
    World(st, w.issued[t.jti := t], w.root[t.jti := t.jti], legacy)
  }

  lemma MintKeepsBlock(w: World, t: Token, st: State, legacy: set<Name>, j: Name)
    requires j in w.st.blocklist && BlockOk(w, j) && t.jti !in w.issued && st.blocklist == w.st.blocklist
    ensures BlockOk(AfterMint(w, t, st, legacy), j)
  {
  }

  lemma MintKeepsRecorded(w: World, t: Token, st: State, legacy: set<Name>)
    requires Recorded(w) && t.jti !in w.issued && st.blocklist == w.st.blocklist
    ensures Recorded(AfterMint(w, t, st, legacy))
  {
    var w' := AfterMint(w, t, st, legacy);
    forall j | j in w'.issued ensures Own(w', j) {
      if j != t.jti { assert Own(w, j); }
    }
    forall j | j in st.blocklist ensures BlockOk(w', j) { MintKeepsBlock(w, t, st, legacy, j); }
  }

  lemma MintKeepsKin(w: World, t: Token, st: State, legacy: set<Name>, i: Name, j: Name)
    requires (forall k :: k in w.issued ==> Own(w, k)) && FamilyOk(w) && t.jti !in w.issued && st.blocklist == w.st.blocklist
    requires Kin(AfterMint(w, t, st, legacy), i, j)
    ensures KinOk(AfterMint(w, t, st, legacy), i, j)
  {
    if i != t.jti { assert Own(w, i); }
    if j != t.jti { assert Own(w, j); }
    if i != t.jti {
      assert Kin(w, i, j);
      assert KinOk(w, i, j);
    }
  }

  /** A fresh mint starts a family of its own. */
  lemma MintKeepsFamily(w: World, t: Token, st: State, legacy: set<Name>)
    requires Recorded(w) && FamilyOk(w) && t.jti !in w.issued && st.blocklist == w.st.blocklist
    ensures Recorded(AfterMint(w, t, st, legacy)) && FamilyOk(AfterMint(w, t, st, legacy))
  {
    MintKeepsRecorded(w, t, st, legacy);
    forall i, j | Kin(AfterMint(w, t, st, legacy), i, j) ensures KinOk(AfterMint(w, t, st, legacy), i, j) {
      MintKeepsKin(w, t, st, legacy, i, j);
    }
  }

  lemma MintKeepsRows(w: World, t: Token, home: Workstation, now: real)
    requires RowsOk(w, now) && t.jti !in w.issued
    ensures RowsOk(AfterMint(w, t, w.st.(rows := w.st.rows + [Row(t.jti, t.user, t.exp, home)]), w.legacy), now)
  {
    var row := Row(t.jti, t.user, t.exp, home);
    var rows := w.st.rows + [row];
    var w' := AfterMint(w, t, w.st.(rows := rows), w.legacy);
    NoRowYet(w, t.jti);
    forall r | r in rows ensures RowOk(w', r) {
      if r != row { assert RowOk(w, r); }
    }
    forall j | j in w'.issued ensures Registered(w', j, now) {
      if j == t.jti {
        assert rows[|w.st.rows|].jti == j;
      } else {
        assert Registered(w, j, now);
        assert HasRow(w.st.rows, j) ==> HasRow(rows, j) by { HasRowGrows(w.st.rows, row, j); }
      }
    }
  }

  lemma HasRowGrows(rows: seq<Row>, row: Row, j: Name)
    ensures HasRow(rows, j) ==> HasRow(rows + [row], j)
  {
    if HasRow(rows, j) {
      var i :| 0 <= i < |rows| && rows[i].jti == j;
      assert (rows + [row])[i].jti == j;
    }
  }

  // ----- runs -----

  /** `Legacy` is a token minted before the registry existed: valid, but without a row. */
  datatype Event =
    | Issues(t: Token, home: Workstation, now: real)
    | Legacy(t: Token, now: real)
    | Refreshes(jti: Name, q: Query)
    | Binds(jti: Name, jkt: Option<Name>, q: Query)
    | LogsOut(jti: Name, now: real)
    | RevokesAll(user: Name, now: real)

  function Now(e: Event): real { if e.Refreshes? || e.Binds? then e.q.now else e.now }

  function Absorb(w: World, old_: Name, o: Outcome): World
    requires old_ in w.root
  {
    if o.reply.Minted? then WithToken(w, o.reply.token, w.root[old_], o.st) else w.(st := o.st)
  }

  /** New jtis are new, presented tokens were issued, and the clock does not go back. */
  ghost predicate Enabled(w: World, e: Event, before: real)
  {
    && before <= Now(e)
    && match e
       case Issues(t, _, _) => t.jti !in w.issued
       case Legacy(t, _) => t.jti !in w.issued
       case Refreshes(jti, q) => jti in w.issued && jti in w.root && q.newJti !in w.issued
       case Binds(jti, _, q) => jti in w.issued && jti in w.root && q.newJti !in w.issued
       case LogsOut(jti, _) => jti in w.issued
       case RevokesAll(_, _) => true
  }

  function Step(cfg: Config, w: World, e: Event): World
    requires e.Refreshes? || e.Binds? ==> e.jti in w.issued && e.jti in w.root
  {
    match e
    case Issues(t, home, now) => AfterMint(w, t, Issue(cfg, w.st, t, home, now), w.legacy)
    case Legacy(t, _) => AfterMint(w, t, w.st, w.legacy + {t.jti})
    case Refreshes(jti, q) => Absorb(w, jti, Refresh(cfg, w.st, w.issued[jti], q))
    case Binds(jti, jkt, q) => Absorb(w, jti, Bind(cfg, w.st, w.issued[jti], jkt, q))
    case LogsOut(jti, _) => w.(st := Revoke(w.st, jti))
    case RevokesAll(user, _) => w.(st := RevokeAll(w.st, user))
  }

  lemma InvLater(w: World, before: real, now: real)
    requires Inv(w, before) && before <= now
    ensures Inv(w, now)
  {
    forall j | j in w.issued ensures Registered(w, j, now) { assert Registered(w, j, before); }
  }

  /** A swap followed by the cap keeps the invariant. */
  lemma SwapAndCap(cfg: Config, w: World, old_: Token, new_: Token, now: real)
    requires Inv(w, now) && Live(w, old_.jti) && w.issued[old_.jti] == old_
    requires new_.jti !in w.issued && Succeeds(old_, new_) && old_.jti in w.root
    ensures Inv(WithToken(w, new_, w.root[old_.jti], Capped(Swapped(w.st, old_, new_), old_.user, now, cfg.cap)), now)
  {
    SwapKeepsInv(w, old_, new_, now);
    var w' := AfterSwap(w, old_, new_);
    CappedOnlyRevokes(w', old_.user, now, cfg.cap);
    RevokingKeepsInv(w', Capped(w'.st, old_.user, now, cfg.cap), now, now);
  }

  lemma RevokeKeepsInv(w: World, jti: Name, now: real)
    requires Inv(w, now) && jti in w.issued
    ensures Inv(w.(st := Revoke(w.st, jti)), now)
  {
    RevokeOnlyRevokes(w, jti, now);
    RevokingKeepsInv(w, Revoke(w.st, jti), now, now);
  }

  lemma HandoverKeepsInv(cfg: Config, w: World, jti: Name, ws: Workstation, now: real)
    requires Inv(w, now) && Replacement(w.st, jti).Some?
    ensures Inv(w.(st := Handover(cfg, w.st, Replacement(w.st, jti).value, ws).st), now)
  {
    assert BlockOk(w, jti);
    RevokeKeepsInv(w, Replacement(w.st, jti).value.jti, now);
  }

  /** What a refresh can do to the registry. */
  lemma RefreshShape(cfg: Config, st: State, t: Token, q: Query)
    ensures var o, cached := Refresh(cfg, st, t, q), Replacement(st, t.jti);
      || o == Outcome(st, Refused)
      || o == Outcome(Revoke(st, t.jti), Refused)
      || (cached.Some? && o == Handover(cfg, st, cached.value, q.ws))
      || (t.jti !in st.blocklist && o.reply == Minted(Renewed(t, q))
          && o.st == Capped(Swapped(st, t, Renewed(t, q)), t.user, q.now, cfg.cap))
  {
  }

  /** What a bind can do to the registry. */
  lemma BindShape(cfg: Config, st: State, t: Token, jkt: Option<Name>, q: Query)
    ensures var o, cached := Bind(cfg, st, t, jkt, q), Replacement(st, t.jti);
      || o == Outcome(st, Refused)
      || (cached.Some? && o == Handover(cfg, st, cached.value, q.ws))
      || (t.jti !in st.blocklist && t.jkt.None? && jkt.Some? && o.reply == Minted(BoundTo(t, jkt.value, q))
          && o.st == Capped(Swapped(st, t, BoundTo(t, jkt.value, q)), t.user, q.now, cfg.cap))
  {
  }

  lemma RefreshKeepsInv(cfg: Config, w: World, jti: Name, q: Query)
    requires Inv(w, q.now) && jti in w.issued && jti in w.root && q.newJti !in w.issued
    ensures Inv(Absorb(w, jti, Refresh(cfg, w.st, w.issued[jti], q)), q.now)
  {
    var t := w.issued[jti];
    assert Own(w, jti);
    var o, cached := Refresh(cfg, w.st, t, q), Replacement(w.st, jti);
    RefreshShape(cfg, w.st, t, q);
    if o == Outcome(w.st, Refused) {
    } else if o == Outcome(Revoke(w.st, jti), Refused) {
      RevokeKeepsInv(w, jti, q.now);
    } else if cached.Some? && o == Handover(cfg, w.st, cached.value, q.ws) {
      HandoverKeepsInv(cfg, w, jti, q.ws, q.now);
    } else {
      SwapAndCap(cfg, w, t, Renewed(t, q), q.now);
    }
  }

  lemma BindKeepsInv(cfg: Config, w: World, jti: Name, jkt: Option<Name>, q: Query)
    requires Inv(w, q.now) && jti in w.issued && jti in w.root && q.newJti !in w.issued
    ensures Inv(Absorb(w, jti, Bind(cfg, w.st, w.issued[jti], jkt, q)), q.now)
  {
    var t := w.issued[jti];
    assert Own(w, jti);
    var o, cached := Bind(cfg, w.st, t, jkt, q), Replacement(w.st, jti);
    BindShape(cfg, w.st, t, jkt, q);
    if o == Outcome(w.st, Refused) {
    } else if cached.Some? && o == Handover(cfg, w.st, cached.value, q.ws) {
      HandoverKeepsInv(cfg, w, jti, q.ws, q.now);
    } else {
      SwapAndCap(cfg, w, t, BoundTo(t, jkt.value, q), q.now);
    }
  }

  lemma IssueKeepsInv(cfg: Config, w: World, t: Token, home: Workstation, now: real)
    requires Inv(w, now) && t.jti !in w.issued
    ensures Inv(AfterMint(w, t, Issue(cfg, w.st, t, home, now), w.legacy), now)
  {
    var st := w.st.(rows := w.st.rows + [Row(t.jti, t.user, t.exp, home)]);
    var w' := AfterMint(w, t, st, w.legacy);
    MintKeepsFamily(w, t, st, w.legacy);
    MintKeepsRows(w, t, home, now);
    CappedOnlyRevokes(w', t.user, now, cfg.cap);
    RevokingKeepsInv(w', Capped(st, t.user, now, cfg.cap), now, now);
  }

  lemma LegacyKeepsInv(w: World, t: Token, now: real)
    requires Inv(w, now) && t.jti !in w.issued
    ensures Inv(AfterMint(w, t, w.st, w.legacy + {t.jti}), now)
  {
    MintKeepsFamily(w, t, w.st, w.legacy + {t.jti});
    LegacyKeepsRows(w, t, now);
  }

  lemma LegacyKeepsRows(w: World, t: Token, now: real)
    requires RowsOk(w, now) && t.jti !in w.issued
    ensures RowsOk(AfterMint(w, t, w.st, w.legacy + {t.jti}), now)
  {
    var w' := AfterMint(w, t, w.st, w.legacy + {t.jti});
    forall r | r in w'.st.rows ensures RowOk(w', r) { assert RowOk(w, r); }
    forall j | j in w'.issued ensures Registered(w', j, now) {
      if j != t.jti { assert Registered(w, j, now); }
    }
  }

  /** Every operation keeps the invariant. */
  lemma StepKeepsInv(cfg: Config, w: World, e: Event, before: real)
    requires Inv(w, before) && Enabled(w, e, before)
    ensures Inv(Step(cfg, w, e), Now(e))
  {
    InvLater(w, before, Now(e));
    match e
    case Issues(t, home, now) => IssueKeepsInv(cfg, w, t, home, now);
    case Legacy(t, now) => LegacyKeepsInv(w, t, now);
    case Refreshes(jti, q) => RefreshKeepsInv(cfg, w, jti, q);
    case Binds(jti, jkt, q) => BindKeepsInv(cfg, w, jti, jkt, q);
    case LogsOut(jti, now) => RevokeKeepsInv(w, jti, now);
    case RevokesAll(user, now) =>
      var mine := Filter(w.st.rows, OfUser(user));
      FilterMembers(w.st.rows, OfUser(user));
      RevokeStepsOnlyRevokes(w, w.st.rows, mine, now);
      RevokingKeepsInv(w, RevokeAll(w.st, user), now, now);
  }

  const START := World(State([], map[]), map[], map[], {})

  function Clock(events: seq<Event>, i: nat): real
    requires i <= |events|
  {
    if i > 0 then Now(events[i - 1]) else if events == [] then 0.0 else Now(events[0])
  }

  ghost predicate StepAt(cfg: Config, worlds: seq<World>, events: seq<Event>, i: nat)
    requires i < |events| < |worlds|
  {
    Enabled(worlds[i], events[i], Clock(events, i)) && worlds[i + 1] == Step(cfg, worlds[i], events[i])
  }

  /** The worlds of a run of events, from an empty registry. */
  ghost predicate ValidRun(cfg: Config, worlds: seq<World>, events: seq<Event>)
  {
    |worlds| == |events| + 1 && worlds[0] == START && forall i :: 0 <= i < |events| ==> StepAt(cfg, worlds, events, i)
  }

  lemma {:induction false} RunKeepsInv(cfg: Config, worlds: seq<World>, events: seq<Event>, i: nat)
    requires ValidRun(cfg, worlds, events) && i <= |events|
    ensures Inv(worlds[i], Clock(events, i))
  {
    if i == 0 {
      assert Inv(START, Clock(events, 0));
    } else {
      RunKeepsInv(cfg, worlds, events, i - 1);
      assert StepAt(cfg, worlds, events, i - 1);
      StepKeepsInv(cfg, worlds[i - 1], events[i - 1], Clock(events, i - 1));
    }
  }

  /** Along any chain of refreshes and binds from one mint: the bind deadline never changes, the key
      thumbprint once set never changes or goes, and at most one token is not blocklisted. */
  lemma ChainKeepsBinding(cfg: Config, worlds: seq<World>, events: seq<Event>, n: nat, i: Name, j: Name)
    requires ValidRun(cfg, worlds, events) && n <= |events| && Kin(worlds[n], i, j)
    ensures var w := worlds[n];
      && w.issued[i].deadline == w.issued[j].deadline && w.issued[i].user == w.issued[j].user
      && (w.issued[i].jkt.Some? && (w.issued[j].jkt.Some? || Live(w, j)) ==> w.issued[j].jkt == w.issued[i].jkt)
      && (Live(w, i) && Live(w, j) ==> i == j)
  {
    RunKeepsInv(cfg, worlds, events, n);
    assert KinOk(worlds[n], i, j);
  }

  lemma RefreshSucceeds(cfg: Config, st: State, t: Token, q: Query)
    ensures var reply := Refresh(cfg, st, t, q).reply;
      reply.Minted? ==> t.jti !in st.blocklist && reply.token.jti == q.newJti && Succeeds(t, reply.token)
  {
  }

  lemma BindSucceeds(cfg: Config, st: State, t: Token, jkt: Option<Name>, q: Query)
    ensures var reply := Bind(cfg, st, t, jkt, q).reply;
      reply.Minted? ==> t.jti !in st.blocklist && reply.token.jti == q.newJti && Succeeds(t, reply.token)
  {
  }

  /** A step leaves issued tokens and their chains alone. */
  lemma StepKeepsIssued(cfg: Config, w: World, e: Event, before: real, i: Name)
    requires Enabled(w, e, before) && i in w.issued && i in w.root
    ensures var w' := Step(cfg, w, e);
      i in w'.issued && i in w'.root && w'.issued[i] == w.issued[i] && w'.root[i] == w.root[i]
  {
    if e.Refreshes? {
      RefreshSucceeds(cfg, w.st, w.issued[e.jti], e.q);
    } else if e.Binds? {
      BindSucceeds(cfg, w.st, w.issued[e.jti], e.jkt, e.q);
    }
  }

  /** A new token is the first of a new chain, or the successor of the live token that was presented. */
  ghost predicate NewToken(w: World, e: Event, w': World, j: Name)
    requires (e.Refreshes? || e.Binds? ==> e.jti in w.issued && e.jti in w.root) && j in w'.issued && j in w'.root
  {
    || w'.root[j] == j
    || ((e.Refreshes? || e.Binds?) && w.issued[e.jti].jti !in w.st.blocklist
        && Succeeds(w.issued[e.jti], w'.issued[j]) && w'.root[j] == w.root[e.jti])
  }

  lemma StepMints(cfg: Config, w: World, e: Event, before: real, j: Name)
    requires Enabled(w, e, before) && j !in w.issued && j in Step(cfg, w, e).issued && j in Step(cfg, w, e).root
    ensures NewToken(w, e, Step(cfg, w, e), j)
  {
    if e.Refreshes? {
      RefreshSucceeds(cfg, w.st, w.issued[e.jti], e.q);
    } else if e.Binds? {
      BindSucceeds(cfg, w.st, w.issued[e.jti], e.jkt, e.q);
    }
  }

  /** A token minted by this step into the chain of a bound one has its key. */
  lemma StepMintsBound(cfg: Config, w: World, e: Event, before: real, i: Name, j: Name)
    requires Enabled(w, e, before) && Recorded(w) && FamilyOk(w) && Kin(Step(cfg, w, e), i, j)
    requires i in w.issued && w.issued[i].jkt.Some? && j !in w.issued
    ensures Step(cfg, w, e).issued[j].jkt == w.issued[i].jkt
  {
    assert Own(w, i);
    StepKeepsIssued(cfg, w, e, before, i);
    StepMints(cfg, w, e, before, j);
    if e.Refreshes? || e.Binds? {
      assert Own(w, e.jti);
      if Kin(w, i, e.jti) { assert KinOk(w, i, e.jti); }
    }
  }

  /** A token's claims and chain never change once it is issued. */
  lemma {:induction false} IssuedStays(cfg: Config, worlds: seq<World>, events: seq<Event>, a: nat, n: nat, i: Name)
    requires ValidRun(cfg, worlds, events) && a <= n <= |events| && i in worlds[a].issued && i in worlds[a].root
    ensures i in worlds[n].issued && worlds[n].issued[i] == worlds[a].issued[i]
    ensures i in worlds[n].root && worlds[n].root[i] == worlds[a].root[i]
    decreases n
  {
    if a < n {
      IssuedStays(cfg, worlds, events, a, n - 1, i);
      assert StepAt(cfg, worlds, events, n - 1);
      StepKeepsIssued(cfg, worlds[n - 1], events[n - 1], Clock(events, n - 1), i);
    }
  }

  lemma HasRoot(cfg: Config, worlds: seq<World>, events: seq<Event>, n: nat, i: Name)
    requires ValidRun(cfg, worlds, events) && n <= |events| && i in worlds[n].issued
    ensures i in worlds[n].root
  {
    RunKeepsInv(cfg, worlds, events, n);
    assert Own(worlds[n], i);
  }

  lemma KinBefore(cfg: Config, worlds: seq<World>, events: seq<Event>, n: nat, i: Name, j: Name)
    requires ValidRun(cfg, worlds, events) && n < |events| && Kin(worlds[n + 1], i, j)
    requires i in worlds[n].issued && j in worlds[n].issued
    ensures Kin(worlds[n], i, j) && worlds[n + 1].issued[j] == worlds[n].issued[j]
  {
    HasRoot(cfg, worlds, events, n, i);
    HasRoot(cfg, worlds, events, n, j);
    IssuedStays(cfg, worlds, events, n, n + 1, i);
    IssuedStays(cfg, worlds, events, n, n + 1, j);
  }

  lemma MintedBound(cfg: Config, worlds: seq<World>, events: seq<Event>, n: nat, i: Name, j: Name)
    requires ValidRun(cfg, worlds, events) && n < |events| && Kin(worlds[n + 1], i, j)
    requires i in worlds[n].issued && worlds[n].issued[i].jkt.Some? && j !in worlds[n].issued
    ensures worlds[n + 1].issued[j].jkt == worlds[n].issued[i].jkt
  {
    RunKeepsInv(cfg, worlds, events, n);
    assert StepAt(cfg, worlds, events, n);
    StepMintsBound(cfg, worlds[n], events[n], Clock(events, n), i, j);
  }

  /** Every token minted into a chain after a bound one carries the same key. */
  lemma {:induction false} KeyIsForGood(cfg: Config, worlds: seq<World>, events: seq<Event>, a: nat, n: nat, i: Name, j: Name)
    requires ValidRun(cfg, worlds, events) && a <= n <= |events|
    requires i in worlds[a].issued && worlds[a].issued[i].jkt.Some?
    requires j !in worlds[a].issued && Kin(worlds[n], i, j)
    ensures worlds[n].issued[j].jkt == worlds[a].issued[i].jkt
    decreases n
  {
    if a < n {
      HasRoot(cfg, worlds, events, a, i);
      IssuedStays(cfg, worlds, events, a, n - 1, i);
      if j in worlds[n - 1].issued {
        KinBefore(cfg, worlds, events, n - 1, i, j);
        KeyIsForGood(cfg, worlds, events, a, n - 1, i, j);
      } else {
        MintedBound(cfg, worlds, events, n - 1, i, j);
      }
    }
  }

  /** No live, unexpired token minted by the registry is without its row. */
  lemma RegistryIsComplete(cfg: Config, worlds: seq<World>, events: seq<Event>, n: nat, j: Name)
    requires ValidRun(cfg, worlds, events) && n <= |events| && Live(worlds[n], j)
    requires j !in worlds[n].legacy && worlds[n].issued[j].exp > Clock(events, n)
    ensures HasRow(worlds[n].st.rows, j)
  {
    RunKeepsInv(cfg, worlds, events, n);
    assert Registered(worlds[n], j, Clock(events, n));
  }

  /** After an issue under a positive cap the user holds exactly the newest unexpired rows, counting
      the new one. */
  lemma IssueKeepsNewest(cfg: Config, worlds: seq<World>, events: seq<Event>, n: nat)
    requires ValidRun(cfg, worlds, events) && n < |events| && cfg.cap > 0 && events[n].Issues?
    ensures var t := events[n].t;
      KeepsNewest(worlds[n].st.rows + [Row(t.jti, t.user, t.exp, events[n].home)], worlds[n + 1].st, t.user, events[n].now, cfg.cap)
  {
    var w, t, home, now := worlds[n], events[n].t, events[n].home, events[n].now;
    RunKeepsInv(cfg, worlds, events, n);
    assert StepAt(cfg, worlds, events, n);
    InvLater(w, Clock(events, n), now);
    MintKeepsRows(w, t, home, now);
    CapKeepsNewest(w.st.(rows := w.st.rows + [Row(t.jti, t.user, t.exp, home)]), t.user, now, cfg.cap);
  }

  /** So it does after a refresh or a bind that mints a token. */
  lemma RotationKeepsNewest(cfg: Config, worlds: seq<World>, events: seq<Event>, n: nat, o: Outcome)
    requires ValidRun(cfg, worlds, events) && n < |events| && cfg.cap > 0
    requires (events[n].Refreshes? || events[n].Binds?) && events[n].jti in worlds[n].issued
    requires var w, e := worlds[n], events[n]; var t := w.issued[e.jti];
      o == (if e.Refreshes? then Refresh(cfg, w.st, t, e.q) else Bind(cfg, w.st, t, e.jkt, e.q)) && o.reply.Minted?
    ensures var w, e := worlds[n], events[n];
      && worlds[n + 1].st == o.st
      && KeepsNewest(Rekeyed(w.st.rows, e.jti, o.reply.token), o.st, w.issued[e.jti].user, e.q.now, cfg.cap)
  {
    var w, e := worlds[n], events[n];
    var t := w.issued[e.jti];
    RunKeepsInv(cfg, worlds, events, n);
    assert StepAt(cfg, worlds, events, n) && Own(w, e.jti);
    InvLater(w, Clock(events, n), e.q.now);
    if e.Refreshes? { RefreshShape(cfg, w.st, t, e.q); } else { BindShape(cfg, w.st, t, e.jkt, e.q); }
    SwapKeepsRows(w, t, o.reply.token, e.q.now);
    CapKeepsNewest(Swapped(w.st, t, o.reply.token), t.user, e.q.now, cfg.cap);
  }

  // ----- rotation -----

  lemma {:induction false} RekeyKeepsUser(rows: seq<Row>, old_: Name, new_: Token, user: Name)
    requires HasRow(rows, old_)
    ensures |Filter(Rekeyed(rows, old_, new_), OfUser(user))| == |Filter(rows, OfUser(user))|
  {
    var after := Rekeyed(rows, old_, new_);
    SameUsersSameCount(rows, after, user);
  }

  lemma {:induction false} SameUsersSameCount(a: seq<Row>, b: seq<Row>, user: Name)
    requires |a| == |b| && forall i :: 0 <= i < |a| ==> a[i].user == b[i].user
    ensures |Filter(a, OfUser(user))| == |Filter(b, OfUser(user))|
    decreases |a|
  {
    if a != [] {
      assert a[0].user == b[0].user;
      SameUsersSameCount(a[1..], b[1..], user);
    }
  }

  lemma CappedShrinks(st: State, user: Name, now: real, cap: int)
    ensures |Filter(Capped(st, user, now, cap).rows, OfUser(user))| <= |Filter(st.rows, OfUser(user))|
  {
    var live := Filter(st.rows, Unexpired(now));
    var mine := Filter(live, OfUser(user));
    FilterCommutes(st.rows, Unexpired(now), OfUser(user));
    FilterShortens(Filter(st.rows, OfUser(user)), Unexpired(now));
    if cap > 0 && |mine| > cap {
      var gone := NotIn(Jtis(mine[..|mine| - cap]));
      FilterCommutes(live, gone, OfUser(user));
      FilterShortens(mine, gone);
    }
  }

  lemma {:induction false} FilterShortens(rows: seq<Row>, t: Test)
    ensures |Filter(rows, t)| <= |rows|
  {
    if rows != [] { FilterShortens(rows[1..], t); }
  }

  /** Rotating a token that has a row never grows its owner's row count. */
  lemma RotationKeepsCount(cfg: Config, st: State, t: Token, jkt: Option<Name>, q: Query)
    requires HasRow(st.rows, t.jti)
    ensures Refresh(cfg, st, t, q).reply.Minted? ==>
      |Filter(Refresh(cfg, st, t, q).st.rows, OfUser(t.user))| <= |Filter(st.rows, OfUser(t.user))|
    ensures Bind(cfg, st, t, jkt, q).reply.Minted? ==>
      |Filter(Bind(cfg, st, t, jkt, q).st.rows, OfUser(t.user))| <= |Filter(st.rows, OfUser(t.user))|
  {
    RekeyKeepsUser(st.rows, t.jti, Renewed(t, q), t.user);
    CappedShrinks(Swapped(st, t, Renewed(t, q)), t.user, q.now, cfg.cap);
    if jkt.Some? {
      RekeyKeepsUser(st.rows, t.jti, BoundTo(t, jkt.value, q), t.user);
      CappedShrinks(Swapped(st, t, BoundTo(t, jkt.value, q)), t.user, q.now, cfg.cap);
    }
  }

  ghost predicate Keeps(before: State, after: State, j: Name)
    requires j in before.blocklist
  {
    j in after.blocklist && after.blocklist[j] == before.blocklist[j]
  }

  lemma StepKeepsBlocklist(cfg: Config, w: World, e: Event, before: real, j: Name)
    requires Enabled(w, e, before) && j in w.st.blocklist
    ensures Keeps(w.st, Step(cfg, w, e).st, j)
  {
    match e
    case Issues(t, home, now) =>
      CappedKeepsBlocklist(w.st.(rows := w.st.rows + [Row(t.jti, t.user, t.exp, home)]), t.user, now, cfg.cap, j);
    case Legacy(_, _) =>
    case Refreshes(jti, q) =>
      var t := w.issued[jti];
      RefreshShape(cfg, w.st, t, q);
      CappedKeepsBlocklist(Swapped(w.st, t, Renewed(t, q)), t.user, q.now, cfg.cap, j);
    case Binds(jti, jkt, q) =>
      var t := w.issued[jti];
      BindShape(cfg, w.st, t, jkt, q);
      if jkt.Some? { CappedKeepsBlocklist(Swapped(w.st, t, BoundTo(t, jkt.value, q)), t.user, q.now, cfg.cap, j); }
    case LogsOut(_, _) =>
    case RevokesAll(user, _) => BlockedAllKeys(w.st.blocklist, Filter(w.st.rows, OfUser(user)));
  }

  /** A blocklist entry, and the replacement cached in it, is never changed. */
  lemma {:induction false} ReplacementIsFinal(cfg: Config, worlds: seq<World>, events: seq<Event>, i: nat, n: nat, j: Name)
    requires ValidRun(cfg, worlds, events) && i <= n <= |events| && j in worlds[i].st.blocklist
    ensures j in worlds[n].st.blocklist && worlds[n].st.blocklist[j] == worlds[i].st.blocklist[j]
    decreases n
  {
    if i < n {
      ReplacementIsFinal(cfg, worlds, events, i, n - 1, j);
      assert StepAt(cfg, worlds, events, n - 1);
      StepKeepsBlocklist(cfg, worlds[n - 1], events[n - 1], Clock(events, n - 1), j);
    }
  }

  /** Once refreshed or bound, a token yields its one replacement for ever: any later refresh of it
      returns that replacement and changes nothing, unless it is refused. */
  lemma RefreshIsIdempotent(cfg: Config, worlds: seq<World>, events: seq<Event>, i: nat, n: nat, jti: Name, new_: Token, q: Query)
    requires ValidRun(cfg, worlds, events) && i <= n <= |events|
    requires jti in worlds[i].st.blocklist && worlds[i].st.blocklist[jti] == Some(new_)
    requires jti in worlds[n].issued
    ensures var w := worlds[n]; var t := w.issued[jti]; var o := Refresh(cfg, w.st, t, q);
      && (o == Outcome(w.st, Cached(new_)) || o.reply.Refused?)
      && (o.reply.Refused? <==> Replayed(cfg, w.st, new_.jti, q.ws)
                                || (t.exp >= q.now && (DeadlinePassed(t, q.now) || Replayed(cfg, w.st, jti, q.ws))))
  {
    ReplacementIsFinal(cfg, worlds, events, i, n, jti);
    RunKeepsInv(cfg, worlds, events, n);
    assert Own(worlds[n], jti);
  }
}
