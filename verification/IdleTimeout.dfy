/** Throttled last-seen stamps and the idle check at the refresh seam.

    One clock serves for the monotonic throttle and for the stored stamps. `active` is what the
    server does not store: when each session was really last used. */
module IdleTimeout {
  import opened Common

  /** The general and the privileged idle window, in minutes; the stamp table's size. */
  datatype Config = Config(general: int, privileged: int, maxStamps: nat)

  /** Both stamp paths share one table; the key prefixes keep them apart. */
  datatype Key = Jti(jti: string) | Sid(sid: string)

  datatype Stamp = Stamp(key: Key, at: real)

  datatype Row = Row(jti: string, lastSeen: real)

  /** Session rows by their stable id; the stamp table in insertion order. */
  datatype State = State(rows: map<string, Row>, stamps: seq<Stamp>, active: map<string, real>)

  function Min(a: real, b: real): real { if a <= b then a else b }

  /** effective_session_idle_minutes. */
  function OwnerWindow(cfg: Config, isAdmin: bool): int
  {
    if cfg.general <= 0 then 0
    else if isAdmin && cfg.privileged > 0 then (if cfg.privileged < cfg.general then cfg.privileged else cfg.general)
    else cfg.general
  }

  function ShortestWindow(cfg: Config): int { if 0 < cfg.privileged < cfg.general then cfg.privileged else cfg.general }

  /** _session_stamp_interval. */
  function Interval(cfg: Config): real { Min(60.0, (ShortestWindow(cfg) * 60) as real / 4.0) }

  /** The interval is the least of a minute and a quarter of every window an owner can have. */
  lemma IntervalIsLeast(cfg: Config)
    requires cfg.general > 0
    ensures Interval(cfg) <= 60.0 && Interval(cfg) <= (cfg.general * 60) as real / 4.0
    ensures cfg.privileged > 0 ==> Interval(cfg) <= (cfg.privileged * 60) as real / 4.0
    ensures Interval(cfg) in {60.0, (cfg.general * 60) as real / 4.0}
         || (cfg.privileged > 0 && Interval(cfg) == (cfg.privileged * 60) as real / 4.0)
  {
  }

  // ----- the stamp table -----

  function Find(stamps: seq<Stamp>, key: Key): (r: Option<real>)
    ensures r.Some? ==> Stamp(key, r.value) in stamps
  {
    if stamps == [] then None
    else if stamps[0].key == key then Some(stamps[0].at)
    else Find(stamps[1..], key)
  }

  function Put(stamps: seq<Stamp>, key: Key, at: real): (r: seq<Stamp>)
    ensures forall s :: s in r ==> s in stamps || s == Stamp(key, at)
  {
    if stamps == [] then [Stamp(key, at)]
    else if stamps[0].key == key then [Stamp(key, at)] + stamps[1..]
    else [stamps[0]] + Put(stamps[1..], key, at)
  }

  function Drop(stamps: seq<Stamp>, key: Key): (r: seq<Stamp>)
    ensures forall s :: s in r ==> s in stamps && s.key != key
  {
    if stamps == [] then []
    else if stamps[0].key == key then Drop(stamps[1..], key)
    else [stamps[0]] + Drop(stamps[1..], key)
  }

  /** Drop the oldest until there is room for one more. */
  function Evict(stamps: seq<Stamp>, cap: nat): seq<Stamp>
    requires cap > 0
  {
    if |stamps| >= cap then stamps[|stamps| - cap + 1..] else stamps
  }

  predicate Due(stamps: seq<Stamp>, key: Key, now: real, cfg: Config)
  {
    var last := Find(stamps, key);
    last.None? || now - last.value >= Interval(cfg)
  }

  function Throttled(stamps: seq<Stamp>, key: Key, now: real, cfg: Config): seq<Stamp>
    requires cfg.maxStamps > 0
  {
    if Due(stamps, key, now, cfg) then Put(Evict(stamps, cfg.maxStamps), key, now) else stamps
  }

  /** A dict holds each key once. */
  ghost predicate OncePerKey(stamps: seq<Stamp>) { forall i, j :: 0 <= i < j < |stamps| ==> stamps[i].key != stamps[j].key }

  lemma {:induction false} FindsIts(stamps: seq<Stamp>, key: Key, s: Stamp)
    requires OncePerKey(stamps) && s in stamps && s.key == key
    ensures Find(stamps, key) == Some(s.at)
    decreases |stamps|
  {
    if stamps[0] != s {
      assert s in stamps[1..];
      FindsIts(stamps[1..], key, s);
    }
  }

  lemma {:induction false} PutKeeps(stamps: seq<Stamp>, key: Key, at: real)
    requires OncePerKey(stamps)
    ensures var r := Put(stamps, key, at);
      && OncePerKey(r) && Stamp(key, at) in r && |stamps| <= |r| <= |stamps| + 1
      && forall s :: s in stamps && s.key != key ==> s in r
    decreases |stamps|
  {
    if stamps != [] {
      var tail := Put(stamps[1..], key, at);
      PutKeeps(stamps[1..], key, at);
      assert forall i :: 0 <= i < |tail| ==> tail[i] in tail;
      assert forall s :: s in stamps <==> s == stamps[0] || s in stamps[1..];
    }
  }

  lemma {:induction false} DropKeeps(stamps: seq<Stamp>, key: Key)
    requires OncePerKey(stamps)
    ensures OncePerKey(Drop(stamps, key)) && |Drop(stamps, key)| <= |stamps|
    ensures forall s :: s in Drop(stamps, key) <==> s in stamps && s.key != key
    decreases |stamps|
  {
    if stamps != [] {
      var tail := Drop(stamps[1..], key);
      DropKeeps(stamps[1..], key);
      assert forall i :: 0 <= i < |tail| ==> tail[i] in tail;
      assert forall s :: s in stamps <==> s == stamps[0] || s in stamps[1..];
    }
  }

  /** Stamp `i` is not the oldest, or there is room for one more. */
  predicate Spared(stamps: seq<Stamp>, cap: nat, i: nat) { i > 0 || |stamps| < cap }

  /** A write is due exactly when the key has no stamp younger than the interval; it then gets one, the
      table keeps its size, and it loses other keys' stamps only where it was full, the oldest ones. */
  lemma ThrottleExactly(stamps: seq<Stamp>, key: Key, now: real, cfg: Config)
    requires OncePerKey(stamps) && 0 < cfg.maxStamps && |stamps| <= cfg.maxStamps
    ensures Due(stamps, key, now, cfg) <==> forall s :: s in stamps && s.key == key ==> now - s.at >= Interval(cfg)
    ensures var after := Throttled(stamps, key, now, cfg);
      && OncePerKey(after) && |after| <= cfg.maxStamps
      && (!Due(stamps, key, now, cfg) ==> after == stamps)
      && (Due(stamps, key, now, cfg) ==> Stamp(key, now) in after)
      && (forall i :: 0 <= i < |stamps| && stamps[i].key != key && Spared(stamps, cfg.maxStamps, i) ==> stamps[i] in after)
  {
    DueExactly(stamps, key, now, cfg);
    var kept := Evict(stamps, cfg.maxStamps);
    EvictKeeps(stamps, cfg.maxStamps);
    PutKeeps(kept, key, now);
    assert forall i :: 0 <= i < |stamps| && Spared(stamps, cfg.maxStamps, i) ==> stamps[i] in kept;
  }

  lemma DueExactly(stamps: seq<Stamp>, key: Key, now: real, cfg: Config)
    requires OncePerKey(stamps)
    ensures Due(stamps, key, now, cfg) <==> forall s :: s in stamps && s.key == key ==> now - s.at >= Interval(cfg)
  {
    forall s | s in stamps && s.key == key ensures Find(stamps, key) == Some(s.at) { FindsIts(stamps, key, s); }
  }

  lemma EvictKeeps(stamps: seq<Stamp>, cap: nat)
    requires OncePerKey(stamps) && 0 < cap && |stamps| <= cap
    ensures OncePerKey(Evict(stamps, cap)) && |Evict(stamps, cap)| < cap
    ensures forall i :: 0 <= i < |stamps| && Spared(stamps, cap, i) ==> stamps[i] in Evict(stamps, cap)
  {
    var kept := Evict(stamps, cap);
    forall i | 0 <= i < |stamps| && Spared(stamps, cap, i) ensures stamps[i] in kept {
      assert stamps[i] == kept[i - (|stamps| - |kept|)];
    }
  }

  // ----- sessions -----

  predicate Concerns(key: Key, sid: string, row: Row) { key == Sid(sid) || key == Jti(row.jti) }

  /** UPDATE ... SET last_seen_at = now WHERE the row is the key's. */
  function Touched(rows: map<string, Row>, key: Key, now: real): map<string, Row>
  {
    map sid | sid in rows :: if Concerns(key, sid, rows[sid]) then rows[sid].(lastSeen := now) else rows[sid]
  }

  function Used(st: State, key: Key, now: real): map<string, real>
  {
    map sid | sid in st.active :: if sid in st.rows && Concerns(key, sid, st.rows[sid]) then now else st.active[sid]
  }

  datatype Event =
    | Issue(sid: string, jti: string)
    | Activity(key: Key)
    | Rotate(old_: string, new_: string, sid: string)
    | End(jti: string)

  predicate HasRow(st: State, jti: string) { exists sid :: sid in st.rows && st.rows[sid].jti == jti }

  function Step(st: State, e: Event, now: real, cfg: Config): State
    requires cfg.maxStamps > 0
  {
    match e
    case Issue(sid, jti) => st.(rows := st.rows[sid := Row(jti, now)], active := st.active[sid := now])
    case Activity(key) =>
      var used := st.(active := Used(st, key, now));
      if cfg.general <= 0 then used
      else
        used.(stamps := Throttled(st.stamps, key, now, cfg),
              rows := if Due(st.stamps, key, now, cfg) then Touched(st.rows, key, now) else st.rows)
    case Rotate(old_, new_, sid) =>
      var st' := st.(stamps := Drop(st.stamps, Jti(old_)));
      if HasRow(st, old_) then
        st'.(rows := map s | s in st.rows :: if st.rows[s].jti == old_ then st.rows[s].(jti := new_) else st.rows[s])
      else st'.(rows := st.rows[sid := Row(new_, now)], active := st.active[sid := now])
    case End(jti) =>
      st.(rows := map s | s in st.rows && st.rows[s].jti != jti :: st.rows[s], stamps := Drop(st.stamps, Jti(jti)))
  }

  /** New ids are new: no row and no stamp knows them. */
  ghost predicate Enabled(st: State, e: Event)
  {
    match e
    case Issue(sid, jti) => Unknown(st, Sid(sid)) && Unknown(st, Jti(jti))
    case Rotate(_, new_, sid) => Unknown(st, Sid(sid)) && Unknown(st, Jti(new_))
    case _ => true
  }

  ghost predicate Unknown(st: State, key: Key)
  {
    && (forall s :: s in st.stamps ==> s.key != key)
    && (forall sid :: sid in st.rows ==> !Concerns(key, sid, st.rows[sid]))
  }

  /** Every stored stamp is at most the true last use and less than one interval behind it. */
  ghost predicate RowOk(st: State, sid: string, now: real, cfg: Config)
    requires sid in st.rows
  {
    && sid in st.active
    && st.rows[sid].lastSeen <= st.active[sid] <= now
    && st.active[sid] < st.rows[sid].lastSeen + Interval(cfg)
    && (forall s :: s in st.stamps && Concerns(s.key, sid, st.rows[sid]) ==> s.at <= st.rows[sid].lastSeen)
  }

  ghost predicate Inv(st: State, now: real, cfg: Config) { forall sid :: sid in st.rows ==> RowOk(st, sid, now, cfg) }

  lemma ActivityKeepsRow(st: State, key: Key, sid: string, before: real, now: real, cfg: Config)
    requires cfg.maxStamps > 0 && cfg.general > 0 && before <= now
    requires sid in st.rows && RowOk(st, sid, before, cfg)
    ensures sid in Step(st, Activity(key), now, cfg).rows && RowOk(Step(st, Activity(key), now, cfg), sid, now, cfg)
  {
    var evicted := Evict(st.stamps, cfg.maxStamps);
    assert forall s :: s in evicted ==> s in st.stamps;
    var last := Find(st.stamps, key);
    if last.Some? { assert Stamp(key, last.value) in st.stamps; }
  }

  lemma StepKeepsInv(st: State, e: Event, before: real, now: real, cfg: Config)
    requires cfg.maxStamps > 0 && cfg.general > 0 && before <= now && Enabled(st, e) && Inv(st, before, cfg)
    ensures Inv(Step(st, e, now, cfg), now, cfg)
  {
    var st' := Step(st, e, now, cfg);
    forall sid | sid in st'.rows ensures RowOk(st', sid, now, cfg) {
      if sid in st.rows { assert RowOk(st, sid, before, cfg); }
      if e.Activity? { ActivityKeepsRow(st, e.key, sid, before, now, cfg); }
    }
  }

  /** Activity under a session's stable id or its current jti counts as use of that session and no
      other. */
  lemma ActivityIsUse(st: State, key: Key, now: real, cfg: Config, sid: string)
    requires cfg.maxStamps > 0 && sid in st.rows && sid in st.active
    ensures var st' := Step(st, Activity(key), now, cfg); var mine := key in {Sid(sid), Jti(st.rows[sid].jti)};
      && sid in st'.active && st'.active[sid] == (if mine then now else st.active[sid])
      && sid in st'.rows && (!mine ==> st'.rows[sid] == st.rows[sid])
      && st'.rows[sid].jti == st.rows[sid].jti
  {
  }

  // ----- runs -----

  datatype Timed = Timed(e: Event, now: real)

  function After(run: seq<Timed>, cfg: Config): State
    requires cfg.maxStamps > 0
  {
    if run == [] then State(map[], [], map[])
    else Step(After(run[..|run| - 1], cfg), run[|run| - 1].e, run[|run| - 1].now, cfg)
  }

  ghost predicate ValidRun(run: seq<Timed>, cfg: Config)
    requires cfg.maxStamps > 0
  {
    run == [] ||
    (var n := |run| - 1;
     ValidRun(run[..n], cfg) && Enabled(After(run[..n], cfg), run[n].e) && (n > 0 ==> run[n - 1].now <= run[n].now))
  }

  lemma {:induction false} RunKeepsInv(run: seq<Timed>, cfg: Config)
    requires cfg.maxStamps > 0 && cfg.general > 0 && ValidRun(run, cfg)
    ensures Inv(After(run, cfg), if run == [] then 0.0 else run[|run| - 1].now, cfg)
    decreases |run|
  {
    if run != [] {
      var n := |run| - 1;
      RunKeepsInv(run[..n], cfg);
      var before := if n == 0 then run[n].now else run[n - 1].now;
      assert n > 0 ==> run[..n][n - 1] == run[n - 1];
      StepKeepsInv(After(run[..n], cfg), run[n].e, before, run[n].now, cfg);
    }
  }

  /** The stored last-seen never exceeds the true last use and lags it by less than the interval,
      whatever the table evicts. */
  lemma StampLagBounded(run: seq<Timed>, cfg: Config, sid: string)
    requires cfg.maxStamps > 0 && cfg.general > 0 && ValidRun(run, cfg)
    requires sid in After(run, cfg).rows
    ensures var st := After(run, cfg);
      && sid in st.active && st.rows[sid].lastSeen <= st.active[sid] < st.rows[sid].lastSeen + Interval(cfg)
      && st.active[sid] - st.rows[sid].lastSeen < 60.0
  {
    IntervalIsLeast(cfg);
    RunKeepsInv(run, cfg);
    assert RowOk(After(run, cfg), sid, if run == [] then 0.0 else run[|run| - 1].now, cfg);
  }

  /** The idle check of the refresh seam ends the session. */
  predicate Ends(row: Row, now: real, window: int) { window > 0 && now - row.lastSeen > (window * 60) as real }

  /** Whose window: everybody has the general one, and an admin the privileged one where that is set
      and shorter. With the general one off, nobody has any. */
  lemma OwnersHaveTheirWindow(cfg: Config)
    ensures cfg.general <= 0 ==> OwnerWindow(cfg, false) == OwnerWindow(cfg, true) == 0
    ensures cfg.general > 0 ==> OwnerWindow(cfg, false) == cfg.general
    ensures cfg.general > 0 >= cfg.privileged ==> OwnerWindow(cfg, true) == cfg.general
    ensures cfg.general > 0 && cfg.privileged > 0 ==>
      OwnerWindow(cfg, true) <= cfg.general && OwnerWindow(cfg, true) <= cfg.privileged
      && OwnerWindow(cfg, true) in {cfg.general, cfg.privileged}
  {
  }

  ghost predicate UsedWithin(st: State, sid: string, now: real, minutes: real)
    requires sid in st.active
  {
    now - st.active[sid] <= minutes * 60.0
  }

  /** A refresh never ends a session used within three quarters of its owner's window, and always
      ends one idle for longer than the window: `general` minutes for everybody, and for an admin
      also `privileged` ones where that is set. */
  lemma RefreshSeamIsFair(run: seq<Timed>, cfg: Config, sid: string, now: real)
    requires cfg.maxStamps > 0 && cfg.general > 0 && ValidRun(run, cfg) && sid in After(run, cfg).rows
    ensures var st, general, privileged := After(run, cfg), cfg.general as real, cfg.privileged as real;
      && sid in st.active
      && (UsedWithin(st, sid, now, 0.75 * general) ==> !Ends(st.rows[sid], now, OwnerWindow(cfg, false)))
      && (!UsedWithin(st, sid, now, general) ==>
            Ends(st.rows[sid], now, OwnerWindow(cfg, false)) && Ends(st.rows[sid], now, OwnerWindow(cfg, true)))
      && (UsedWithin(st, sid, now, 0.75 * general) && (cfg.privileged > 0 ==> UsedWithin(st, sid, now, 0.75 * privileged)) ==>
            !Ends(st.rows[sid], now, OwnerWindow(cfg, true)))
      && (cfg.privileged > 0 && !UsedWithin(st, sid, now, privileged) ==> Ends(st.rows[sid], now, OwnerWindow(cfg, true)))
  {
    StampLagBounded(run, cfg, sid);
    IntervalIsLeast(cfg);
    OwnersHaveTheirWindow(cfg);
    SeamOfWindow(After(run, cfg), sid, now, cfg.general, Interval(cfg));
    if cfg.privileged > 0 { SeamOfWindow(After(run, cfg), sid, now, cfg.privileged, Interval(cfg)); }
  }

  lemma SeamOfWindow(st: State, sid: string, now: real, window: int, interval: real)
    requires sid in st.rows && sid in st.active && window > 0 && interval <= (window * 60) as real / 4.0
    requires st.rows[sid].lastSeen <= st.active[sid] < st.rows[sid].lastSeen + interval
    ensures UsedWithin(st, sid, now, 0.75 * window as real) ==> !Ends(st.rows[sid], now, window)
    ensures !UsedWithin(st, sid, now, window as real) ==> Ends(st.rows[sid], now, window)
  {
    assert (window * 60) as real == window as real * 60.0;
  }

  // ----- the object -----

  class SessionStamps {
    const cfg: Config
    var rows: map<string, Row>
    var stamps: seq<Stamp>
    ghost var active: map<string, real>

    ghost function View(): State reads this { State(rows, stamps, active) }

    constructor (cfg: Config)
      ensures this.cfg == cfg && View() == State(map[], [], map[])
    {
      this.cfg, rows, stamps, active := cfg, map[], [], map[];
    }

    /** _stamp_throttle_due. */
    method StampThrottleDue(key: Key, now: real) returns (due: bool)
      requires cfg.maxStamps > 0
      modifies `stamps
      ensures due == Due(old(stamps), key, now, cfg)
      ensures stamps == Throttled(old(stamps), key, now, cfg)
    {
      var last := Find(stamps, key);
      if last.Some? && now - last.value < Interval(cfg) {
        return false;
      }
      ghost var all := stamps;
      while |stamps| >= cfg.maxStamps
        invariant |stamps| <= |all| && stamps == all[|all| - |stamps|..]
        invariant |stamps| >= cfg.maxStamps - 1 || stamps == all
        decreases |stamps|
      {
        stamps := stamps[1..];
      }
      stamps := Put(stamps, key, now);
      return true;
    }

    /** record_session_activity and record_ws_session_activity. */
    method RecordActivity(key: Key, now: real)
      requires cfg.maxStamps > 0
      modifies this
      ensures cfg.general <= 0 ==> rows == old(rows) && stamps == old(stamps)
      ensures View() == Step(old(View()), Activity(key), now, cfg)
    {
      active := Used(View(), key, now);
      if cfg.general <= 0 {
        return;
      }
      var due := StampThrottleDue(key, now);
      if due {
        rows := Touched(rows, key, now);
      }
    }

    /** _reject_idle_session: `ended` where it revokes the session and raises. */
    method RejectIdleSession(sid: string, now: real, isAdmin: bool) returns (ended: bool)
      modifies this
      ensures cfg.general <= 0 || sid !in old(rows) ==> !ended
      ensures cfg.general > 0 && sid in old(rows) ==>
        var idle := now - old(rows)[sid].lastSeen;
        ended <==> idle > (cfg.general * 60) as real
                   || (isAdmin && cfg.privileged > 0 && idle > (cfg.privileged * 60) as real)
      ensures ended ==> forall s :: s in rows <==> s in old(rows) && old(rows)[s].jti != old(rows)[sid].jti
      ensures forall s :: s in rows ==> s in old(rows) && rows[s] == old(rows)[s]
      ensures !ended ==> rows == old(rows) && stamps == old(stamps)
      ensures cfg.maxStamps > 0 ==>
        View() == if ended then Step(old(View()), End(old(rows)[sid].jti), now, cfg) else old(View())
    {
      var window := OwnerWindow(cfg, isAdmin);
      ended := sid in rows && Ends(rows[sid], now, window);
      if ended {
        var jti := rows[sid].jti;
        rows := map s | s in rows && rows[s].jti != jti :: rows[s];
        stamps := Drop(stamps, Jti(jti));
      }
    }
  }
}
