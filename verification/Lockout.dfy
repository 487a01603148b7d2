/** The login lockout counter: how many failed password checks one key can get. */
module Lockout {
  import opened Common

  /** Threshold F, lockout duration D and window W, in seconds. */
  datatype Config = Config(failures: int, duration: int, window: int)

  datatype Info = Info(count: nat, first: real, lockedUntil: Option<real>)

  datatype Verdict = Wrong | Right | RightButRefused

  /** One login on the key, with the clock readings it takes: the lockout check, the window test, the
      counter write and the lockout write. */
  datatype Attempt = Attempt(checkAt: real, windowAt: real, recordAt: real, lockAt: real, verdict: Verdict)

  predicate InOrder(a: Attempt) { a.checkAt <= a.windowAt <= a.recordAt <= a.lockAt }

  /** is_locked_out. */
  predicate Locked(info: Option<Info>, now: real)
  {
    info.Some? && info.value.lockedUntil.Some? && now < info.value.lockedUntil.value
  }

  /** window_elapsed. */
  predicate WindowElapsed(info: Option<Info>, now: real, cfg: Config)
  {
    info.Some? && now - info.value.first > cfg.window as real
  }

  /** A failed check that starts the counter anew. */
  predicate Restarts(info: Option<Info>, a: Attempt, cfg: Config) { info.None? || WindowElapsed(info, a.windowAt, cfg) }

  /** record_login_failure with record_failed_login and set_login_lockout. */
  function FailureRecorded(info: Option<Info>, a: Attempt, cfg: Config): Info
  {
    var counted := if Restarts(info, a, cfg) then Info(1, a.recordAt, None) else info.value.(count := info.value.count + 1);
    if counted.count >= cfg.failures then counted.(lockedUntil := Some(a.lockAt + cfg.duration as real)) else counted
  }

  /** The counter after one login: locked out, it is not touched; right, it is cleared unless the
      account is refused for another reason. */
  function Step(info: Option<Info>, a: Attempt, cfg: Config): Option<Info>
  {
    if cfg.failures <= 0 || Locked(info, a.checkAt) then info
    else match a.verdict
      case Wrong => Some(FailureRecorded(info, a, cfg))
      case Right => None
      case RightButRefused => info
  }

  // ----- the object -----

  class LoginAttempts {
    const cfg: Config
    var table: map<string, Info>

    constructor (cfg: Config)
      ensures this.cfg == cfg && table == map[]
    {
      this.cfg, table := cfg, map[];
    }

    function Get(key: string): Option<Info>
      reads this
    {
      if key in table then Some(table[key]) else None
    }

    /** check_login_lockout: `locked` where it raises 429. */
    method CheckLoginLockout(key: string, now: real) returns (locked: bool, info: Option<Info>)
      ensures locked == (cfg.failures > 0 && Locked(Get(key), now))
      ensures !locked && cfg.failures > 0 ==> info == Get(key)
    {
      if cfg.failures <= 0 {
        return false, None;
      }
      info := Get(key);
      locked := Locked(info, now);
    }

    method RecordLoginFailure(key: string, info: Option<Info>, a: Attempt)
      requires cfg.failures > 0 && info == Get(key)
      modifies this
      ensures table == old(table)[key := FailureRecorded(info, a, cfg)]
    {
      if WindowElapsed(info, a.windowAt, cfg) || key !in table {
        table := table[key := Info(1, a.recordAt, None)];
      } else {
        table := table[key := table[key].(count := table[key].count + 1)];
      }
      if table[key].count >= cfg.failures {
        table := table[key := table[key].(lockedUntil := Some(a.lockAt + cfg.duration as real))];
      }
    }

    /** The lockout accounting of one login; `checked` tells whether the password was looked at. */
    method Login(key: string, a: Attempt) returns (checked: bool)
      modifies this
      ensures Get(key) == Step(old(Get(key)), a, cfg)
      ensures forall other :: other != key ==> Get(other) == old(Get(other))
      ensures checked == !(cfg.failures > 0 && Locked(old(Get(key)), a.checkAt))
      ensures !checked || cfg.failures <= 0 || a.verdict.RightButRefused? ==> table == old(table)
      ensures checked && cfg.failures > 0 && a.verdict.Right? ==> key !in table
    {
      var locked, info := CheckLoginLockout(key, a.checkAt);
      checked := !locked;
      if checked && cfg.failures > 0 {
        match a.verdict {
          case Wrong => RecordLoginFailure(key, info, a);
          case Right => table := table - {key};
          case RightButRefused =>
        }
      }
    }
  }

  // ----- runs -----

  function After(run: seq<Attempt>, cfg: Config): Option<Info>
  {
    if run == [] then None else Step(After(run[..|run| - 1], cfg), run[|run| - 1], cfg)
  }

  /** Sequential logins on a clock that never goes back. */
  ghost predicate Sequential(run: seq<Attempt>)
  {
    (forall i :: 0 <= i < |run| ==> InOrder(run[i])) && forall i, j :: 0 <= i < j < |run| ==> run[i].lockAt <= run[j].checkAt
  }

  /** The failed password checks since the counter last restarted. */
  function Streak(run: seq<Attempt>, cfg: Config): seq<Attempt>
  {
    if run == [] then []
    else
      var init, a := run[..|run| - 1], run[|run| - 1];
      var info := After(init, cfg);
      if Locked(info, a.checkAt) || a.verdict.RightButRefused? then Streak(init, cfg)
      else if a.verdict.Right? then []
      else if Restarts(info, a, cfg) then [a]
      else Streak(init, cfg) + [a]
  }

  ghost predicate Spaced(streak: seq<Attempt>, cfg: Config)
    requires cfg.failures > 0
  {
    forall i :: cfg.failures <= i < |streak| ==> streak[i - 1].lockAt + cfg.duration as real <= streak[i].checkAt
  }

  /** What the stored counter says about the streak. */
  ghost predicate Tracks(info: Option<Info>, streak: seq<Attempt>, cfg: Config)
    requires cfg.failures > 0
  {
    && (info.None? <==> streak == [])
    && (info.Some? ==>
          && info.value.count == |streak| && info.value.first == streak[0].recordAt
          && info.value.lockedUntil == (if |streak| < cfg.failures then None
                                        else Some(streak[|streak| - 1].lockAt + cfg.duration as real))
          && forall i :: 1 <= i < |streak| ==> streak[i].windowAt - streak[0].recordAt <= cfg.window as real)
    && (forall i :: 0 <= i < |streak| ==> InOrder(streak[i]))
    && (forall i, j :: 0 <= i < j < |streak| ==> streak[i].lockAt <= streak[j].checkAt)
    && Spaced(streak, cfg)
  }

  /** One more failed check, after the lock has run out, on the same counter. */
  lemma FailureTracks(info: Option<Info>, streak: seq<Attempt>, a: Attempt, cfg: Config)
    requires cfg.failures > 0 && Tracks(info, streak, cfg) && InOrder(a)
    requires !Locked(info, a.checkAt) && !Restarts(info, a, cfg)
    requires streak[|streak| - 1].lockAt <= a.checkAt
    ensures Tracks(Some(FailureRecorded(info, a, cfg)), streak + [a], cfg)
  {
    var longer := streak + [a];
    forall i | 0 <= i < |streak| ensures longer[i].lockAt <= a.checkAt {
      assert InOrder(streak[|streak| - 1]);
      if i < |streak| - 1 { assert streak[i].lockAt <= streak[|streak| - 1].checkAt; }
    }
  }

  lemma RestartTracks(info: Option<Info>, a: Attempt, cfg: Config)
    requires cfg.failures > 0 && InOrder(a) && Restarts(info, a, cfg)
    ensures Tracks(Some(FailureRecorded(info, a, cfg)), [a], cfg)
  {
  }

  lemma {:induction false} CounterTracksStreak(run: seq<Attempt>, cfg: Config)
    requires cfg.failures > 0 && Sequential(run)
    ensures Tracks(After(run, cfg), Streak(run, cfg), cfg)
    ensures Streak(run, cfg) != [] ==> run != [] && Streak(run, cfg)[|Streak(run, cfg)| - 1].lockAt <= run[|run| - 1].lockAt
    decreases |run|
  {
    if run != [] {
      var init, a := run[..|run| - 1], run[|run| - 1];
      CounterTracksStreak(init, cfg);
      var info, streak := After(init, cfg), Streak(init, cfg);
      assert InOrder(a);
      if init != [] {
        assert run[|run| - 2].lockAt <= a.checkAt;
      }
      if !Locked(info, a.checkAt) && a.verdict.Wrong? {
        if Restarts(info, a, cfg) {
          RestartTracks(info, a, cfg);
        } else {
          FailureTracks(info, streak, a, cfg);
        }
      }
    }
  }

  /** From the F-th failure on, each failed check comes at least D after the one before it. */
  lemma FailuresAreSpaced(run: seq<Attempt>, cfg: Config)
    requires cfg.failures > 0 && Sequential(run)
    ensures Spaced(Streak(run, cfg), cfg)
  {
    CounterTracksStreak(run, cfg);
  }

  /** `n` durations. */
  function Times(n: nat, d: int): int { if n == 0 then 0 else Times(n - 1, d) + d }

  lemma {:induction false} TimesIsProduct(n: nat, d: int)
    ensures Times(n, d) == n * d
  {
    if n > 0 { TimesIsProduct(n - 1, d); }
  }

  lemma ProductOrder(n: int, m: int, d: int)
    requires d > 0
    ensures n <= m <==> n * d <= m * d
  {
    assert (m - n) * d == m * d - n * d;
    if n <= m {
      assert (m - n) * d >= 0;
    } else {
      assert (n - m) * d == n * d - m * d;
      assert (n - m) * d > 0;
    }
  }

  /** floor(w / d) is the largest number of durations that fits in the window. */
  lemma TimesWithin(n: nat, d: int, w: int)
    requires d > 0 && w >= 0
    ensures Times(n, d) <= w <==> n <= w / d
  {
    TimesIsProduct(n, d);
    var q := w / d;
    assert q * d <= w < (q + 1) * d;
    ProductOrder(n, q, d);
    ProductOrder(q + 1, n, d);
  }

  lemma {:induction false} TimePassed(streak: seq<Attempt>, info: Option<Info>, cfg: Config, i: nat)
    requires cfg.failures > 0 && cfg.duration > 0 && Tracks(info, streak, cfg)
    requires cfg.failures - 1 <= i < |streak|
    ensures streak[i].lockAt >= streak[0].recordAt + Times(i - cfg.failures + 1, cfg.duration) as real
    decreases i
  {
    assert InOrder(streak[i]) && InOrder(streak[0]);
    if i >= cfg.failures {
      TimePassed(streak, info, cfg, i - 1);
    } else if i > 0 {
      assert streak[0].lockAt <= streak[i].checkAt;
    }
  }

  /** The failures past the threshold fill the window with lockouts. */
  lemma StreakSpan(streak: seq<Attempt>, info: Option<Info>, cfg: Config)
    requires cfg.failures > 0 && cfg.duration > 0 && Tracks(info, streak, cfg) && |streak| > cfg.failures
    ensures Times(|streak| - cfg.failures, cfg.duration) <= cfg.window
  {
    var n := |streak|;
    var last := streak[n - 1];
    TimePassed(streak, info, cfg, n - 2);
    assert streak[n - 2].lockAt + cfg.duration as real <= last.checkAt;
    assert InOrder(last) && last.windowAt - streak[0].recordAt <= cfg.window as real;
    var span := Times(n - cfg.failures, cfg.duration);
    assert span == Times(n - 2 - cfg.failures + 1, cfg.duration) + cfg.duration;
    assert span as real <= cfg.window as real;
  }

  /** Between two restarts of the counter a key gets at most F + floor(W / D) failed checks. */
  lemma FailedChecksBounded(run: seq<Attempt>, cfg: Config)
    requires cfg.failures > 0 && cfg.duration > 0 && cfg.window >= 0 && Sequential(run)
    ensures |Streak(run, cfg)| <= cfg.failures + cfg.window / cfg.duration
  {
    var n := StreakFits(run, cfg);
    if n > cfg.failures { TimesWithin(n - cfg.failures, cfg.duration, cfg.window); }
  }

  lemma StreakFits(run: seq<Attempt>, cfg: Config) returns (n: nat)
    requires cfg.failures > 0 && cfg.duration > 0 && Sequential(run)
    ensures n == |Streak(run, cfg)| && (n > cfg.failures ==> Times(n - cfg.failures, cfg.duration) <= cfg.window)
  {
    CounterTracksStreak(run, cfg);
    n := |Streak(run, cfg)|;
    if n > cfg.failures { StreakSpan(Streak(run, cfg), After(run, cfg), cfg); }
  }

  // ----- the bound is attained -----

  /** All F allowed failures at once, then one as soon as each lockout ends. */
  function Instant(cfg: Config, i: nat): int
    requires cfg.failures > 0
  {
    if i < cfg.failures then 0 else Times(i - cfg.failures + 1, cfg.duration)
  }

  function FailAt(cfg: Config, i: nat): Attempt
    requires cfg.failures > 0
  {
    var t := Instant(cfg, i) as real;
    Attempt(t, t, t, t, Wrong)
  }

  function Persistent(cfg: Config, n: nat): (run: seq<Attempt>)
    requires cfg.failures > 0
    ensures |run| == n && forall i :: 0 <= i < n ==> run[i] == FailAt(cfg, i)
  {
    if n == 0 then [] else Persistent(cfg, n - 1) + [FailAt(cfg, n - 1)]
  }

  lemma {:induction false} InstantGrows(cfg: Config, i: nat, j: nat)
    requires cfg.failures > 0 && cfg.duration > 0 && i <= j
    ensures Instant(cfg, i) <= Instant(cfg, j)
    ensures i >= cfg.failures ==> Instant(cfg, i) == Instant(cfg, i - 1) + cfg.duration
    decreases j
  {
    assert Times(0, cfg.duration) == 0;
    if i < j { InstantGrows(cfg, i, j - 1); }
  }

  lemma InstantBounds(cfg: Config, n: nat)
    requires cfg.failures > 0 && cfg.duration > 0
    ensures 0 <= Instant(cfg, n) && (n > 0 ==> Instant(cfg, n - 1) <= Instant(cfg, n))
    ensures n >= cfg.failures ==> Instant(cfg, n) == Instant(cfg, n - 1) + cfg.duration
  {
    if n > 0 { InstantGrows(cfg, n - 1, n); }
    InstantGrows(cfg, 0, n);
    InstantGrows(cfg, n, n);
  }

  lemma {:induction false} PersistentStreak(cfg: Config, n: nat)
    requires cfg.failures > 0 && cfg.duration > 0 && cfg.window >= 0 && (n > 0 ==> Instant(cfg, n - 1) <= cfg.window)
    ensures Streak(Persistent(cfg, n), cfg) == Persistent(cfg, n)
    ensures After(Persistent(cfg, n), cfg) == CounterAfter(cfg, n)
    decreases n
  {
    if n > 0 {
      InstantBounds(cfg, n - 1);
      PersistentStreak(cfg, n - 1);
      PersistentStep(cfg, n - 1);
    }
  }

  lemma PersistentStep(cfg: Config, n: nat)
    requires cfg.failures > 0 && 0 <= Instant(cfg, n) <= cfg.window
    requires n >= cfg.failures ==> Instant(cfg, n) == Instant(cfg, n - 1) + cfg.duration
    requires Streak(Persistent(cfg, n), cfg) == Persistent(cfg, n) && After(Persistent(cfg, n), cfg) == CounterAfter(cfg, n)
    ensures Streak(Persistent(cfg, n + 1), cfg) == Persistent(cfg, n + 1)
    ensures After(Persistent(cfg, n + 1), cfg) == CounterAfter(cfg, n + 1)
  {
    var run, a := Persistent(cfg, n), FailAt(cfg, n);
    CounterStep(cfg, n, a);
    StreakStep(run, a, cfg);
    assert Persistent(cfg, n + 1) == run + [a];
    assert n == 0 ==> run + [a] == [a];
  }

  /** One more failed check that is not locked out. */
  lemma StreakStep(run: seq<Attempt>, a: Attempt, cfg: Config)
    requires a.verdict.Wrong? && !Locked(After(run, cfg), a.checkAt)
    ensures After(run + [a], cfg) == Step(After(run, cfg), a, cfg)
    ensures Streak(run + [a], cfg) == if Restarts(After(run, cfg), a, cfg) then [a] else Streak(run, cfg) + [a]
  {
    assert (run + [a])[..|run|] == run;
  }

  function CounterAfter(cfg: Config, n: nat): Option<Info>
    requires cfg.failures > 0
  {
    if n == 0 then None
    else Some(Info(n, 0.0, if n < cfg.failures then None else Some((Instant(cfg, n - 1) + cfg.duration) as real)))
  }

  lemma CounterStep(cfg: Config, n: nat, a: Attempt)
    requires cfg.failures > 0 && 0 <= Instant(cfg, n) <= cfg.window
    requires n >= cfg.failures ==> Instant(cfg, n) == Instant(cfg, n - 1) + cfg.duration
    requires var t := Instant(cfg, n) as real; a == Attempt(t, t, t, t, Wrong)
    ensures !Locked(CounterAfter(cfg, n), a.checkAt) && (n > 0 ==> !Restarts(CounterAfter(cfg, n), a, cfg))
    ensures Step(CounterAfter(cfg, n), a, cfg) == CounterAfter(cfg, n + 1)
  {
  }

  /** For every configuration some run of logins gets exactly that many. */
  lemma BoundIsAttained(cfg: Config)
    requires cfg.failures > 0 && cfg.duration > 0 && cfg.window >= 0
    ensures exists run :: Sequential(run) && |Streak(run, cfg)| == cfg.failures + cfg.window / cfg.duration
  {
    var q := cfg.window / cfg.duration;
    TimesWithin(q, cfg.duration, cfg.window);
    var run := PersistentAttains(cfg, q);
  }

  lemma PersistentAttains(cfg: Config, q: nat) returns (run: seq<Attempt>)
    requires cfg.failures > 0 && cfg.duration > 0 && cfg.window >= 0 && Times(q, cfg.duration) <= cfg.window
    ensures Sequential(run) && |Streak(run, cfg)| == cfg.failures + q
  {
    var n := cfg.failures + q;
    run := Persistent(cfg, n);
    assert Times(0, cfg.duration) == 0;
    assert Instant(cfg, n - 1) <= cfg.window;
    PersistentStreak(cfg, n);
    PersistentIsSequential(cfg, n);
  }

  lemma PersistentIsSequential(cfg: Config, n: nat)
    requires cfg.failures > 0 && cfg.duration > 0
    ensures Sequential(Persistent(cfg, n))
  {
    var run := Persistent(cfg, n);
    forall i, j | 0 <= i < j < |run| ensures run[i].lockAt <= run[j].checkAt { InstantGrows(cfg, i, j); }
  }
}
