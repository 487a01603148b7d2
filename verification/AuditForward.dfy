/** The audit forwarder: at-least-once delivery per (source, target), with batches, failures that
    leave any prefix delivered, interruptions before the cursor advances, and per-target backoff. */
module AuditForward {

  datatype Source = AuditEvents | ContainerEvents | EgressConsent

  const SOURCE_ORDER := [AuditEvents, ContainerEvents, EgressConsent]
  const BATCH_LIMIT := 500

  /** 2**1024 is the first power that does not convert to a float. */
  const MAX_FAILURES := 1024

  /** Addresses and their digests. */
  type Name = string

  /** A configured target: its address, and the digest of the address that keys its watermarks. */
  datatype Target = Target(address: Name, key: Name)

  /** The database tables and watermarks, what each target has received, and the in-memory retry state. */
  datatype State = State(tables: map<Source, seq<nat>>, watermarks: map<(Source, Name), nat>,
                         logs: map<(Source, Name), seq<nat>>, failures: map<Name, nat>, cooldowns: map<Name, real>) {
    function Table(src: Source): seq<nat> { if src in tables then tables[src] else [] }
    function Watermark(src: Source, key: Name): nat { if (src, key) in watermarks then watermarks[(src, key)] else 0 }
    function Log(src: Source, tgt: Target): seq<nat> { if (src, tgt.address) in logs then logs[(src, tgt.address)] else [] }
    function Failures(tgt: Target): nat { if tgt.address in failures then failures[tgt.address] else 0 }
    function CooldownUntil(tgt: Target): real { if tgt.address in cooldowns then cooldowns[tgt.address] else 0.0 }
    predicate InCooldown(tgt: Target, now: real) { now < CooldownUntil(tgt) }
  }

  const EMPTY := State(map[], map[], map[], map[], map[])

  // ----- rows -----

  function Later(t: seq<nat>, after: nat): seq<nat>
  {
    if t == [] then [] else (if t[0] > after then [t[0]] else []) + Later(t[1..], after)
  }

  /** rows_after: the rows past the cursor in cursor order, at most `limit`. */
  function RowsAfter(t: seq<nat>, after: nat, limit: nat): seq<nat>
  {
    var rows := Later(t, after);
    if |rows| <= limit then rows else rows[..limit]
  }

  /** Cursors are positive, never reused and only grow. */
  ghost predicate Increasing(t: seq<nat>)
  {
    (forall i :: 0 <= i < |t| ==> t[i] > 0) && forall i, j :: 0 <= i < j < |t| ==> t[i] < t[j]
  }

  // ----- backoff -----

  function Pow2(n: nat): nat { if n == 0 then 1 else 2 * Pow2(n - 1) }

  /** backoff_seconds after `failures` failures in a row: 5 seconds doubled each time, 300 at most. */
  function Backoff(failures: nat): real
  {
    var delay := 5.0 * Pow2(if failures > 1 then failures - 1 else 0) as real;
    if delay < 300.0 then delay else 300.0
  }

  // ----- one attempt on one (source, target) pair -----

  /** How an attempt goes. A failed or interrupted delivery has reached the target with its first
      `sent` rows; a delivered batch whose cursor could not be advanced is one of those too. */
  datatype Fate = Delivers | ReadFails | DeliveryFails(sent: nat) | Interrupted(sent: nat)

  datatype Event =
    | Insert(src: Source, cursor: nat)
    | Try(src: Source, tgt: Target, checkAt: real, fate: Fate, failAt: real)
    | Restart

  function Sent(batch: seq<nat>, n: nat): seq<nat> { if n <= |batch| then batch[..n] else batch }

  function Batch(st: State, src: Source, tgt: Target): seq<nat>
  {
    RowsAfter(st.Table(src), st.Watermark(src, tgt.key), BATCH_LIMIT)
  }

  /** The rows an attempt puts in front of its target. */
  function Arriving(batch: seq<nat>, fate: Fate): seq<nat>
  {
    match fate
    case Delivers => batch
    case ReadFails => []
    case DeliveryFails(n) => Sent(batch, n)
    case Interrupted(n) => Sent(batch, n)
  }

  /** forward_target on a given batch: deliver it, then advance the cursor and forget the target's failures. */
  function ForwardedBatch(st: State, src: Source, tgt: Target, batch: seq<nat>, fate: Fate): State
  {
    if fate.ReadFails? || batch == [] then st
    else
      var st' := st.(logs := st.logs[(src, tgt.address) := st.Log(src, tgt) + Arriving(batch, fate)]);
      if fate.Delivers? then
        st'.(watermarks := st.watermarks[(src, tgt.key) := batch[|batch| - 1]], failures := st.failures - {tgt.address})
      else st'
  }

  function Forwarded(st: State, src: Source, tgt: Target, fate: Fate): State
  {
    ForwardedBatch(st, src, tgt, Batch(st, src, tgt), fate)
  }

  predicate RaisesOn(batch: seq<nat>, fate: Fate) { fate.ReadFails? || (fate.DeliveryFails? && batch != []) }

  /** record_failure; past MAX_FAILURES the delay itself raises and the cooldown is left as it was. */
  function FailureRecorded(st: State, tgt: Target, now: real): State
  {
    FailureNoted(st, tgt, now + Backoff(st.Failures(tgt) + 1))
  }

  function FailureNoted(st: State, tgt: Target, until: real): State
  {
    var k := st.Failures(tgt) + 1;
    var st' := st.(failures := st.failures[tgt.address := k]);
    if k > MAX_FAILURES then st' else st'.(cooldowns := st.cooldowns[tgt.address := until])
  }

  predicate Fails(st: State, e: Event)
  {
    e.Try? && !st.InCooldown(e.tgt, e.checkAt) && RaisesOn(Batch(st, e.src, e.tgt), e.fate)
  }

  predicate Succeeds(st: State, e: Event)
  {
    e.Try? && !st.InCooldown(e.tgt, e.checkAt) && e.fate.Delivers? && Batch(st, e.src, e.tgt) != []
  }

  /** One pass of the loop body of forward_source, out of cooldown, on a given batch. */
  function Tried(st: State, e: Event, batch: seq<nat>): State
    requires e.Try?
  {
    var st' := ForwardedBatch(st, e.src, e.tgt, batch, e.fate);
    if RaisesOn(batch, e.fate) then FailureRecorded(st', e.tgt, e.failAt) else st'
  }

  /** An attempt; an insert by the application; or a restart, which loses the in-memory retry state. */
  function Step(st: State, e: Event): State
  {
    match e
    case Insert(src, cursor) => st.(tables := st.tables[src := st.Table(src) + [cursor]])
    case Restart => st.(failures := map[], cooldowns := map[])
    case Try(src, tgt, checkAt, _, _) => if st.InCooldown(tgt, checkAt) then st else Tried(st, e, Batch(st, src, tgt))
  }

  function After(run: seq<Event>): State
  {
    if run == [] then EMPTY else Step(After(run[..|run| - 1]), run[|run| - 1])
  }

  /** Every inserted row gets a cursor above all earlier ones of its table. */
  ghost predicate ValidRun(run: seq<Event>)
  {
    if run == [] then true
    else
      var e, st := run[|run| - 1], After(run[..|run| - 1]);
      ValidRun(run[..|run| - 1]) && (e.Insert? ==> Increasing(st.Table(e.src) + [e.cursor]))
  }

  // ----- at least once, in order, without gaps -----

  /** What was received, without repetitions, in order of first arrival. */
  function Firsts(log: seq<nat>): seq<nat>
  {
    if log == [] then []
    else
      var init, last := log[..|log| - 1], log[|log| - 1];
      if last in init then Firsts(init) else Firsts(init) + [last]
  }

  /** How many rows the watermark has passed. */
  function Passed(t: seq<nat>, mark: nat): (n: nat)
    ensures n <= |t|
  {
    if t == [] || t[0] > mark then 0 else 1 + Passed(t[1..], mark)
  }

  /** First arrivals are a prefix of the table, and everything up to the watermark is among them. */
  ghost predicate PairOk(t: seq<nat>, mark: nat, log: seq<nat>)
  {
    Increasing(t) && Firsts(log) <= t && Passed(t, mark) <= |Firsts(log)| && (mark == 0 || mark in t)
  }

  lemma {:induction false} FirstsMembers(log: seq<nat>, x: nat)
    ensures x in Firsts(log) <==> x in log
  {
    if log != [] {
      FirstsMembers(log[..|log| - 1], x);
      assert log == log[..|log| - 1] + [log[|log| - 1]];
    }
  }

  lemma {:induction false} PassedSplits(t: seq<nat>, mark: nat, i: nat)
    requires Increasing(t) && i < |t|
    ensures i < Passed(t, mark) <==> t[i] <= mark
    decreases |t|
  {
    if t[0] <= mark && i > 0 {
      PassedSplits(t[1..], mark, i - 1);
    }
  }

  lemma {:induction false} LaterIsSuffix(t: seq<nat>, mark: nat)
    requires Increasing(t)
    ensures Later(t, mark) == t[Passed(t, mark)..]
    decreases |t|
  {
    if t != [] {
      LaterIsSuffix(t[1..], mark);
      if t[0] > mark {
        if |t| > 1 {
          assert t[1] > mark;
        }
        assert Passed(t[1..], mark) == 0;
      }
    }
  }

  /** A batch is the next stretch of the table. */
  lemma BatchIsSlice(t: seq<nat>, mark: nat, limit: nat) returns (m: nat)
    requires Increasing(t)
    ensures var w := Passed(t, mark);
      && w <= m <= |t| && m - w <= limit && (m < |t| ==> m == w + limit)
      && RowsAfter(t, mark, limit) == t[w..m]
  {
    LaterIsSuffix(t, mark);
    var w := Passed(t, mark);
    m := if w + limit <= |t| then w + limit else |t|;
    assert |t[w..]| > limit ==> t[w..][..limit] == t[w..m];
  }

  lemma FirstsSnoc(log: seq<nat>, x: nat)
    ensures Firsts(log + [x]) == if x in log then Firsts(log) else Firsts(log) + [x]
  {
    assert (log + [x])[..|log|] == log;
  }

  /** Rows that have arrived before add nothing. */
  lemma {:induction false} FirstsAbsorb(log: seq<nat>, u: seq<nat>)
    requires forall x :: x in u ==> x in log
    ensures Firsts(log + u) == Firsts(log)
    decreases |u|
  {
    if u == [] {
      assert log + u == log;
    } else {
      var init, x := u[..|u| - 1], u[|u| - 1];
      FirstsAbsorb(log, init);
      assert log + u == (log + init) + [x];
      FirstsSnoc(log + init, x);
    }
  }

  /** The rows right after those that have arrived extend them. */
  lemma {:induction false} FirstsGrow(log: seq<nat>, t: seq<nat>, m: nat)
    requires Increasing(t) && |Firsts(log)| <= m <= |t| && Firsts(log) == t[..|Firsts(log)|]
    ensures Firsts(log + t[|Firsts(log)|..m]) == t[..m]
    decreases m
  {
    var n := |Firsts(log)|;
    if n == m {
      assert log + t[n..m] == log;
    } else {
      FirstsGrow(log, t, m - 1);
      assert log + t[n..m] == (log + t[n..m - 1]) + [t[m - 1]];
      FirstsNext(log + t[n..m - 1], t, m - 1);
    }
  }

  lemma FirstsNext(log: seq<nat>, t: seq<nat>, n: nat)
    requires Increasing(t) && n < |t| && Firsts(log) == t[..n]
    ensures Firsts(log + [t[n]]) == t[..n + 1]
  {
    FirstsMembers(log, t[n]);
    assert t[n] !in t[..n];
    FirstsSnoc(log, t[n]);
  }

  lemma StretchArrived(log: seq<nat>, t: seq<nat>, w: nat, k: nat)
    requires Firsts(log) <= t && w <= k <= |Firsts(log)|
    ensures forall x :: x in t[w..k] ==> x in log
  {
    forall x | x in t[w..k] ensures x in log {
      var i :| 0 <= i < k - w && t[w..k][i] == x;
      assert Firsts(log)[w + i] == x;
      FirstsMembers(log, x);
    }
  }

  /** Receiving a stretch that starts inside what has arrived leaves no gap. */
  lemma FirstsExtend(log: seq<nat>, t: seq<nat>, w: nat, m: nat)
    requires Increasing(t) && Firsts(log) <= t && w <= |Firsts(log)| && w <= m <= |t|
    ensures Firsts(log + t[w..m]) <= t && |Firsts(log + t[w..m])| >= m && |Firsts(log + t[w..m])| >= |Firsts(log)|
  {
    var n := |Firsts(log)|;
    if m <= n {
      StretchArrived(log, t, w, m);
      FirstsAbsorb(log, t[w..m]);
    } else {
      StretchArrived(log, t, w, n);
      FirstsAbsorb(log, t[w..n]);
      FirstsBeyond(log + t[w..n], t, n, m);
      Rejoin(log, t, w, n, m);
    }
  }

  lemma FirstsBeyond(log: seq<nat>, t: seq<nat>, n: nat, m: nat)
    requires Increasing(t) && Firsts(log) <= t && n == |Firsts(log)| <= m <= |t|
    ensures Firsts(log + t[n..m]) == t[..m]
  {
    FirstsGrow(log, t, m);
  }

  lemma Rejoin(log: seq<nat>, t: seq<nat>, w: nat, n: nat, m: nat)
    requires w <= n <= m <= |t|
    ensures (log + t[w..n]) + t[n..m] == log + t[w..m]
  {
    assert t[w..n] + t[n..m] == t[w..m];
  }

  lemma PassedBound(t: seq<nat>, mark: nat, n: nat)
    requires Increasing(t) && n <= |t| && (n < |t| ==> mark < t[n])
    ensures Passed(t, mark) <= n
  {
    if n < |t| { PassedSplits(t, mark, n); }
  }

  /** Inserting a row keeps every pair consistent. */
  lemma InsertKeepsPair(t: seq<nat>, c: nat, mark: nat, log: seq<nat>)
    requires PairOk(t, mark, log) && Increasing(t + [c])
    ensures PairOk(t + [c], mark, log)
  {
    var n := Passed(t, mark);
    if n < |t| {
      PassedSplits(t, mark, n);
      assert (t + [c])[n] == t[n];
    } else {
      assert mark < (t + [c])[n] by {
        if mark in t {
          var i :| 0 <= i < |t| && t[i] == mark;
          assert (t + [c])[i] == mark;
        }
      }
    }
    PassedBound(t + [c], mark, n);
  }

  /** A stretch of the table from the watermark on may arrive without the watermark moving. */
  lemma SliceKeepsPair(t: seq<nat>, mark: nat, log: seq<nat>, m: nat)
    requires PairOk(t, mark, log) && Passed(t, mark) <= m <= |t|
    ensures PairOk(t, mark, log + t[Passed(t, mark)..m])
    ensures m <= |Firsts(log + t[Passed(t, mark)..m])|
  {
    FirstsExtend(log, t, Passed(t, mark), m);
  }

  /** Part of a batch may arrive without the watermark moving. */
  lemma PartialKeepsPair(t: seq<nat>, mark: nat, log: seq<nat>, n: nat)
    requires PairOk(t, mark, log)
    ensures PairOk(t, mark, log + Sent(RowsAfter(t, mark, BATCH_LIMIT), n))
  {
    var w := Passed(t, mark);
    var m := BatchIsSlice(t, mark, BATCH_LIMIT);
    var k := SentSlice(t, w, m, n);
    SliceKeepsPair(t, mark, log, k);
  }

  lemma SentSlice(t: seq<nat>, w: nat, m: nat, n: nat) returns (k: nat)
    requires w <= m <= |t|
    ensures w <= k <= m && Sent(t[w..m], n) == t[w..k]
  {
    k := if n <= m - w then w + n else m;
  }

  /** A whole batch arrives, then the watermark moves to its last row. */
  lemma AdvanceKeepsPair(t: seq<nat>, mark: nat, log: seq<nat>)
    requires PairOk(t, mark, log) && RowsAfter(t, mark, BATCH_LIMIT) != []
    ensures var batch := RowsAfter(t, mark, BATCH_LIMIT);
      mark < batch[|batch| - 1] && PairOk(t, batch[|batch| - 1], log + batch)
  {
    var w, batch := Passed(t, mark), RowsAfter(t, mark, BATCH_LIMIT);
    var m := BatchIsSlice(t, mark, BATCH_LIMIT);
    SliceKeepsPair(t, mark, log, m);
    assert batch[|batch| - 1] == t[m - 1];
    PassedBound(t, t[m - 1], m);
    PassedSplits(t, mark, m - 1);
  }

  /** Different targets differ both in address and in watermark key. */
  predicate Apart(a: Target, b: Target) { a == b || (a.address != b.address && a.key != b.key) }

  lemma TriedOwn(st: State, e: Event, batch: seq<nat>)
    requires e.Try?
    ensures var st' := Tried(st, e, batch);
      && st'.Log(e.src, e.tgt) == (if batch == [] then st.Log(e.src, e.tgt) else st.Log(e.src, e.tgt) + Arriving(batch, e.fate))
      && st'.Watermark(e.src, e.tgt.key)
         == (if e.fate.Delivers? && batch != [] then batch[|batch| - 1] else st.Watermark(e.src, e.tgt.key))
  {
    assert st.Log(e.src, e.tgt) + [] == st.Log(e.src, e.tgt);
  }

  lemma TriedOther(st: State, e: Event, batch: seq<nat>, src: Source, tgt: Target)
    requires e.Try? && Apart(tgt, e.tgt)
    ensures var st' := Tried(st, e, batch);
      && st'.tables == st.tables
      && (src != e.src || tgt != e.tgt ==>
            st'.Log(src, tgt) == st.Log(src, tgt) && st'.Watermark(src, tgt.key) == st.Watermark(src, tgt.key))
  {
    var st' := ForwardedBatch(st, e.src, e.tgt, batch, e.fate);
    FailureLeavesDelivery(st', e.tgt, e.failAt);
    var after := Tried(st, e, batch);
    assert after.tables == st'.tables && after.logs == st'.logs && after.watermarks == st'.watermarks;
    ForwardedOther(st, e.src, e.tgt, batch, e.fate, src, tgt);
    assert after.Log(src, tgt) == st'.Log(src, tgt) && after.Watermark(src, tgt.key) == st'.Watermark(src, tgt.key);
  }

  lemma FailureLeavesDelivery(st: State, tgt: Target, now: real)
    ensures var st' := FailureRecorded(st, tgt, now);
      st'.tables == st.tables && st'.logs == st.logs && st'.watermarks == st.watermarks
  {
  }

  lemma ForwardedOther(st: State, src: Source, tgt: Target, batch: seq<nat>, fate: Fate, s: Source, other: Target)
    requires Apart(other, tgt)
    ensures var st' := ForwardedBatch(st, src, tgt, batch, fate);
      && st'.tables == st.tables
      && (s != src || other != tgt ==>
            st'.Log(s, other) == st.Log(s, other) && st'.Watermark(s, other.key) == st.Watermark(s, other.key))
  {
    if s != src || other != tgt {
      LogElsewhere(st, src, tgt, st.Log(src, tgt) + Arriving(batch, fate), s, other);
      if batch != [] { MarkElsewhere(st, src, tgt, batch[|batch| - 1], s, other); }
    }
  }

  lemma LogElsewhere(st: State, src: Source, tgt: Target, log: seq<nat>, s: Source, other: Target)
    requires s != src || other.address != tgt.address
    ensures st.(logs := st.logs[(src, tgt.address) := log]).Log(s, other) == st.Log(s, other)
  {
  }

  lemma MarkElsewhere(st: State, src: Source, tgt: Target, mark: nat, s: Source, other: Target)
    requires s != src || other.key != tgt.key
    ensures st.(watermarks := st.watermarks[(src, tgt.key) := mark]).Watermark(s, other.key) == st.Watermark(s, other.key)
  {
  }

  lemma TriedRetry(st: State, e: Event, batch: seq<nat>, tgt: Target)
    requires e.Try? && Apart(tgt, e.tgt)
    ensures var k, st' := st.Failures(tgt), Tried(st, e, batch);
      && (tgt != e.tgt ==> st'.Failures(tgt) == k && st'.CooldownUntil(tgt) == st.CooldownUntil(tgt))
      && (tgt == e.tgt ==>
            && st'.Failures(tgt) == (if RaisesOn(batch, e.fate) then k + 1
                                     else if e.fate.Delivers? && batch != [] then 0 else k)
            && st'.CooldownUntil(tgt) == (if RaisesOn(batch, e.fate) && k < MAX_FAILURES then e.failAt + Backoff(k + 1)
                                          else st.CooldownUntil(tgt)))
  {
  }

  /** What an attempt out of cooldown does to its own pair. */
  lemma TryOwn(st: State, e: Event)
    requires e.Try? && !st.InCooldown(e.tgt, e.checkAt)
    ensures var batch, st' := Batch(st, e.src, e.tgt), Step(st, e);
      && st'.Log(e.src, e.tgt) == (if batch == [] then st.Log(e.src, e.tgt) else st.Log(e.src, e.tgt) + Arriving(batch, e.fate))
      && st'.Watermark(e.src, e.tgt.key)
         == (if e.fate.Delivers? && batch != [] then batch[|batch| - 1] else st.Watermark(e.src, e.tgt.key))
  {
    TriedOwn(st, e, Batch(st, e.src, e.tgt));
  }

  /** What an attempt leaves alone. */
  lemma TryOther(st: State, e: Event, src: Source, tgt: Target)
    requires e.Try? && Apart(tgt, e.tgt)
    ensures var st' := Step(st, e);
      && st'.tables == st.tables
      && (src != e.src || tgt != e.tgt ==>
            st'.Log(src, tgt) == st.Log(src, tgt) && st'.Watermark(src, tgt.key) == st.Watermark(src, tgt.key))
  {
    TriedOther(st, e, Batch(st, e.src, e.tgt), src, tgt);
  }

  /** What an attempt does to the retry state. */
  lemma TryRetry(st: State, e: Event, tgt: Target)
    requires e.Try? && Apart(tgt, e.tgt)
    ensures var k, st' := st.Failures(tgt), Step(st, e);
      && (tgt != e.tgt ==> st'.Failures(tgt) == k && st'.CooldownUntil(tgt) == st.CooldownUntil(tgt))
      && (tgt == e.tgt ==>
            && st'.Failures(tgt) == (if Fails(st, e) then k + 1 else if Succeeds(st, e) then 0 else k)
            && st'.CooldownUntil(tgt) == (if Fails(st, e) && k < MAX_FAILURES then e.failAt + Backoff(k + 1)
                                          else st.CooldownUntil(tgt)))
  {
    TriedRetry(st, e, Batch(st, e.src, e.tgt), tgt);
  }

  /** One step keeps a pair consistent, whichever pair the step is about. */
  lemma StepKeepsPair(st: State, e: Event, src: Source, tgt: Target)
    requires PairOk(st.Table(src), st.Watermark(src, tgt.key), st.Log(src, tgt))
    requires e.Insert? ==> Increasing(st.Table(e.src) + [e.cursor])
    requires e.Try? ==> Apart(tgt, e.tgt)
    ensures var st' := Step(st, e);
      && PairOk(st'.Table(src), st'.Watermark(src, tgt.key), st'.Log(src, tgt))
      && st.Watermark(src, tgt.key) <= st'.Watermark(src, tgt.key)
      && st.Log(src, tgt) <= st'.Log(src, tgt)
  {
    if e.Try? {
      TryKeepsPair(st, e, src, tgt);
    } else {
      QuietKeepsPair(st, e, src, tgt);
    }
  }

  lemma QuietKeepsPair(st: State, e: Event, src: Source, tgt: Target)
    requires PairOk(st.Table(src), st.Watermark(src, tgt.key), st.Log(src, tgt)) && !e.Try?
    requires e.Insert? ==> Increasing(st.Table(e.src) + [e.cursor])
    ensures var st' := Step(st, e);
      && PairOk(st'.Table(src), st'.Watermark(src, tgt.key), st'.Log(src, tgt))
      && st'.Watermark(src, tgt.key) == st.Watermark(src, tgt.key) && st'.Log(src, tgt) == st.Log(src, tgt)
  {
    QuietTables(st, e, src);
    if e.Insert? && e.src == src {
      InsertKeepsPair(st.Table(src), e.cursor, st.Watermark(src, tgt.key), st.Log(src, tgt));
    }
  }

  lemma QuietTables(st: State, e: Event, src: Source)
    requires !e.Try?
    ensures var st' := Step(st, e);
      && st'.watermarks == st.watermarks && st'.logs == st.logs
      && st'.Table(src) == if e.Insert? && e.src == src then st.Table(src) + [e.cursor] else st.Table(src)
  {
  }

  lemma TryKeepsPair(st: State, e: Event, src: Source, tgt: Target)
    requires PairOk(st.Table(src), st.Watermark(src, tgt.key), st.Log(src, tgt))
    requires e.Try? && Apart(tgt, e.tgt)
    ensures var st' := Step(st, e);
      && PairOk(st'.Table(src), st'.Watermark(src, tgt.key), st'.Log(src, tgt))
      && st.Watermark(src, tgt.key) <= st'.Watermark(src, tgt.key)
      && st.Log(src, tgt) <= st'.Log(src, tgt)
  {
    TryOther(st, e, src, tgt);
    if e.src == src && e.tgt == tgt && !st.InCooldown(e.tgt, e.checkAt) {
      TryOwn(st, e);
      ArrivalKeepsPair(st.Table(src), st.Watermark(src, tgt.key), st.Log(src, tgt), e.fate);
    }
  }

  lemma ArrivalKeepsPair(t: seq<nat>, mark: nat, log: seq<nat>, fate: Fate)
    requires PairOk(t, mark, log)
    ensures var batch := RowsAfter(t, mark, BATCH_LIMIT);
      && (fate.Delivers? && batch != [] ==> mark < batch[|batch| - 1] && PairOk(t, batch[|batch| - 1], log + batch))
      && (!fate.Delivers? ==> PairOk(t, mark, log + Arriving(batch, fate)))
  {
    var batch := RowsAfter(t, mark, BATCH_LIMIT);
    if fate.Delivers? {
      if batch != [] { AdvanceKeepsPair(t, mark, log); }
    } else {
      PartialKeepsPair(t, mark, log, |Arriving(batch, fate)|);
      assert Arriving(batch, fate) == Sent(batch, |Arriving(batch, fate)|);
    }
  }

  ghost predicate Targets(run: seq<Event>, tgt: Target)
  {
    forall i :: 0 <= i < |run| && run[i].Try? ==> Apart(tgt, run[i].tgt)
  }

  /** Over any run of inserts, attempts, failures, interruptions and restarts: what a target has
      received, in order of first arrival, is a prefix of the table, and it includes every row at or
      below its watermark. */
  lemma {:induction false} AtLeastOnceInOrder(run: seq<Event>, src: Source, tgt: Target)
    requires ValidRun(run) && Targets(run, tgt)
    ensures var st := After(run);
      && PairOk(st.Table(src), st.Watermark(src, tgt.key), st.Log(src, tgt))
      && forall c :: c in st.Table(src) && c <= st.Watermark(src, tgt.key) ==> c in st.Log(src, tgt)
    decreases |run|
  {
    var st := After(run);
    var t, mark, log := st.Table(src), st.Watermark(src, tgt.key), st.Log(src, tgt);
    if run == [] {
      assert PairOk([], 0, []);
    } else {
      AtLeastOnceInOrder(run[..|run| - 1], src, tgt);
      StepKeepsPair(After(run[..|run| - 1]), run[|run| - 1], src, tgt);
    }
    forall c | c in t && c <= mark ensures c in log { PassedRowArrived(t, mark, log, c); }
  }

  lemma PassedRowArrived(t: seq<nat>, mark: nat, log: seq<nat>, c: nat)
    requires PairOk(t, mark, log) && c in t && c <= mark
    ensures c in log
  {
    var i :| 0 <= i < |t| && t[i] == c;
    PassedSplits(t, mark, i);
    assert Firsts(log)[i] == c;
    FirstsMembers(log, c);
  }

  /** Each watermark only grows, and nothing a target has received is taken back. */
  lemma {:induction false} WatermarkOnlyGrows(run: seq<Event>, n: nat, src: Source, tgt: Target)
    requires n <= |run| && ValidRun(run) && Targets(run, tgt)
    ensures var st, st' := After(run[..n]), After(run);
      st.Watermark(src, tgt.key) <= st'.Watermark(src, tgt.key) && st.Log(src, tgt) <= st'.Log(src, tgt)
    decreases |run|
  {
    if n == |run| {
      assert run[..n] == run;
    } else {
      var init := run[..|run| - 1];
      WatermarkOnlyGrows(init, n, src, tgt);
      assert init[..n] == run[..n];
      AtLeastOnceInOrder(init, src, tgt);
      StepKeepsPair(After(init), run[|run| - 1], src, tgt);
    }
  }

  // ----- one target never disturbs another -----

  /** The two states look the same to `tgt`. */
  ghost predicate Same(a: State, b: State, tgt: Target)
  {
    && (forall src :: SamePair(a, b, src, tgt))
    && a.Failures(tgt) == b.Failures(tgt) && a.CooldownUntil(tgt) == b.CooldownUntil(tgt)
  }

  ghost predicate SamePair(a: State, b: State, src: Source, tgt: Target)
  {
    && a.Table(src) == b.Table(src) && a.Log(src, tgt) == b.Log(src, tgt)
    && a.Watermark(src, tgt.key) == b.Watermark(src, tgt.key)
  }

  lemma OthersDoNotMatter(st: State, e: Event, tgt: Target)
    requires e.Try? && e.tgt != tgt && Apart(tgt, e.tgt)
    ensures Same(st, Step(st, e), tgt)
  {
    TryRetry(st, e, tgt);
    forall src ensures SamePair(st, Step(st, e), src, tgt) { TryOther(st, e, src, tgt); }
  }

  lemma SameTryAlike(a: State, b: State, e: Event, src: Source, tgt: Target)
    requires Same(a, b, tgt) && e.Try? && e.tgt == tgt
    ensures SamePair(Step(a, e), Step(b, e), src, tgt)
  {
    assert SamePair(a, b, src, tgt);
    TryOther(a, e, src, tgt);
    TryOther(b, e, src, tgt);
    if src == e.src && !a.InCooldown(tgt, e.checkAt) { SameOwnAlike(a, b, e); }
  }

  lemma SameOwnAlike(a: State, b: State, e: Event)
    requires e.Try? && SamePair(a, b, e.src, e.tgt)
    requires !a.InCooldown(e.tgt, e.checkAt) && !b.InCooldown(e.tgt, e.checkAt)
    ensures Step(a, e).Log(e.src, e.tgt) == Step(b, e).Log(e.src, e.tgt)
    ensures Step(a, e).Watermark(e.src, e.tgt.key) == Step(b, e).Watermark(e.src, e.tgt.key)
  {
    TryOwn(a, e);
    TryOwn(b, e);
  }

  lemma SameRetryAlike(a: State, b: State, e: Event, tgt: Target)
    requires e.Try? && e.tgt == tgt && SamePair(a, b, e.src, tgt)
    requires a.Failures(tgt) == b.Failures(tgt) && a.CooldownUntil(tgt) == b.CooldownUntil(tgt)
    ensures Step(a, e).Failures(tgt) == Step(b, e).Failures(tgt)
    ensures Step(a, e).CooldownUntil(tgt) == Step(b, e).CooldownUntil(tgt)
  {
    TryRetry(a, e, tgt);
    TryRetry(b, e, tgt);
    assert Fails(a, e) == Fails(b, e) && Succeeds(a, e) == Succeeds(b, e);
  }

  lemma SameStepsAlike(a: State, b: State, e: Event, tgt: Target)
    requires Same(a, b, tgt) && (e.Try? ==> e.tgt == tgt)
    ensures Same(Step(a, e), Step(b, e), tgt)
  {
    if e.Try? {
      SameRetryAlike(a, b, e, tgt);
      forall src ensures SamePair(Step(a, e), Step(b, e), src, tgt) { SameTryAlike(a, b, e, src, tgt); }
    } else {
      forall src ensures SamePair(Step(a, e), Step(b, e), src, tgt) {
        assert SamePair(a, b, src, tgt) && (e.Insert? ==> SamePair(a, b, e.src, tgt));
        SameInsertAlike(a, b, e, src, tgt);
      }
    }
  }

  lemma SameInsertAlike(a: State, b: State, e: Event, src: Source, tgt: Target)
    requires !e.Try? && SamePair(a, b, src, tgt) && (e.Insert? ==> SamePair(a, b, e.src, tgt))
    ensures SamePair(Step(a, e), Step(b, e), src, tgt)
  {
  }

  /** States that look the same to `tgt` go on looking the same. */
  lemma SameTrans(a: State, b: State, c: State, tgt: Target)
    requires Same(a, b, tgt) && Same(b, c, tgt)
    ensures Same(a, c, tgt)
  {
    forall src ensures SamePair(a, c, src, tgt) {
      assert SamePair(a, b, src, tgt) && SamePair(b, c, src, tgt);
    }
  }

  lemma SameSym(a: State, b: State, tgt: Target)
    requires Same(a, b, tgt)
    ensures Same(b, a, tgt)
  {
    forall src ensures SamePair(b, a, src, tgt) { assert SamePair(a, b, src, tgt); }
  }

  /** The run as it concerns one target: attempts on the others are left out. */
  function Only(run: seq<Event>, tgt: Target): seq<Event>
  {
    if run == [] then []
    else
      var e := run[|run| - 1];
      Only(run[..|run| - 1], tgt) + if e.Try? && e.tgt != tgt then [] else [e]
  }

  /** Whatever happens to other targets, a target ends up as if it were the only one: the same
      deliveries, watermarks, failure count and cooldown. */
  lemma {:induction false} TargetsAreIndependent(run: seq<Event>, tgt: Target)
    requires Targets(run, tgt)
    ensures Same(After(run), After(Only(run, tgt)), tgt)
    decreases |run|
  {
    if run != [] {
      var init, e := run[..|run| - 1], run[|run| - 1];
      var alone := Only(init, tgt);
      TargetsAreIndependent(init, tgt);
      if e.Try? && e.tgt != tgt {
        assert Only(run, tgt) == alone;
        OthersDoNotMatter(After(init), e, tgt);
        SameSym(After(init), After(run), tgt);
        SameTrans(After(run), After(init), After(alone), tgt);
      } else {
        assert (alone + [e])[..|alone|] == alone;
        SameStepsAlike(After(init), After(alone), e, tgt);
      }
    }
  }

  // ----- backoff over a run -----

  /** Failures of `tgt` since it last accepted a batch or the process restarted. */
  function Consecutive(run: seq<Event>, tgt: Target): nat
  {
    if run == [] then 0
    else
      var init, e := run[..|run| - 1], run[|run| - 1];
      var st := After(init);
      if e.Restart? then 0
      else if !e.Try? || e.tgt != tgt then Consecutive(init, tgt)
      else if Fails(st, e) then Consecutive(init, tgt) + 1
      else if Succeeds(st, e) then 0
      else Consecutive(init, tgt)
  }

  lemma {:induction false} FailuresAreConsecutive(run: seq<Event>, tgt: Target)
    requires Targets(run, tgt)
    ensures After(run).Failures(tgt) == Consecutive(run, tgt)
    decreases |run|
  {
    if run != [] {
      var e := run[|run| - 1];
      FailuresAreConsecutive(run[..|run| - 1], tgt);
      if e.Try? { TryRetry(After(run[..|run| - 1]), e, tgt); }
    }
  }

  /** The k-th failure in a row, k at most 1024, sets a cooldown of min(300, 5 * 2^(k-1)) seconds. */
  lemma BackoffAfterFailure(run: seq<Event>)
    requires run != [] && Fails(After(run[..|run| - 1]), run[|run| - 1])
    requires Targets(run, run[|run| - 1].tgt) && Consecutive(run, run[|run| - 1].tgt) <= MAX_FAILURES
    ensures var e, k := run[|run| - 1], Consecutive(run, run[|run| - 1].tgt);
      && k >= 1
      && After(run).CooldownUntil(e.tgt) == e.failAt + Backoff(k)
      && (k <= 6 ==> Backoff(k) == 5.0 * Pow2(k - 1) as real)
      && (k > 6 ==> Backoff(k) == 300.0)
  {
    var init, e := run[..|run| - 1], run[|run| - 1];
    FailuresAreConsecutive(init, e.tgt);
    FailureCools(After(init), e);
    BackoffValue(Consecutive(run, e.tgt));
  }

  lemma FailureCools(st: State, e: Event)
    requires Fails(st, e) && st.Failures(e.tgt) < MAX_FAILURES
    ensures Step(st, e).CooldownUntil(e.tgt) == e.failAt + Backoff(st.Failures(e.tgt) + 1)
  {
    TryRetry(st, e, e.tgt);
  }

  lemma BackoffValue(k: nat)
    requires k >= 1
    ensures k <= 6 ==> Backoff(k) == 5.0 * Pow2(k - 1) as real
    ensures k > 6 ==> Backoff(k) == 300.0
  {
    assert Pow2(6) == 64 && Pow2(5) == 32 by {
      assert Pow2(2) == 4 && Pow2(4) == 4 * Pow2(2) && Pow2(6) == 4 * Pow2(4) && Pow2(5) == 2 * Pow2(4);
    }
    if k > 6 { PowMonotone(6, k - 1); } else { PowMonotone(k - 1, 5); }
  }

  lemma {:induction false} PowMonotone(a: nat, b: nat)
    requires a <= b
    ensures Pow2(a) <= Pow2(b)
  {
    if a < b { PowMonotone(a, b - 1); }
  }

  // ----- draining a backlog -----

  function PendingRows(t: seq<nat>, mark: nat): nat { |t| - Passed(t, mark) }

  function Pending(st: State, src: Source, tgt: Target): nat { PendingRows(st.Table(src), st.Watermark(src, tgt.key)) }

  /** The watermark after one accepted batch. */
  function NextMark(t: seq<nat>, mark: nat): nat
  {
    var batch := RowsAfter(t, mark, BATCH_LIMIT);
    if batch == [] then mark else batch[|batch| - 1]
  }

  lemma BatchShrinksPending(t: seq<nat>, mark: nat)
    requires Increasing(t)
    ensures var n := PendingRows(t, mark);
      PendingRows(t, NextMark(t, mark)) == if n <= 500 then 0 else n - 500
  {
    var w, batch := Passed(t, mark), RowsAfter(t, mark, BATCH_LIMIT);
    var m := BatchIsSlice(t, mark, BATCH_LIMIT);
    if batch != [] {
      assert batch[|batch| - 1] == t[m - 1];
      PassedBound(t, t[m - 1], m);
      PassedSplits(t, t[m - 1], m - 1);
    }
  }
}
