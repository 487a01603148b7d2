/** Whole sweeps of the audit forwarder: every active target, every source in order. */
module AuditSweep {
  import opened Common
  import opened AuditForward

  /** The clock readings and the outcome of one attempt. */
  datatype Attempt = Attempt(checkAt: real, fate: Fate, failAt: real)

  type Oracle = (Source, Target) -> Attempt

  type Pair = (Source, Target)

  function EventOf(p: Pair, o: Oracle): Event
  {
    var a := o(p.0, p.1);
    Try(p.0, p.1, a.checkAt, a.fate, a.failAt)
  }

  /** Recording this failure raises, which ends the sweep. */
  predicate Overflows(st: State, e: Event)
  {
    Fails(st, e) && st.Failures(e.tgt) >= MAX_FAILURES
  }

  /** The attempt is cut off by a cancellation or a crash, which ends the sweep. */
  predicate CutOff(st: State, e: Event)
  {
    e.Try? && !st.InCooldown(e.tgt, e.checkAt) && e.fate.Interrupted? && Batch(st, e.src, e.tgt) != []
  }

  predicate Stops(st: State, e: Event) { Overflows(st, e) || CutOff(st, e) }

  datatype Swept = Swept(st: State, stopped: bool)

  function SweepPairs(st: State, pairs: seq<Pair>, o: Oracle): Swept
    decreases |pairs|
  {
    if pairs == [] then Swept(st, false)
    else
      var e := EventOf(pairs[0], o);
      if Stops(st, e) then Swept(Step(st, e), true)
      else SweepPairs(Step(st, e), pairs[1..], o)
  }

  function PairsFor(src: Source, targets: seq<Target>): seq<Pair>
  {
    if targets == [] then [] else [(src, targets[0])] + PairsFor(src, targets[1..])
  }

  function AllPairs(sources: seq<Source>, targets: seq<Target>): seq<Pair>
  {
    if sources == [] then [] else PairsFor(sources[0], targets) + AllPairs(sources[1..], targets)
  }

  /** active_targets: the configured targets out of cooldown, in order. */
  function Active(st: State, targets: seq<Target>, now: real): seq<Target>
  {
    if targets == [] then []
    else (if st.InCooldown(targets[0], now) then [] else [targets[0]]) + Active(st, targets[1..], now)
  }

  /** AuditForwarder.sweep. */
  function Sweep(st: State, targets: seq<Target>, now: real, o: Oracle): Swept
  {
    SweepPairs(st, AllPairs(SOURCE_ORDER, Active(st, targets, now)), o)
  }

  lemma {:induction false} SweepSplits(st: State, ps: seq<Pair>, qs: seq<Pair>, o: Oracle)
    ensures var first := SweepPairs(st, ps, o);
      SweepPairs(st, ps + qs, o) == if first.stopped then first else SweepPairs(first.st, qs, o)
    decreases |ps|
  {
    if ps == [] {
      assert ps + qs == qs;
    } else {
      assert (ps + qs)[1..] == ps[1..] + qs;
      SweepSplits(Step(st, EventOf(ps[0], o)), ps[1..], qs, o);
    }
  }

  /** The attempts a sweep makes, in order, up to where it stops. */
  function SweepEvents(st: State, pairs: seq<Pair>, o: Oracle): seq<Event>
    decreases |pairs|
  {
    if pairs == [] then []
    else
      var e := EventOf(pairs[0], o);
      [e] + if Stops(st, e) then [] else SweepEvents(Step(st, e), pairs[1..], o)
  }

  lemma AfterSnoc(run: seq<Event>, e: Event)
    ensures After(run + [e]) == Step(After(run), e)
  {
    assert (run + [e])[..|run|] == run;
  }

  /** A sweep is a stretch of a run, so what holds over every run holds after every sweep. */
  lemma {:induction false} SweepIsRun(run: seq<Event>, pairs: seq<Pair>, o: Oracle)
    ensures After(run + SweepEvents(After(run), pairs, o)) == SweepPairs(After(run), pairs, o).st
    decreases |pairs|
  {
    if pairs == [] {
      assert run + [] == run;
    } else {
      var e := EventOf(pairs[0], o);
      var rest := if Stops(After(run), e) then [] else SweepEvents(Step(After(run), e), pairs[1..], o);
      AfterSnoc(run, e);
      Associate(run, [e], rest);
      if Stops(After(run), e) {
        assert (run + [e]) + [] == run + [e];
      } else {
        SweepIsRun(run + [e], pairs[1..], o);
      }
    }
  }

  // ----- the object -----

  class Forwarder {
    var tables: map<Source, seq<nat>>
    var watermarks: map<(Source, Name), nat>
    var logs: map<(Source, Name), seq<nat>>
    var failures: map<Name, nat>
    var cooldowns: map<Name, real>

    function View(): State
      reads this
    {
      State(tables, watermarks, logs, failures, cooldowns)
    }

    constructor ()
      ensures View() == EMPTY
    {
      tables, watermarks, logs, failures, cooldowns := map[], map[], map[], map[], map[];
    }

    /** forward_target: `raised` where it raises, `cut` where it does not return. */
    method ForwardTarget(src: Source, tgt: Target, fate: Fate) returns (raised: bool, cut: bool)
      modifies this
      ensures View() == Forwarded(old(View()), src, tgt, fate)
      ensures raised == RaisesOn(Batch(old(View()), src, tgt), fate)
      ensures cut == (fate.Interrupted? && Batch(old(View()), src, tgt) != [])
    {
      if fate.ReadFails? {
        return true, false;
      }
      var cursor := View().Watermark(src, tgt.key);
      var rows := RowsAfter(View().Table(src), cursor, BATCH_LIMIT);
      if rows == [] {
        return false, false;
      }
      logs := logs[(src, tgt.address) := View().Log(src, tgt) + Arriving(rows, fate)];
      if !fate.Delivers? {
        return fate.DeliveryFails?, fate.Interrupted?;
      }
      watermarks := watermarks[(src, tgt.key) := rows[|rows| - 1]];
      failures := failures - {tgt.address};
      return false, false;
    }

    /** record_failure: `overflow` where computing the delay raises. */
    method RecordFailure(tgt: Target, now: real) returns (overflow: bool)
      modifies this
      ensures View() == FailureRecorded(old(View()), tgt, now)
      ensures overflow == (old(View().Failures(tgt)) >= MAX_FAILURES)
    {
      var k := View().Failures(tgt) + 1;
      failures := failures[tgt.address := k];
      if k > MAX_FAILURES {
        return true;
      }
      cooldowns := cooldowns[tgt.address := now + Backoff(k)];
      return false;
    }

    /** forward_source: one source to every active target. */
    method ForwardSource(src: Source, targets: seq<Target>, o: Oracle) returns (stopped: bool)
      modifies this
      ensures Swept(View(), stopped) == SweepPairs(old(View()), PairsFor(src, targets), o)
    {
      ghost var all := SweepPairs(View(), PairsFor(src, targets), o);
      for i := 0 to |targets|
        invariant all == SweepPairs(View(), PairsFor(src, targets[i..]), o)
      {
        var tgt := targets[i];
        assert targets[i..][1..] == targets[i + 1..];
        assert PairsFor(src, targets[i..])[1..] == PairsFor(src, targets[i + 1..]);
        ghost var before, e := View(), EventOf((src, tgt), o);
        if !View().InCooldown(tgt, o(src, tgt).checkAt) {
          var raised, cut := ForwardTarget(src, tgt, o(src, tgt).fate);
          ghost var forwarded := View();
          if raised {
            TryRetry(before, e, tgt);
            var overflow := RecordFailure(tgt, o(src, tgt).failAt);
            assert forwarded.Failures(tgt) == before.Failures(tgt);
            if overflow {
              return true;
            }
          }
          if cut {
            return true;
          }
        }
        assert View() == Step(before, e);
      }
      return false;
    }

    /** sweep with forward_all: an exception out of the loops is caught, and the sweep is over. */
    method RunSweep(targets: seq<Target>, now: real, o: Oracle) returns (stopped: bool)
      modifies this
      ensures Swept(View(), stopped) == Sweep(old(View()), targets, now, o)
    {
      var active := Active(View(), targets, now);
      ghost var all := Sweep(View(), targets, now, o);
      stopped := false;
      for i := 0 to |SOURCE_ORDER|
        invariant !stopped && all == SweepPairs(View(), AllPairs(SOURCE_ORDER[i..], active), o)
      {
        assert SOURCE_ORDER[i..][1..] == SOURCE_ORDER[i + 1..];
        SweepSplits(View(), PairsFor(SOURCE_ORDER[i], active), AllPairs(SOURCE_ORDER[i + 1..], active), o);
        stopped := ForwardSource(SOURCE_ORDER[i], active, o);
        if stopped {
          return;
        }
      }
    }
  }

  // ----- a sweep treats every target as if it were alone -----

  function OnlyFor(pairs: seq<Pair>, tgt: Target): seq<Pair>
  {
    if pairs == [] then []
    else (if pairs[0].1 == tgt then [pairs[0]] else []) + OnlyFor(pairs[1..], tgt)
  }

  lemma {:induction false} OnlyForSplits(ps: seq<Pair>, qs: seq<Pair>, tgt: Target)
    ensures OnlyFor(ps + qs, tgt) == OnlyFor(ps, tgt) + OnlyFor(qs, tgt)
    decreases |ps|
  {
    if ps == [] {
      assert ps + qs == qs;
    } else {
      assert (ps + qs)[1..] == ps[1..] + qs;
      OnlyForSplits(ps[1..], qs, tgt);
    }
  }

  lemma SameStops(a: State, b: State, e: Event, tgt: Target)
    requires Same(a, b, tgt) && e.Try? && e.tgt == tgt
    ensures Stops(a, e) == Stops(b, e)
  {
    assert SamePair(a, b, e.src, tgt);
  }

  /** The attempts on other targets can be left out of a sweep that runs to its end. */
  lemma {:induction false} SweepRestricts(a: State, b: State, pairs: seq<Pair>, o: Oracle, o': Oracle, tgt: Target)
    requires Same(a, b, tgt)
    requires forall src :: o(src, tgt) == o'(src, tgt)
    requires forall i :: 0 <= i < |pairs| ==> Apart(tgt, pairs[i].1)
    requires !SweepPairs(a, pairs, o).stopped
    ensures var alone := SweepPairs(b, OnlyFor(pairs, tgt), o');
      !alone.stopped && Same(SweepPairs(a, pairs, o).st, alone.st, tgt)
    decreases |pairs|
  {
    if pairs != [] {
      var e := EventOf(pairs[0], o);
      if pairs[0].1 == tgt {
        assert e == EventOf(pairs[0], o');
        SameStops(a, b, e, tgt);
        SameStepsAlike(a, b, e, tgt);
        SweepRestricts(Step(a, e), Step(b, e), pairs[1..], o, o', tgt);
        assert OnlyFor(pairs, tgt)[1..] == OnlyFor(pairs[1..], tgt);
      } else {
        OthersDoNotMatter(a, e, tgt);
        SameSym(a, Step(a, e), tgt);
        SameTrans(Step(a, e), a, b, tgt);
        SweepRestricts(Step(a, e), b, pairs[1..], o, o', tgt);
        assert OnlyFor(pairs, tgt) == OnlyFor(pairs[1..], tgt);
      }
    }
  }

  ghost predicate Distinct(targets: seq<Target>) { forall i, j :: 0 <= i < j < |targets| ==> targets[i] != targets[j] }

  lemma {:induction false} OnlyForSource(src: Source, targets: seq<Target>, tgt: Target)
    requires Distinct(targets)
    ensures OnlyFor(PairsFor(src, targets), tgt) == if tgt in targets then [(src, tgt)] else []
    decreases |targets|
  {
    if targets != [] {
      OnlyForSource(src, targets[1..], tgt);
      assert PairsFor(src, targets)[1..] == PairsFor(src, targets[1..]);
      assert tgt in targets <==> tgt == targets[0] || tgt in targets[1..];
    }
  }

  function Each(sources: seq<Source>, tgt: Target): seq<Pair>
  {
    if sources == [] then [] else [(sources[0], tgt)] + Each(sources[1..], tgt)
  }

  lemma {:induction false} OnlyForAll(sources: seq<Source>, targets: seq<Target>, tgt: Target)
    requires Distinct(targets)
    ensures OnlyFor(AllPairs(sources, targets), tgt) == if tgt in targets then Each(sources, tgt) else []
    decreases |sources|
  {
    if sources != [] {
      OnlyForAll(sources[1..], targets, tgt);
      OnlyForSource(sources[0], targets, tgt);
      OnlyForSplits(PairsFor(sources[0], targets), AllPairs(sources[1..], targets), tgt);
    }
  }

  lemma {:induction false} ActiveMembers(st: State, targets: seq<Target>, now: real)
    requires Distinct(targets)
    ensures Distinct(Active(st, targets, now))
    ensures forall t :: t in Active(st, targets, now) <==> t in targets && !st.InCooldown(t, now)
    decreases |targets|
  {
    if targets != [] {
      ActiveMembers(st, targets[1..], now);
      assert forall t :: t in targets <==> t == targets[0] || t in targets[1..];
      var rest := Active(st, targets[1..], now);
      assert targets[0] !in rest;
    }
  }

  /** The active targets keep their configured order. */
  lemma {:induction false} ActiveInOrder(st: State, targets: seq<Target>, now: real, i: nat, j: nat) returns (i': nat, j': nat)
    requires i < j < |Active(st, targets, now)|
    ensures i' < j' < |targets| && targets[i'] == Active(st, targets, now)[i] && targets[j'] == Active(st, targets, now)[j]
    decreases |targets|
  {
    var rest := Active(st, targets[1..], now);
    if st.InCooldown(targets[0], now) {
      i', j' := ActiveInOrder(st, targets[1..], now, i, j);
      i', j' := i' + 1, j' + 1;
    } else if i > 0 {
      i', j' := ActiveInOrder(st, targets[1..], now, i - 1, j - 1);
      i', j' := i' + 1, j' + 1;
    } else {
      i' := 0;
      j' := ActiveFrom(st, targets[1..], now, j - 1);
      j' := j' + 1;
    }
  }

  lemma {:induction false} ActiveFrom(st: State, targets: seq<Target>, now: real, j: nat) returns (j': nat)
    requires j < |Active(st, targets, now)|
    ensures j' < |targets| && targets[j'] == Active(st, targets, now)[j]
    decreases |targets|
  {
    if st.InCooldown(targets[0], now) {
      j' := ActiveFrom(st, targets[1..], now, j);
      j' := j' + 1;
    } else if j == 0 {
      j' := 0;
    } else {
      j' := ActiveFrom(st, targets[1..], now, j - 1);
      j' := j' + 1;
    }
  }

  lemma {:induction false} PairsForAt(src: Source, targets: seq<Target>, j: nat)
    requires j <= |targets|
    ensures |PairsFor(src, targets)| == |targets| && (j < |targets| ==> PairsFor(src, targets)[j] == (src, targets[j]))
    decreases |targets|
  {
    if targets != [] { PairsForAt(src, targets[1..], if j > 0 then j - 1 else 0); }
  }

  /** A sweep takes the sources one after another, and each over all targets in order. */
  lemma {:induction false} AllPairsInOrder(sources: seq<Source>, targets: seq<Target>, i: nat, j: nat, before: nat)
    requires i < |sources| && j < |targets| && before == i * |targets|
    ensures before + j < |AllPairs(sources, targets)| && AllPairs(sources, targets)[before + j] == (sources[i], targets[j])
    decreases |sources|
  {
    PairsForAt(sources[0], targets, j);
    if i > 0 {
      assert before - |targets| == (i - 1) * |targets|;
      AllPairsInOrder(sources[1..], targets, i - 1, j, before - |targets|);
    }
  }

  lemma {:induction false} AllPairsMembers(sources: seq<Source>, targets: seq<Target>, i: nat)
    requires i < |AllPairs(sources, targets)|
    ensures AllPairs(sources, targets)[i].1 in targets
    decreases |sources|
  {
    var first := PairsFor(sources[0], targets);
    if i < |first| {
      PairsForMembers(sources[0], targets, i);
    } else {
      AllPairsMembers(sources[1..], targets, i - |first|);
    }
  }

  lemma {:induction false} PairsForMembers(src: Source, targets: seq<Target>, i: nat)
    requires i < |PairsFor(src, targets)|
    ensures PairsFor(src, targets)[i].1 in targets
    decreases |targets|
  {
    if i > 0 { PairsForMembers(src, targets[1..], i - 1); }
  }

  /** Two sweeps that run to their end and give a target the same clock readings and outcomes leave
      it the same, whatever they do to the other targets and whichever of those are cooling down. */
  lemma SweepsAreIndependent(a: State, b: State, targets: seq<Target>, now: real, o: Oracle, o': Oracle, tgt: Target)
    requires Distinct(targets) && (forall t :: t in targets ==> Apart(tgt, t))
    requires Same(a, b, tgt) && (forall src :: o(src, tgt) == o'(src, tgt))
    requires !Sweep(a, targets, now, o).stopped && !Sweep(b, targets, now, o').stopped
    ensures Same(Sweep(a, targets, now, o).st, Sweep(b, targets, now, o').st, tgt)
  {
    SweepIsAlone(a, a, targets, now, o, o, tgt);
    SweepIsAlone(b, a, targets, now, o', o, tgt) by { SameSym(a, b, tgt); }
    var alone := SweepPairs(a, if tgt in Active(a, targets, now) then Each(SOURCE_ORDER, tgt) else [], o).st;
    SameSym(Sweep(b, targets, now, o').st, alone, tgt);
    SameTrans(Sweep(a, targets, now, o).st, alone, Sweep(b, targets, now, o').st, tgt);
  }

  /** A sweep of many targets does to `tgt` what attempts on `tgt` alone would do. */
  lemma SweepIsAlone(a: State, b: State, targets: seq<Target>, now: real, o: Oracle, o': Oracle, tgt: Target)
    requires Distinct(targets) && (forall t :: t in targets ==> Apart(tgt, t))
    requires Same(a, b, tgt) && (forall src :: o(src, tgt) == o'(src, tgt))
    requires !Sweep(a, targets, now, o).stopped
    ensures var mine := if tgt in Active(b, targets, now) then Each(SOURCE_ORDER, tgt) else [];
      Same(Sweep(a, targets, now, o).st, SweepPairs(b, mine, o').st, tgt)
  {
    var active := Active(a, targets, now);
    ActiveMembers(a, targets, now);
    ActiveMembers(b, targets, now);
    OnlyForAll(SOURCE_ORDER, active, tgt);
    var pairs := AllPairs(SOURCE_ORDER, active);
    forall i | 0 <= i < |pairs| ensures Apart(tgt, pairs[i].1) {
      AllPairsMembers(SOURCE_ORDER, active, i);
    }
    SweepRestricts(a, b, pairs, o, o', tgt);
  }

  // ----- exactly when a sweep stops -----

  ghost predicate PairwiseApart(targets: seq<Target>) { forall t, u :: t in targets && u in targets ==> Apart(t, u) }

  ghost predicate PairsApart(pairs: seq<Pair>)
  {
    forall i, j :: 0 <= i < |pairs| && 0 <= j < |pairs| ==> Apart(pairs[i].1, pairs[j].1)
  }

  /** A sweep that stops does so at some pair, with the pairs before it served. */
  lemma {:induction false} StopSplits(st: State, pairs: seq<Pair>, o: Oracle) returns (n: nat)
    requires SweepPairs(st, pairs, o).stopped
    ensures n < |pairs|
    ensures var before := SweepPairs(st, pairs[..n], o);
      !before.stopped && Stops(before.st, EventOf(pairs[n], o))
    decreases |pairs|
  {
    var e := EventOf(pairs[0], o);
    if Stops(st, e) {
      n := 0;
    } else {
      var m := StopSplits(Step(st, e), pairs[1..], o);
      n := m + 1;
      assert pairs[..n] == [pairs[0]] + pairs[1..][..m];
    }
  }

  lemma SweepOne(st: State, p: Pair, o: Oracle)
    ensures SweepPairs(st, [p], o).stopped == Stops(st, EventOf(p, o))
  {
  }

  /** Who stops a sweep would stop it alone. */
  lemma StopIsOwn(st: State, pairs: seq<Pair>, o: Oracle) returns (n: nat)
    requires PairsApart(pairs) && SweepPairs(st, pairs, o).stopped
    ensures n < |pairs| && SweepPairs(st, OnlyFor(pairs, pairs[n].1), o).stopped
  {
    n := StopSplits(st, pairs, o);
    var ps, p, tgt := pairs[..n], pairs[n], pairs[n].1;
    SweepRestricts(st, st, ps, o, o, tgt);
    var alone := SweepPairs(st, OnlyFor(ps, tgt), o).st;
    SameStops(SweepPairs(st, ps, o).st, alone, EventOf(p, o), tgt);
    SweepOne(alone, p, o);
    SweepSplits(st, OnlyFor(ps, tgt), [p], o);
    SweepSplits(st, OnlyFor(ps, tgt) + [p], OnlyFor(pairs[n + 1..], tgt), o);
    OnlyForAround(ps, p, pairs[n + 1..]);
    assert pairs == ps + [p] + pairs[n + 1..];
  }

  lemma OnlyForAround(ps: seq<Pair>, p: Pair, qs: seq<Pair>)
    ensures OnlyFor(ps + [p] + qs, p.1) == OnlyFor(ps, p.1) + [p] + OnlyFor(qs, p.1)
  {
    OnlyForSplits(ps + [p], qs, p.1);
    OnlyForSplits(ps, [p], p.1);
    OnlyForOne(p);
  }

  lemma OnlyForOne(p: Pair)
    ensures OnlyFor([p], p.1) == [p]
  {
  }

  /** The pairs a sweep goes through are apart, and each target's own are one per source. */
  lemma SweepPairsOf(st: State, targets: seq<Target>, now: real, n: nat)
    requires Distinct(targets) && PairwiseApart(targets)
    ensures var pairs := AllPairs(SOURCE_ORDER, Active(st, targets, now));
      && PairsApart(pairs)
      && (n < |pairs| ==> pairs[n].1 in Active(st, targets, now) && OnlyFor(pairs, pairs[n].1) == Each(SOURCE_ORDER, pairs[n].1))
  {
    var active := Active(st, targets, now);
    var pairs := AllPairs(SOURCE_ORDER, active);
    ActiveMembers(st, targets, now);
    forall i, j | 0 <= i < |pairs| && 0 <= j < |pairs| ensures Apart(pairs[i].1, pairs[j].1) {
      AllPairsMembers(SOURCE_ORDER, active, i);
      AllPairsMembers(SOURCE_ORDER, active, j);
    }
    if n < |pairs| {
      AllPairsMembers(SOURCE_ORDER, active, n);
      OnlyForAll(SOURCE_ORDER, active, pairs[n].1);
    }
  }

  /** The attempts on `tgt` alone would end a sweep. */
  predicate StopsAlone(st: State, tgt: Target, o: Oracle) { SweepPairs(st, Each(SOURCE_ORDER, tgt), o).stopped }

  /** A sweep stops exactly when the attempts on some active target, taken alone, would stop it. */
  lemma SweepStopsExactly(st: State, targets: seq<Target>, now: real, o: Oracle)
    requires Distinct(targets) && PairwiseApart(targets)
    ensures Sweep(st, targets, now, o).stopped <==> exists t :: t in Active(st, targets, now) && StopsAlone(st, t, o)
  {
    var active := Active(st, targets, now);
    var pairs := AllPairs(SOURCE_ORDER, active);
    ActiveMembers(st, targets, now);
    if Sweep(st, targets, now, o).stopped {
      SweepPairsOf(st, targets, now, 0);
      var n := StopIsOwn(st, pairs, o);
      SweepPairsOf(st, targets, now, n);
      assert StopsAlone(st, pairs[n].1, o);
    } else {
      forall t | t in active ensures !StopsAlone(st, t, o) { NotStoppedAlone(st, targets, now, o, t); }
    }
  }

  lemma NotStoppedAlone(st: State, targets: seq<Target>, now: real, o: Oracle, t: Target)
    requires Distinct(targets) && PairwiseApart(targets) && t in Active(st, targets, now)
    requires !Sweep(st, targets, now, o).stopped
    ensures !StopsAlone(st, t, o)
  {
    var active := Active(st, targets, now);
    var pairs := AllPairs(SOURCE_ORDER, active);
    ActiveMembers(st, targets, now);
    forall i | 0 <= i < |pairs| ensures Apart(t, pairs[i].1) { AllPairsMembers(SOURCE_ORDER, active, i); }
    OnlyForAll(SOURCE_ORDER, active, t);
    SweepRestricts(st, st, pairs, o, o, t);
  }

  // ----- in terms of failure counts -----

  /** No attempt on the target is cut off. */
  ghost predicate Uninterrupted(tgt: Target, o: Oracle) { forall src :: !o(src, tgt).fate.Interrupted? }

  /** The first attempt on `tgt` that has an outcome is a failure. */
  predicate FailsFirst(st: State, sources: seq<Source>, tgt: Target, o: Oracle)
    decreases |sources|
  {
    sources != [] &&
    var e := EventOf((sources[0], tgt), o);
    Fails(st, e) || (!Succeeds(st, e) && FailsFirst(st, sources[1..], tgt, o))
  }

  /** After a failure of `tgt`, its later checks in the sweep fall into the cooldown just set. */
  ghost predicate Prompt(st: State, sources: seq<Source>, tgt: Target, o: Oracle)
  {
    forall i, j :: 0 <= i < j < |sources| ==>
      o(sources[j], tgt).checkAt < o(sources[i], tgt).failAt + Backoff(st.Failures(tgt) + 1)
  }

  /** A target in cooldown at every check is left alone. */
  lemma {:induction false} CoolingIsSkipped(st: State, sources: seq<Source>, tgt: Target, o: Oracle)
    requires forall i :: 0 <= i < |sources| ==> st.InCooldown(tgt, o(sources[i], tgt).checkAt)
    ensures SweepPairs(st, Each(sources, tgt), o) == Swept(st, false)
    decreases |sources|
  {
    if sources != [] {
      assert st.InCooldown(tgt, o(sources[0], tgt).checkAt);
      assert Each(sources, tgt)[1..] == Each(sources[1..], tgt);
      CoolingIsSkipped(st, sources[1..], tgt, o);
    }
  }

  /** `n` attempts on a target cannot overflow a count that has room for `n` more. */
  lemma {:induction false} RoomForAll(st: State, sources: seq<Source>, tgt: Target, o: Oracle)
    requires st.Failures(tgt) + |sources| <= MAX_FAILURES && Uninterrupted(tgt, o)
    ensures !SweepPairs(st, Each(sources, tgt), o).stopped
    decreases |sources|
  {
    if sources != [] {
      var e := EventOf((sources[0], tgt), o);
      TryRetry(st, e, tgt);
      assert Each(sources, tgt)[1..] == Each(sources[1..], tgt);
      RoomForAll(Step(st, e), sources[1..], tgt, o);
    }
  }

  /** An attempt without an outcome changes nothing. */
  lemma NoOutcomeNoChange(st: State, e: Event)
    requires e.Try? && !e.fate.Interrupted? && !Fails(st, e) && !Succeeds(st, e)
    ensures Step(st, e) == st && !Stops(st, e)
  {
  }

  /** Alone and prompt, a target stops a sweep exactly when it has 1024 failures and its first outcome
      is one more. */
  lemma {:induction false} AloneStopsExactly(st: State, sources: seq<Source>, tgt: Target, o: Oracle)
    requires Uninterrupted(tgt, o) && Prompt(st, sources, tgt, o) && |sources| <= MAX_FAILURES
    ensures SweepPairs(st, Each(sources, tgt), o).stopped
       <==> st.Failures(tgt) >= MAX_FAILURES && FailsFirst(st, sources, tgt, o)
    decreases |sources|
  {
    if sources != [] {
      var e, rest := EventOf((sources[0], tgt), o), sources[1..];
      assert Each(sources, tgt)[1..] == Each(rest, tgt);
      if Fails(st, e) {
        if st.Failures(tgt) < MAX_FAILURES {
          FailureCools(st, e);
          CoolingIsSkipped(Step(st, e), rest, tgt, o);
        }
      } else if Succeeds(st, e) {
        TryRetry(st, e, tgt);
        RoomForAll(Step(st, e), rest, tgt, o);
      } else {
        NoOutcomeNoChange(st, e);
        AloneStopsExactly(st, rest, tgt, o);
      }
    }
  }

  /** An uninterrupted sweep whose later checks of a target fall into the cooldown it was just given
      stops exactly when some active target has 1024 failures in a row and its first outcome in the
      sweep is another. */
  lemma PromptSweepStopsExactly(st: State, targets: seq<Target>, now: real, o: Oracle)
    requires Distinct(targets) && PairwiseApart(targets)
    requires forall t :: t in Active(st, targets, now) ==> Uninterrupted(t, o) && Prompt(st, SOURCE_ORDER, t, o)
    ensures Sweep(st, targets, now, o).stopped <==>
      exists t :: t in Active(st, targets, now) && st.Failures(t) >= MAX_FAILURES && FailsFirst(st, SOURCE_ORDER, t, o)
  {
    SweepStopsExactly(st, targets, now, o);
    forall t | t in Active(st, targets, now)
      ensures StopsAlone(st, t, o) <==> st.Failures(t) >= MAX_FAILURES && FailsFirst(st, SOURCE_ORDER, t, o)
    {
      AloneStopsExactly(st, SOURCE_ORDER, t, o);
    }
  }

  /** Whatever the timing, an uninterrupted sweep completes as long as no active target has more than
      1021 failures in a row. */
  lemma SweepReachesEveryTarget(st: State, targets: seq<Target>, now: real, o: Oracle)
    requires Distinct(targets) && PairwiseApart(targets)
    requires forall t :: t in Active(st, targets, now) ==> Uninterrupted(t, o) && st.Failures(t) <= MAX_FAILURES - 3
    ensures !Sweep(st, targets, now, o).stopped
  {
    SweepStopsExactly(st, targets, now, o);
    forall t | t in Active(st, targets, now) ensures !StopsAlone(st, t, o) { RoomForAll(st, SOURCE_ORDER, t, o); }
  }

  /** Checks so far apart that no cooldown covers the next one. */
  function SlowClock(start: real, src: Source): real
  {
    match src
    case AuditEvents => start
    case ContainerEvents => start + 300.0
    case EgressConsent => start + 600.0
  }

  /** Every read fails, slowly. */
  function SlowFailures(start: real): Oracle
  {
    (src: Source, _: Target) => Attempt(SlowClock(start, src), ReadFails, SlowClock(start, src))
  }

  /** 1021 is the largest safe count: any active target with more can stop an uninterrupted sweep. */
  lemma MoreIsUnsafe(st: State, targets: seq<Target>, now: real, t: Target) returns (o: Oracle)
    requires Distinct(targets) && PairwiseApart(targets)
    requires t in Active(st, targets, now) && st.Failures(t) > MAX_FAILURES - 3
    ensures (forall u :: u in targets ==> Uninterrupted(u, o)) && Sweep(st, targets, now, o).stopped
  {
    var start := if now >= st.CooldownUntil(t) then now else st.CooldownUntil(t);
    o := SlowFailures(start);
    SweepStopsExactly(st, targets, now, o);
    SlowStops(st, SOURCE_ORDER, t, o);
    assert StopsAlone(st, t, o);
  }

  /** A failing read on a target out of cooldown: one more failure, and at most 300 seconds of rest. */
  lemma ReadFailureCounts(st: State, e: Event)
    requires e.Try? && e.fate.ReadFails? && st.CooldownUntil(e.tgt) <= e.checkAt
    ensures Fails(st, e) && Step(st, e).Failures(e.tgt) == st.Failures(e.tgt) + 1
    ensures Step(st, e).CooldownUntil(e.tgt)
         <= if st.CooldownUntil(e.tgt) >= e.failAt + 300.0 then st.CooldownUntil(e.tgt) else e.failAt + 300.0
    ensures st.Failures(e.tgt) < MAX_FAILURES ==> Step(st, e).CooldownUntil(e.tgt) <= e.failAt + 300.0
  {
    TryRetry(st, e, e.tgt);
  }

  /** Each check of `tgt` comes 300 seconds or more after the failures before it. */
  ghost predicate Slow(sources: seq<Source>, tgt: Target, o: Oracle)
  {
    forall i, j :: 0 <= i < j < |sources| ==> o(sources[i], tgt).failAt + 300.0 <= o(sources[j], tgt).checkAt
  }

  /** Slow failing reads stop a sweep once there is no room for all of them. */
  lemma {:induction false} SlowStops(st: State, sources: seq<Source>, tgt: Target, o: Oracle)
    requires Slow(sources, tgt, o) && st.Failures(tgt) + |sources| > MAX_FAILURES && sources != []
    requires forall i :: 0 <= i < |sources| ==>
      st.CooldownUntil(tgt) <= o(sources[i], tgt).checkAt && o(sources[i], tgt).fate.ReadFails?
    ensures SweepPairs(st, Each(sources, tgt), o).stopped
    decreases |sources|
  {
    var e, rest := EventOf((sources[0], tgt), o), sources[1..];
    assert st.CooldownUntil(tgt) <= o(sources[0], tgt).checkAt;
    ReadFailureCounts(st, e);
    if st.Failures(tgt) < MAX_FAILURES {
      assert Each(sources, tgt)[1..] == Each(rest, tgt);
      assert forall i :: 0 <= i < |rest| ==> rest[i] == sources[i + 1];
      SlowStops(Step(st, e), rest, tgt, o);
    }
  }

  // ----- and it does happen -----

  /** `n` reads that fail, one every 300 seconds. */
  function FailingRun(tgt: Target, n: nat): seq<Event>
  {
    if n == 0 then [] else FailingRun(tgt, n - 1) + [Try(AuditEvents, tgt, 300.0 * n as real, ReadFails, 300.0 * n as real)]
  }

  lemma {:induction false} FailingRunCounts(tgt: Target, n: nat)
    ensures var st := After(FailingRun(tgt, n));
      st.Failures(tgt) == n && st.CooldownUntil(tgt) <= 300.0 * (n + 1) as real
  {
    if n > 0 {
      FailingRunCounts(tgt, n - 1);
      var e := Try(AuditEvents, tgt, 300.0 * n as real, ReadFails, 300.0 * n as real);
      AfterSnoc(FailingRun(tgt, n - 1), e);
      ReadFailureCounts(After(FailingRun(tgt, n - 1)), e);
    }
  }

  /** Past 1024 failures in a row the delay of the first target raises, the sweep is over, the other
      targets get nothing, and the count and the old cooldown of the first one stay past it. */
  lemma OverflowStarvesOthers(st: State, tgt: Target, rest: seq<Target>, now: real, o: Oracle, other: Target)
    requires st.Failures(tgt) >= MAX_FAILURES && !st.InCooldown(tgt, now)
    requires Fails(st, EventOf((AuditEvents, tgt), o))
    requires other != tgt && Apart(other, tgt)
    ensures var swept := Sweep(st, [tgt] + rest, now, o);
      && swept.stopped && Same(st, swept.st, other)
      && swept.st.Failures(tgt) == st.Failures(tgt) + 1 && swept.st.CooldownUntil(tgt) == st.CooldownUntil(tgt)
  {
    var active := Active(st, [tgt] + rest, now);
    assert active[0] == tgt;
    var pairs := AllPairs(SOURCE_ORDER, active);
    assert pairs[0] == (AuditEvents, tgt);
    TryRetry(st, EventOf(pairs[0], o), tgt);
    OthersDoNotMatter(st, EventOf(pairs[0], o), other);
  }

  /** In this round the target's first read comes after `until` and fails. */
  predicate ReadsFail(round: Round, tgt: Target, until: real)
  {
    until <= round.now && until <= round.o(AuditEvents, tgt).checkAt && round.o(AuditEvents, tgt).fate.ReadFails?
  }

  /** Sweep `i` of the rounds stops. */
  predicate StopsInRound(st: State, targets: seq<Target>, rounds: seq<Round>, i: nat)
    requires i < |rounds|
  {
    Sweep(Sweeps(st, targets, rounds[..i]), targets, rounds[i].now, rounds[i].o).stopped
  }

  lemma SweepsSnoc(st: State, targets: seq<Target>, rounds: seq<Round>, last: Round)
    ensures Sweeps(st, targets, rounds + [last]) == Sweep(Sweeps(st, targets, rounds), targets, last.now, last.o).st
  {
    assert (rounds + [last])[..|rounds|] == rounds;
  }

  /** Once there, sweep after sweep stops at that target and serves nobody else. */
  lemma {:induction false} StarvationLasts(st: State, tgt: Target, rest: seq<Target>, rounds: seq<Round>, other: Target)
    requires st.Failures(tgt) >= MAX_FAILURES && other != tgt && Apart(other, tgt)
    requires forall i :: 0 <= i < |rounds| ==> ReadsFail(rounds[i], tgt, st.CooldownUntil(tgt))
    ensures var after := Sweeps(st, [tgt] + rest, rounds);
      Same(st, after, other) && after.Failures(tgt) >= MAX_FAILURES && after.CooldownUntil(tgt) == st.CooldownUntil(tgt)
    ensures forall i :: 0 <= i < |rounds| ==> StopsInRound(st, [tgt] + rest, rounds, i)
    decreases |rounds|
  {
    if rounds == [] {
      SameSelf(st, other);
    } else {
      var init, last := rounds[..|rounds| - 1], rounds[|rounds| - 1];
      StarvationLasts(st, tgt, rest, init, other);
      var before := Sweeps(st, [tgt] + rest, init);
      assert ReadsFail(last, tgt, st.CooldownUntil(tgt));
      OverflowStarvesOthers(before, tgt, rest, last.now, last.o, other);
      assert rounds == init + [last];
      SweepsSnoc(st, [tgt] + rest, init, last);
      SameTrans(st, before, Sweeps(st, [tgt] + rest, rounds), other);
      forall i | 0 <= i < |rounds| ensures StopsInRound(st, [tgt] + rest, rounds, i) {
        if i < |init| {
          assert StopsInRound(st, [tgt] + rest, init, i);
          assert init[..i] == rounds[..i];
        }
      }
    }
  }

  lemma SameSelf(st: State, tgt: Target)
    ensures Same(st, st, tgt)
  {
    assert forall src :: SamePair(st, st, src, tgt);
  }

  /** A run of failing reads gets there, and from then on every sweep in which the target's read fails
      stops and leaves every other target unserved. */
  lemma StarvationIsReached(tgt: Target, rest: seq<Target>, rounds: seq<Round>, other: Target)
    requires other != tgt && Apart(other, tgt)
    requires forall i :: 0 <= i < |rounds| ==> ReadsFail(rounds[i], tgt, 300.0 * 1025.0)
    ensures var run := FailingRun(tgt, MAX_FAILURES);
      && Targets(run, tgt) && ValidRun(run) && Consecutive(run, tgt) == MAX_FAILURES
      && Same(After(run), Sweeps(After(run), [tgt] + rest, rounds), other)
      && forall i :: 0 <= i < |rounds| ==> StopsInRound(After(run), [tgt] + rest, rounds, i)
  {
    var run := FailingRun(tgt, MAX_FAILURES);
    FailingRunCounts(tgt, MAX_FAILURES);
    FailingRunIsValid(tgt, MAX_FAILURES);
    FailuresAreConsecutive(run, tgt);
    StarvationLasts(After(run), tgt, rest, rounds, other);
  }

  lemma {:induction false} FailingRunIsValid(tgt: Target, n: nat)
    ensures Targets(FailingRun(tgt, n), tgt) && ValidRun(FailingRun(tgt, n))
  {
    if n > 0 {
      FailingRunIsValid(tgt, n - 1);
      var run := FailingRun(tgt, n);
      assert run[..|run| - 1] == FailingRun(tgt, n - 1);
    }
  }

  // ----- draining a backlog -----

  datatype Round = Round(now: real, o: Oracle)

  /** Sweeps one after another. */
  function Sweeps(st: State, targets: seq<Target>, rounds: seq<Round>): State
  {
    if rounds == [] then st
    else
      var last := rounds[|rounds| - 1];
      Sweep(Sweeps(st, targets, rounds[..|rounds| - 1]), targets, last.now, last.o).st
  }

  /** Each of the sweeps runs to its end. */
  predicate AllComplete(st: State, targets: seq<Target>, rounds: seq<Round>)
  {
    rounds == [] ||
    var init, last := rounds[..|rounds| - 1], rounds[|rounds| - 1];
    AllComplete(st, targets, init) && !Sweep(Sweeps(st, targets, init), targets, last.now, last.o).stopped
  }

  /** In this round every attempt on `tgt` comes after `until` and delivers; the others may do as they like. */
  ghost predicate Serves(round: Round, tgt: Target, until: real)
  {
    until <= round.now && forall src :: until <= round.o(src, tgt).checkAt && round.o(src, tgt).fate.Delivers?
  }

  lemma DeliversOnce(st: State, e: Event, src: Source)
    requires e.Try? && e.fate.Delivers? && st.CooldownUntil(e.tgt) <= e.checkAt
    ensures var st' := Step(st, e);
      && !Stops(st, e) && st'.Table(src) == st.Table(src) && st'.CooldownUntil(e.tgt) == st.CooldownUntil(e.tgt)
      && st'.Watermark(src, e.tgt.key)
         == if src == e.src then NextMark(st.Table(src), st.Watermark(src, e.tgt.key)) else st.Watermark(src, e.tgt.key)
  {
    TryRetry(st, e, e.tgt);
    TryOther(st, e, src, e.tgt);
    if src == e.src { TryOwn(st, e); }
  }

  /** Attempts on one target that all deliver move each of its watermarks by one batch. */
  lemma {:induction false} AloneDelivers(st: State, sources: seq<Source>, tgt: Target, o: Oracle, src: Source, until: real)
    requires forall i, j :: 0 <= i < j < |sources| ==> sources[i] != sources[j]
    requires st.CooldownUntil(tgt) == until && forall s :: until <= o(s, tgt).checkAt && o(s, tgt).fate.Delivers?
    ensures var after := SweepPairs(st, Each(sources, tgt), o).st;
      && after.Table(src) == st.Table(src) && after.CooldownUntil(tgt) == until
      && after.Watermark(src, tgt.key)
         == if src in sources then NextMark(st.Table(src), st.Watermark(src, tgt.key)) else st.Watermark(src, tgt.key)
    decreases |sources|
  {
    if sources != [] {
      var e, rest := EventOf((sources[0], tgt), o), sources[1..];
      assert Each(sources, tgt)[1..] == Each(rest, tgt);
      DeliversOnce(st, e, src);
      AloneDelivers(Step(st, e), rest, tgt, o, src, until);
      assert src in sources <==> src == sources[0] || src in rest;
    }
  }

  /** One completed sweep of many targets moves a served target by one batch per source. */
  lemma SweepDelivers(st: State, targets: seq<Target>, round: Round, tgt: Target, src: Source)
    requires Distinct(targets) && PairwiseApart(targets) && tgt in targets
    requires Serves(round, tgt, st.CooldownUntil(tgt)) && !Sweep(st, targets, round.now, round.o).stopped
    ensures var after := Sweep(st, targets, round.now, round.o).st;
      && after.Table(src) == st.Table(src) && after.CooldownUntil(tgt) == st.CooldownUntil(tgt)
      && after.Watermark(src, tgt.key) == NextMark(st.Table(src), st.Watermark(src, tgt.key))
  {
    SweepIsServed(st, targets, round, tgt);
    AloneDelivers(st, SOURCE_ORDER, tgt, round.o, src, st.CooldownUntil(tgt));
    assert src in SOURCE_ORDER;
    SameLooks(Sweep(st, targets, round.now, round.o).st, SweepPairs(st, Each(SOURCE_ORDER, tgt), round.o).st, tgt, src);
  }

  lemma SweepIsServed(st: State, targets: seq<Target>, round: Round, tgt: Target)
    requires Distinct(targets) && PairwiseApart(targets) && tgt in targets
    requires st.CooldownUntil(tgt) <= round.now && !Sweep(st, targets, round.now, round.o).stopped
    ensures Same(Sweep(st, targets, round.now, round.o).st, SweepPairs(st, Each(SOURCE_ORDER, tgt), round.o).st, tgt)
  {
    SweepIsAlone(st, st, targets, round.now, round.o, round.o, tgt);
    ActiveMembers(st, targets, round.now);
  }

  lemma SameLooks(a: State, b: State, tgt: Target, src: Source)
    requires Same(a, b, tgt)
    ensures a.Table(src) == b.Table(src) && a.Watermark(src, tgt.key) == b.Watermark(src, tgt.key)
    ensures a.CooldownUntil(tgt) == b.CooldownUntil(tgt)
  {
    assert SamePair(a, b, src, tgt);
  }

  /** A backlog of n rows is gone after ceil(n / 500) completed sweeps and not before, whatever the
      sweeps do to the other targets. */
  lemma {:induction false} BacklogDrains(st: State, targets: seq<Target>, rounds: seq<Round>, tgt: Target, src: Source)
    requires Distinct(targets) && PairwiseApart(targets) && tgt in targets && Increasing(st.Table(src))
    requires AllComplete(st, targets, rounds)
    requires forall i :: 0 <= i < |rounds| ==> Serves(rounds[i], tgt, st.CooldownUntil(tgt))
    ensures var n, after := Pending(st, src, tgt), Sweeps(st, targets, rounds);
      && after.Table(src) == st.Table(src) && after.CooldownUntil(tgt) == st.CooldownUntil(tgt)
      && Pending(after, src, tgt) == (if n <= 500 * |rounds| then 0 else n - 500 * |rounds|)
      && (Pending(after, src, tgt) == 0 <==> (n + 499) / 500 <= |rounds|)
    decreases |rounds|
  {
    if rounds != [] {
      var init, last := rounds[..|rounds| - 1], rounds[|rounds| - 1];
      BacklogDrains(st, targets, init, tgt, src);
      var before := Sweeps(st, targets, init);
      SweepDelivers(before, targets, last, tgt, src);
      BatchShrinksPending(before.Table(src), before.Watermark(src, tgt.key));
    }
  }
}
