/** Recycle, failed-recycle recovery and TERM/INT shutdown as one interleaved state machine.

    Tasks interleave only at an await. A signal handler may run between any two statements of a
    task, so each read or write of a shared flag is its own step; while a task is between two
    awaits (`IsMid`) only that task and the signal handler can move. */
module Lifecycle {
  import opened Common

  type Settings = int

  datatype Outcome = Succeeded | Failed | Cancelled

  datatype Kind = Boot | Recycle | Recovery

  /** The point a task has reached. `v` is the reloaded configuration. */
  datatype Pc =
    | WantLock                        // recycle_runtime: waiting for the lock
    | Validate                        //   _recycle_settings
    | SetDraining(v: Settings)        //   registry.draining = True
    | Quiescing(v: Settings)          //   await _quiesce_and_drain
    | MidCheck(v: Settings)           //   _shutdown_won_mid_recycle
    | Applying(v: Settings)           //   app.state.settings = new
    | Recycling                       //   await the rest of the apply and runtime_shutdown
    | FinallyCheck(outcome: Outcome)  //   finally: if not shutting_down
    | FinallyClear(outcome: Outcome)  //     registry.draining = False
    | Releasing(outcome: Outcome)     //   leave the lock
    | RecoverCheck                    // _recover_failed_recycle: if shutting_down
    | RecoverClear                    //   registry.draining = False
    | Starting                        // startup: await pre-warm and reaps
    | StartupCheck                    //   if not shutting_down
    | StartupClear                    //     registry.draining = False
    | AutoStarting                    //   await auto_start_workspaces
    | Finished(outcome: Outcome)

  predicate IsMid(pc: Pc)
  {
    pc.Validate? || pc.SetDraining? || pc.MidCheck? || pc.Applying? || pc.FinallyCheck? || pc.FinallyClear?
    || pc.Releasing? || pc.RecoverClear? || pc.StartupCheck? || pc.StartupClear?
  }

  /** What one step of a task meets: its await or call goes on, raises or is cancelled; a reload
      yields a configuration or none. */
  datatype Fate = GoesOn | Raises | IsCancelled

  datatype Shutdown = Idle | Scheduled | Draining | HandedOff

  datatype Task = Task(kind: Kind, pc: Pc)

  /** What tasks, the shutdown and the signal handler share. */
  datatype Flags = Flags(lock: Option<nat>, draining: bool, shuttingDown: bool, shutdown: Shutdown,
                         settings: Settings, forcedExit: bool)

  datatype State = State(tasks: map<nat, Task>, nextId: nat, flags: Flags)

  datatype Action =
    | Signal
    | Hup
    | ShutdownStep
    | TaskStep(id: nat, fate: Fate, reload: Option<Settings>)
    | Reap(id: nat)

  ghost predicate Init(s: State)
  {
    && s.tasks == map[0 := Task(Boot, Starting)] && s.nextId == 1
    && s.flags == Flags(None, false, false, Idle, s.flags.settings, false)
  }

  /** No task but `id` is between two awaits. */
  ghost predicate OthersQuiet(s: State, id: nat)
  {
    forall other :: other in s.tasks && other != id ==> !IsMid(s.tasks[other].pc)
  }

  ghost predicate Quiet(s: State) { forall id :: id in s.tasks ==> !IsMid(s.tasks[id].pc) }

  ghost predicate Enabled(s: State, a: Action)
  {
    match a
    case Signal => true
    case Hup => Quiet(s)
    case ShutdownStep => Quiet(s) && (s.flags.shutdown.Scheduled? || s.flags.shutdown.Draining?)
    case Reap(id) => Quiet(s) && id in s.tasks && s.tasks[id].pc.Finished?
    case TaskStep(id, fate, _) => id in s.tasks && CanStep(s.flags, s.tasks[id].pc, fate) && OthersQuiet(s, id)
  }

  predicate CanStep(f: Flags, pc: Pc, fate: Fate)
  {
    !pc.Finished? && (pc.WantLock? && fate.GoesOn? ==> f.lock.None?)
  }

  // ----- one step of one task -----

  datatype Effect = Effect(flags: Flags, pc: Pc)

  /** The hooked TERM/INT handler: one shot. */
  function Signalled(f: Flags): Flags
  {
    if f.shuttingDown then f else f.(shuttingDown := true, shutdown := Scheduled)
  }

  /** Where an exception or a cancellation leaves a task. A recovery that raises marks the exit and
      sends TERM to its own process. */
  function Thrown(f: Flags, kind: Kind, outcome: Outcome): Effect
  {
    match kind
    case Recycle => Effect(f, FinallyCheck(outcome))
    case Boot => Effect(f, Finished(outcome))
    case Recovery =>
      if outcome.Failed? then Effect(Signalled(f.(forcedExit := true)), Finished(Succeeded))
      else Effect(f, Finished(outcome))
  }

  function Awaited(f: Flags, kind: Kind, fate: Fate, next: Pc): Effect
  {
    match fate
    case GoesOn => Effect(f, next)
    case Raises => Thrown(f, kind, Failed)
    case IsCancelled => Thrown(f, kind, Cancelled)
  }

  function Move(f: Flags, id: nat, t: Task, fate: Fate, reload: Option<Settings>): Effect
  {
    match t.pc
    case WantLock => if fate.GoesOn? then Effect(f.(lock := Some(id)), Validate) else Effect(f, Finished(Cancelled))
    case Validate => Effect(f, if f.shuttingDown || reload.None? then Releasing(Succeeded) else SetDraining(reload.value))
    case SetDraining(v) => Effect(f.(draining := true), Quiescing(v))
    case Quiescing(v) => Awaited(f, t.kind, fate, MidCheck(v))
    case MidCheck(v) => Effect(f, if f.shuttingDown then FinallyCheck(Succeeded) else Applying(v))
    case Applying(v) => if fate.GoesOn? then Effect(f.(settings := v), Recycling) else Thrown(f, t.kind, Failed)
    case Recycling => Awaited(f, t.kind, fate, Starting)
    case FinallyCheck(o) => Effect(f, if f.shuttingDown then Releasing(o) else FinallyClear(o))
    case FinallyClear(o) => Effect(f.(draining := false), Releasing(o))
    case Releasing(o) => Effect(f.(lock := None), Finished(o))
    case RecoverCheck => Effect(f, if f.shuttingDown then Finished(Succeeded) else RecoverClear)
    case RecoverClear => Effect(f.(draining := false), Starting)
    case Starting => Awaited(f, t.kind, fate, StartupCheck)
    case StartupCheck => Effect(f, if f.shuttingDown then AutoStarting else StartupClear)
    case StartupClear => Effect(f.(draining := false), AutoStarting)
    case AutoStarting =>
      Awaited(f, t.kind, fate, if t.kind.Recycle? then FinallyCheck(Succeeded) else Finished(Succeeded))
    case Finished(_) => Effect(f, t.pc)
  }

  /** Which steps write which flag. */
  lemma MoveWrites(f: Flags, id: nat, t: Task, fate: Fate, reload: Option<Settings>)
    ensures var f' := Move(f, id, t, fate, reload).flags;
      && f'.lock == (if t.pc.WantLock? && fate.GoesOn? then Some(id) else if t.pc.Releasing? then None else f.lock)
      && f'.draining == (t.pc.SetDraining?
                         || (f.draining && !t.pc.FinallyClear? && !t.pc.RecoverClear? && !t.pc.StartupClear?))
      && f'.settings == (if t.pc.Applying? && fate.GoesOn? then t.pc.v else f.settings)
      && (f'.shuttingDown != f.shuttingDown || f'.forcedExit != f.forcedExit ==> t.kind.Recovery? && !fate.GoesOn?)
  {
  }

  // ----- one step of the whole -----

  function StepTask(s: State, id: nat, fate: Fate, reload: Option<Settings>): State
    requires id in s.tasks
  {
    var e := Move(s.flags, id, s.tasks[id], fate, reload);
    s.(tasks := s.tasks[id := s.tasks[id].(pc := e.pc)], flags := e.flags)
  }

  function Spawn(s: State, kind: Kind, pc: Pc): State
  {
    s.(tasks := s.tasks[s.nextId := Task(kind, pc)], nextId := s.nextId + 1)
  }

  /** The pre-exit hook: set the drain flag, then quiesce, drain and hand off. */
  function ShutdownMoves(f: Flags): Flags
  {
    if f.shutdown.Scheduled? then f.(shutdown := Draining, draining := true)
    else if f.shutdown.Draining? then f.(shutdown := HandedOff) else f
  }

  function Step(s: State, a: Action): State
  {
    match a
    case Signal => s.(flags := Signalled(s.flags))
    case Hup => if s.flags.shuttingDown then s else Spawn(s, Recycle, WantLock)
    case ShutdownStep => s.(flags := ShutdownMoves(s.flags))
    case TaskStep(id, fate, reload) => if id in s.tasks then StepTask(s, id, fate, reload) else s
    case Reap(id) =>
      if id !in s.tasks then s
      else
        var s' := s.(tasks := s.tasks - {id});
        if s.tasks[id].pc == Finished(Failed) && !s.tasks[id].kind.Boot? then Spawn(s', Recovery, RecoverCheck) else s'
  }

  // ----- the invariant -----

  /** Points a recycle passes with the lock held. */
  predicate InLock(pc: Pc)
  {
    !pc.WantLock? && !pc.Finished? && !pc.RecoverCheck? && !pc.RecoverClear?
  }

  /** Points between setting the drain flag and the end of the `finally`. */
  predicate InDrain(pc: Pc) { InLock(pc) && !pc.Validate? && !pc.SetDraining? && !pc.Releasing? }

  predicate InStartup(pc: Pc) { pc.Starting? || pc.StartupCheck? || pc.StartupClear? || pc.AutoStarting? }

  /** Points a task of each kind can be at. */
  predicate Belongs(t: Task)
  {
    match t.kind
    case Recycle => !t.pc.RecoverCheck? && !t.pc.RecoverClear?
    case Boot => InStartup(t.pc) || t.pc.Finished?
    case Recovery => InStartup(t.pc) || t.pc.Finished? || t.pc.RecoverCheck? || t.pc.RecoverClear?
  }

  /** Points reached only by having seen no shutdown since the last await. */
  predicate SawNoShutdown(pc: Pc)
  {
    pc.SetDraining? || pc.Applying? || pc.FinallyClear? || pc.RecoverClear? || pc.StartupClear?
  }

  predicate FlagsOk(f: Flags)
  {
    (f.shuttingDown <==> !f.shutdown.Idle?) && (f.shutdown.Draining? || f.shutdown.HandedOff? ==> f.draining)
  }

  /** What the flags and task `id` know of each other. */
  predicate TaskOk(f: Flags, id: nat, t: Task)
  {
    && Belongs(t)
    && (t.kind.Recycle? && InLock(t.pc) <==> f.lock == Some(id))
    && (SawNoShutdown(t.pc) ==> f.shutdown.Idle? || f.shutdown.Scheduled?)
    && (f.lock == Some(id) && f.draining && !f.shuttingDown ==> InDrain(t.pc))
  }

  ghost predicate Inv(s: State)
  {
    && FlagsOk(s.flags)
    && (forall id :: id in s.tasks ==> id < s.nextId && TaskOk(s.flags, id, s.tasks[id]))
    && (s.flags.lock.Some? ==> s.flags.lock.value in s.tasks)
    && (s.flags.draining && !s.flags.shuttingDown ==> s.flags.lock.Some?)
  }

  /** The moving task and the flags stay consistent. */
  lemma MoveKeepsTask(f: Flags, id: nat, t: Task, fate: Fate, reload: Option<Settings>)
    requires FlagsOk(f) && TaskOk(f, id, t) && CanStep(f, t.pc, fate)
    requires f.draining && !f.shuttingDown ==> f.lock.Some?
    ensures var e := Move(f, id, t, fate, reload);
      FlagsOk(e.flags) && TaskOk(e.flags, id, t.(pc := e.pc)) && (e.flags.draining && !e.flags.shuttingDown ==> e.flags.lock.Some?)
  {
  }

  /** A task takes the lock only when it is free, leaves it only if it holds it, raises the drain
      flag only as the holder, and never runs the shutdown. */
  lemma MoveKeepsOthers(f: Flags, id: nat, t: Task, fate: Fate, reload: Option<Settings>)
    requires TaskOk(f, id, t) && CanStep(f, t.pc, fate)
    ensures var f' := Move(f, id, t, fate, reload).flags;
      && (f'.lock == f.lock || (f.lock.None? && f'.lock == Some(id)) || (f.lock == Some(id) && f'.lock.None?))
      && (f'.draining && !f'.shuttingDown ==> f.lock == Some(id) || (f.draining && !f.shuttingDown))
      && (f'.shutdown == f.shutdown || f'.shutdown.Scheduled?)
  {
  }

  /** Every step of every interleaving keeps the invariant. */
  lemma StepKeepsInv(s: State, a: Action)
    requires Inv(s) && Enabled(s, a)
    ensures Inv(Step(s, a))
  {
    match a
    case Signal =>
    case Hup =>
    case ShutdownStep =>
    case Reap(_) =>
    case TaskStep(id, fate, reload) =>
      MoveKeepsTask(s.flags, id, s.tasks[id], fate, reload);
      MoveKeepsOthers(s.flags, id, s.tasks[id], fate, reload);
  }

  // ----- runs -----

  datatype Run = Run(states: seq<State>, actions: seq<Action>) {
    ghost predicate Valid()
    {
      && |states| == |actions| + 1 && Init(states[0])
      && forall i :: 0 <= i < |actions| ==> StepsAt(i)
    }

    ghost predicate StepsAt(i: nat)
      requires i < |actions| && |states| == |actions| + 1
    {
      Enabled(states[i], actions[i]) && states[i + 1] == Step(states[i], actions[i])
    }
  }

  lemma {:induction false} RunKeepsInv(r: Run, i: nat)
    requires r.Valid() && i < |r.states|
    ensures Inv(r.states[i])
  {
    if i > 0 {
      RunKeepsInv(r, i - 1);
      assert r.StepsAt(i - 1);
      StepKeepsInv(r.states[i - 1], r.actions[i - 1]);
    }
  }

  /** The node refuses starts only while a recycle is draining under the lock, or for good in a
      shutdown; with no recycle under way and no shutdown it never does. */
  lemma DrainingIsOwned(r: Run, i: nat)
    requires r.Valid() && i < |r.states|
    ensures var s := r.states[i];
      s.flags.draining ==> (
        || s.flags.shuttingDown
        || (s.flags.lock.Some? && s.flags.lock.value in s.tasks && s.tasks[s.flags.lock.value].kind.Recycle?
            && InDrain(s.tasks[s.flags.lock.value].pc)))
  {
    RunKeepsInv(r, i);
  }

  /** At most one recycle is past the lock. */
  lemma RecyclesAreSerialized(r: Run, i: nat, a: nat, b: nat)
    requires r.Valid() && i < |r.states| && a in r.states[i].tasks && b in r.states[i].tasks
    requires r.states[i].tasks[a].kind.Recycle? && InLock(r.states[i].tasks[a].pc)
    requires r.states[i].tasks[b].kind.Recycle? && InLock(r.states[i].tasks[b].pc)
    ensures a == b
  {
    RunKeepsInv(r, i);
  }

  predicate ShutdownDrains(f: Flags) { f.shutdown.Draining? || f.shutdown.HandedOff? }

  lemma MoveUnderShutdown(f: Flags, id: nat, t: Task, fate: Fate, reload: Option<Settings>)
    requires FlagsOk(f) && TaskOk(f, id, t) && ShutdownDrains(f)
    ensures var f' := Move(f, id, t, fate, reload).flags;
      ShutdownDrains(f') && f'.settings == f.settings
  {
  }

  /** Once a shutdown has set the drain flag, nothing clears it and nothing changes the settings. */
  lemma {:induction false} ShutdownKeepsRefusing(r: Run, i: nat, j: nat)
    requires r.Valid() && i <= j < |r.states| && ShutdownDrains(r.states[i].flags)
    ensures ShutdownDrains(r.states[j].flags)
    ensures r.states[j].flags.draining && r.states[j].flags.settings == r.states[i].flags.settings
    decreases j
  {
    if i == j {
      RunKeepsInv(r, i);
    } else {
      ShutdownKeepsRefusing(r, i, j - 1);
      RunStep(r, j - 1);
      StepUnderShutdown(r.states[j - 1], r.actions[j - 1]);
    }
  }

  lemma StepUnderShutdown(s: State, a: Action)
    requires Inv(s) && Enabled(s, a) && ShutdownDrains(s.flags)
    ensures ShutdownDrains(Step(s, a).flags) && Step(s, a).flags.settings == s.flags.settings
    ensures Step(s, a).flags.draining
  {
    StepKeepsInv(s, a);
    if a.TaskStep? {
      MoveUnderShutdown(s.flags, a.id, s.tasks[a.id], a.fate, a.reload);
    }
  }

  /** Step `k` is task `id` validating: no shutdown seen, the reload yields `v`. */
  ghost predicate Reloads(r: Run, k: nat, id: nat, v: Settings)
    requires |r.states| == |r.actions| + 1
  {
    && k < |r.actions| && id in r.states[k].tasks && r.states[k].tasks[id].pc.Validate? && !r.states[k].flags.shuttingDown
    && r.actions[k].TaskStep? && r.actions[k].id == id && r.actions[k].reload == Some(v)
  }

  /** Step `k` is task `id` passing the mid-drain check with no shutdown seen. */
  ghost predicate PassesMidCheck(r: Run, k: nat, id: nat, v: Settings)
    requires |r.states| == |r.actions| + 1
  {
    && k < |r.actions| && id in r.states[k].tasks && r.states[k].tasks[id].pc == MidCheck(v)
    && !r.states[k].flags.shuttingDown && r.actions[k].TaskStep? && r.actions[k].id == id
  }

  ghost predicate AppliedBy(r: Run, id: nat, k: nat, m: nat, v: Settings)
    requires |r.states| == |r.actions| + 1
  {
    Reloads(r, k, id, v) && PassesMidCheck(r, m, id, v)
  }

  predicate HasReloaded(pc: Pc, v: Settings)
  {
    pc == SetDraining(v) || pc == Quiescing(v) || pc == MidCheck(v) || pc == Applying(v)
  }

  /** A task comes to hold `v` only by a reload, and to the point of applying it only by the check. */
  lemma MoveHistory(f: Flags, id: nat, t: Task, fate: Fate, reload: Option<Settings>, v: Settings)
    ensures var pc := Move(f, id, t, fate, reload).pc;
      && (HasReloaded(pc, v) ==> HasReloaded(t.pc, v) || (t.pc.Validate? && !f.shuttingDown && reload == Some(v)))
      && (pc == Applying(v) ==> t.pc == MidCheck(v) && !f.shuttingDown)
      && (t.pc.Applying? ==> !pc.Applying?)
  {
  }

  lemma StepHistory(s: State, a: Action, id: nat, v: Settings)
    requires id in Step(s, a).tasks && HasReloaded(Step(s, a).tasks[id].pc, v)
    ensures id in s.tasks
    ensures s.tasks[id] == Step(s, a).tasks[id] || (a.TaskStep? && a.id == id)
  {
  }

  /** How a task that holds a reloaded configuration came by it. */
  lemma {:induction false} ReloadHistory(r: Run, i: nat, id: nat, v: Settings)
    requires r.Valid() && i < |r.states| && id in r.states[i].tasks && HasReloaded(r.states[i].tasks[id].pc, v)
    ensures exists k: nat :: k < i && Reloads(r, k, id, v)
    ensures r.states[i].tasks[id].pc.Applying? ==> exists k: nat, m: nat :: k < m < i && AppliedBy(r, id, k, m, v)
    decreases i
  {
    if i > 0 {
      var s, a := r.states[i - 1], r.actions[i - 1];
      assert r.StepsAt(i - 1);
      StepHistory(s, a, id, v);
      if s.tasks[id] == r.states[i].tasks[id] {
        ReloadHistory(r, i - 1, id, v);
      } else {
        MoveHistory(s.flags, id, s.tasks[id], a.fate, a.reload, v);
        if HasReloaded(s.tasks[id].pc, v) {
          ReloadHistory(r, i - 1, id, v);
          var k: nat :| k < i - 1 && Reloads(r, k, id, v);
          assert r.states[i].tasks[id].pc.Applying? ==> AppliedBy(r, id, k, i - 1, v);
        } else {
          assert Reloads(r, i - 1, id, v);
        }
      }
    }
  }

  /** Settings change only when a recycle applies a configuration that its own reload produced
      earlier and that its mid-drain check let pass. */
  lemma SettingsChangeOnlyByReload(r: Run, i: nat)
    requires r.Valid() && i < |r.actions| && r.states[i + 1].flags.settings != r.states[i].flags.settings
    ensures r.actions[i].TaskStep?
    ensures var v := r.states[i + 1].flags.settings;
      exists k: nat, m: nat :: k < m < i && AppliedBy(r, r.actions[i].id, k, m, v)
  {
    var s, a := r.states[i], r.actions[i];
    assert r.StepsAt(i);
    assert a.TaskStep? && a.id in s.tasks && s.tasks[a.id].pc == Applying(r.states[i + 1].flags.settings);
    ReloadHistory(r, i, a.id, r.states[i + 1].flags.settings);
  }

  /** While a task is about to apply, nothing but a signal or its own step is enabled. */
  lemma OnlySignalBesideApply(s: State, a: Action, id: nat)
    requires id in s.tasks && s.tasks[id].pc.Applying? && Enabled(s, a)
    ensures a.Signal? || (a.TaskStep? && a.id == id)
  {
    assert IsMid(s.tasks[id].pc);
  }

  /** Step `m` is the mid-drain check of `id`, and from there to `i` only signals arrive. */
  ghost predicate ChecksThenSignals(r: Run, m: nat, i: nat, id: nat, v: Settings)
    requires |r.states| == |r.actions| + 1 && i <= |r.actions|
  {
    m < i && PassesMidCheck(r, m, id, v) && forall x :: m < x < i ==> r.actions[x].Signal?
  }

  /** How a task got to its apply; a shutdown is seen there exactly when a signal came in between. */
  lemma {:induction false} ApplyHistory(r: Run, i: nat, id: nat, v: Settings) returns (m: nat)
    requires r.Valid() && i < |r.states| && id in r.states[i].tasks && r.states[i].tasks[id].pc == Applying(v)
    ensures ChecksThenSignals(r, m, i, id, v) && (r.states[i].flags.shuttingDown <==> m + 1 < i)
    decreases i
  {
    m := 0;
    if i > 0 {
      var s, a := r.states[i - 1], r.actions[i - 1];
      assert r.StepsAt(i - 1);
      StepHistory(s, a, id, v);
      if s.tasks[id] == r.states[i].tasks[id] {
        OnlySignalBesideApply(s, a, id);
        if a.TaskStep? { MoveHistory(s.flags, id, s.tasks[id], a.fate, a.reload, v); }
        m := ApplyHistory(r, i - 1, id, v);
      } else {
        MoveHistory(s.flags, id, s.tasks[id], a.fate, a.reload, v);
        m := i - 1;
      }
    }
  }

  /** Settings change in spite of a shutdown exactly when its signal lands between the mid-drain check
      and the apply that follows it. */
  lemma AppliedInSpiteOfSignal(r: Run, i: nat) returns (m: nat)
    requires r.Valid() && i < |r.actions| && r.states[i + 1].flags.settings != r.states[i].flags.settings
    ensures r.actions[i].TaskStep? && ChecksThenSignals(r, m, i, r.actions[i].id, r.states[i + 1].flags.settings)
    ensures r.states[i].flags.shuttingDown <==> m + 1 < i
  {
    assert r.StepsAt(i);
    m := ApplyHistory(r, i, r.actions[i].id, r.states[i + 1].flags.settings);
  }

  // ----- the way a task goes -----

  /** How far a task has come. */
  function Stage(pc: Pc): nat
  {
    match pc
    case WantLock => 0
    case Validate => 1
    case SetDraining(_) => 2
    case Quiescing(_) => 3
    case MidCheck(_) => 4
    case Applying(_) => 5
    case Recycling => 6
    case RecoverCheck => 5
    case RecoverClear => 6
    case Starting => 7
    case StartupCheck => 8
    case StartupClear => 9
    case AutoStarting => 10
    case FinallyCheck(_) => 11
    case FinallyClear(_) => 12
    case Releasing(_) => 13
    case Finished(_) => 14
  }

  lemma MoveGoesOn(f: Flags, id: nat, t: Task, fate: Fate, reload: Option<Settings>)
    requires !t.pc.Finished?
    ensures Stage(t.pc) < Stage(Move(f, id, t, fate, reload).pc)
  {
  }

  /** Step `k` moves task `id` from `from` to `to`. */
  ghost predicate Moves(r: Run, k: nat, id: nat, from: Pc, to: Pc)
    requires |r.states| == |r.actions| + 1
  {
    && k < |r.actions| && id in r.states[k].tasks && r.states[k].tasks[id].pc == from
    && id in r.states[k + 1].tasks && r.states[k + 1].tasks[id] == r.states[k].tasks[id].(pc := to)
    && r.actions[k].TaskStep? && r.actions[k].id == id
    && Move(r.states[k].flags, id, r.states[k].tasks[id], r.actions[k].fate, r.actions[k].reload).pc == to
  }

  function Entry(kind: Kind): Pc
  {
    match kind
    case Recycle => WantLock
    case Boot => Starting
    case Recovery => RecoverCheck
  }

  /** In one step a task stays as it is, moves, or is new at its entry. */
  lemma StepOfTask(s: State, a: Action, id: nat)
    requires id in Step(s, a).tasks
    ensures var t := Step(s, a).tasks[id];
      || (id in s.tasks && t == s.tasks[id])
      || (id in s.tasks && a.TaskStep? && a.id == id
          && t == s.tasks[id].(pc := Move(s.flags, id, s.tasks[id], a.fate, a.reload).pc))
      || (id == s.nextId && t.pc == Entry(t.kind))
  {
  }

  /** A task that is past its entry got where it is by a move. */
  lemma {:induction false} CameFrom(r: Run, i: nat, id: nat) returns (k: nat)
    requires r.Valid() && i < |r.states| && id in r.states[i].tasks
    requires r.states[i].tasks[id].pc != Entry(r.states[i].tasks[id].kind)
    ensures k < i && id in r.states[k].tasks && r.states[k].tasks[id].kind == r.states[i].tasks[id].kind
    ensures Moves(r, k, id, r.states[k].tasks[id].pc, r.states[i].tasks[id].pc)
    decreases i
  {
    k := 0;
    if i > 0 {
      assert r.StepsAt(i - 1);
      var s, a := r.states[i - 1], r.actions[i - 1];
      StepOfTask(s, a, id);
      if id in s.tasks && a.TaskStep? && a.id == id {
        k := i - 1;
      } else {
        k := CameFrom(r, i - 1, id);
      }
    }
  }

  /** Startup runs in order: whoever gets to the auto-start has been through the reaps and the check of
      the drain flag. */
  lemma AutoStartAfterReaps(r: Run, i: nat, id: nat) returns (p: nat, q: nat)
    requires r.Valid() && i < |r.states| && id in r.states[i].tasks && r.states[i].tasks[id].pc.AutoStarting?
    ensures p < q < i && id in r.states[p].tasks && id in r.states[q].tasks
    ensures r.states[p].tasks[id] == r.states[i].tasks[id].(pc := Starting) && r.states[q].tasks[id].pc.StartupCheck?
  {
    q := CameFrom(r, i, id);
    if r.states[q].tasks[id].pc.StartupClear? { q := CameFrom(r, q, id); }
    p := CameFrom(r, q, id);
  }

  // ----- how a recycle ends -----

  predicate Ending(pc: Pc) { pc.FinallyCheck? || pc.FinallyClear? || pc.Releasing? || pc.Finished? }

  function OutcomeOf(pc: Pc): Outcome
    requires Ending(pc)
  {
    pc.outcome
  }

  predicate IsAwait(pc: Pc) { pc.Quiescing? || pc.Recycling? || pc.Starting? || pc.AutoStarting? }

  /** A recycle at `pc` comes to its end here, with this outcome: cancelled while waiting for the lock,
      done without effect where there is a shutdown or nothing to apply, failed or cancelled by what it
      awaits, failed in its apply, or done after the auto-start. */
  predicate EndsWith(f: Flags, pc: Pc, fate: Fate, reload: Option<Settings>, o: Outcome)
  {
    || (pc.WantLock? && !fate.GoesOn? && o == Cancelled)
    || (pc.Validate? && (f.shuttingDown || reload.None?) && o == Succeeded)
    || (pc.MidCheck? && f.shuttingDown && o == Succeeded)
    || (pc.Applying? && !fate.GoesOn? && o == Failed)
    || (IsAwait(pc) && fate.Raises? && o == Failed)
    || (IsAwait(pc) && fate.IsCancelled? && o == Cancelled)
    || (pc.AutoStarting? && fate.GoesOn? && o == Succeeded)
  }

  lemma MoveEnds(f: Flags, id: nat, t: Task, fate: Fate, reload: Option<Settings>, o: Outcome)
    requires t.kind.Recycle? && Belongs(t) && !t.pc.Finished?
    ensures var pc := Move(f, id, t, fate, reload).pc;
      && (Ending(t.pc) ==> Ending(pc) && OutcomeOf(pc) == OutcomeOf(t.pc))
      && (!Ending(t.pc) ==> (Ending(pc) && OutcomeOf(pc) == o <==> EndsWith(f, t.pc, fate, reload, o)))
  {
  }

  /** Step `x` is where recycle `id` comes to its end with outcome `o`. */
  ghost predicate EndsAt(r: Run, x: nat, id: nat, o: Outcome)
    requires |r.states| == |r.actions| + 1
  {
    && x < |r.actions| && id in r.states[x].tasks && r.actions[x].TaskStep? && r.actions[x].id == id
    && EndsWith(r.states[x].flags, r.states[x].tasks[id].pc, r.actions[x].fate, r.actions[x].reload, o)
  }

  /** What a recycle reports is what happened at the step where it came to its end. */
  lemma {:induction false} OutcomeIsHonest(r: Run, i: nat, id: nat) returns (x: nat)
    requires r.Valid() && i < |r.states| && id in r.states[i].tasks && r.states[i].tasks[id].kind.Recycle?
    requires Ending(r.states[i].tasks[id].pc)
    ensures x < i && EndsAt(r, x, id, OutcomeOf(r.states[i].tasks[id].pc)) && r.states[x].tasks[id].kind.Recycle?
    decreases i
  {
    x := CameFrom(r, i, id);
    RunStep(r, x);
    var t := r.states[x].tasks[id];
    MoveEnds(r.states[x].flags, id, t, r.actions[x].fate, r.actions[x].reload, OutcomeOf(r.states[i].tasks[id].pc));
    if Ending(t.pc) { x := OutcomeIsHonest(r, x, id); }
  }

  /** Step `a` is where task `id` puts new settings in place. */
  ghost predicate AppliesAt(r: Run, a: nat, id: nat)
    requires |r.states| == |r.actions| + 1
  {
    a < |r.actions| && id in r.states[a].tasks && r.states[a].tasks[id].pc.Applying? && Moves(r, a, id, r.states[a].tasks[id].pc, Recycling)
  }

  ghost predicate IsAt(r: Run, k: nat, id: nat, pc: Pc) { k < |r.states| && id in r.states[k].tasks && r.states[k].tasks[id].pc == pc }

  /** The whole way of a recycle that applies: the apply, the reaps, the check of the drain flag, the
      auto-start, in this order and before `x`. */
  ghost predicate WentThrough(r: Run, a: nat, p: nat, q: nat, x: nat, id: nat)
    requires |r.states| == |r.actions| + 1
  {
    a < p < q < x && AppliesAt(r, a, id) && IsAt(r, p, id, Starting) && IsAt(r, q, id, StartupCheck) && IsAt(r, x, id, AutoStarting)
  }

  lemma AutoStartAfterApply(r: Run, x: nat, id: nat) returns (a: nat, p: nat, q: nat)
    requires r.Valid() && x < |r.states| && id in r.states[x].tasks
    requires r.states[x].tasks[id].kind.Recycle? && r.states[x].tasks[id].pc.AutoStarting?
    ensures WentThrough(r, a, p, q, x, id)
  {
    p, q := AutoStartAfterReaps(r, x, id);
    var k := CameFrom(r, p, id);
    RunStep(r, k);
    a := CameFrom(r, k, id);
  }

  /** Before its apply a recycle holds the lock and has validated, raised the drain flag, drained and
      looked for a shutdown, in this order. */
  lemma ApplyAfterDrain(r: Run, a: nat, id: nat) returns (w: nat, v: nat, d: nat, m: nat)
    requires r.Valid() && a < |r.states| && id in r.states[a].tasks
    requires r.states[a].tasks[id].kind.Recycle? && r.states[a].tasks[id].pc.Applying?
    ensures w < v < d < m < a && IsAt(r, w, id, WantLock) && IsAt(r, v, id, Validate)
    ensures IsAt(r, d, id, Quiescing(r.states[a].tasks[id].pc.v)) && IsAt(r, m, id, MidCheck(r.states[a].tasks[id].pc.v))
  {
    m := CameFrom(r, a, id);
    d := CameFrom(r, m, id);
    w, v := DrainAfterLock(r, d, id);
  }

  lemma DrainAfterLock(r: Run, d: nat, id: nat) returns (w: nat, v: nat)
    requires r.Valid() && d < |r.states| && id in r.states[d].tasks
    requires r.states[d].tasks[id].kind.Recycle? && r.states[d].tasks[id].pc.Quiescing?
    ensures w < v < d && IsAt(r, w, id, WantLock) && IsAt(r, v, id, Validate)
  {
    var k := CameFrom(r, d, id);
    v := CameFrom(r, k, id);
    w := CameFrom(r, v, id);
  }

  lemma {:induction false} NextIdGrows(r: Run, i: nat, j: nat)
    requires r.Valid() && i <= j < |r.states|
    ensures r.states[i].nextId <= r.states[j].nextId
    decreases j
  {
    if i < j {
      NextIdGrows(r, i, j - 1);
      assert r.StepsAt(j - 1);
    }
  }

  /** A task never goes back. */
  lemma {:induction false} StagesGrow(r: Run, i: nat, j: nat, id: nat)
    requires r.Valid() && i <= j < |r.states| && id in r.states[i].tasks && id in r.states[j].tasks
    ensures Stage(r.states[i].tasks[id].pc) <= Stage(r.states[j].tasks[id].pc)
    decreases j
  {
    if i < j {
      RunStep(r, j - 1);
      var s, a := r.states[j - 1], r.actions[j - 1];
      StepOfTask(s, a, id);
      RunKeepsInv(r, i);
      NextIdGrows(r, i, j - 1);
      if a.TaskStep? && a.id == id { MoveGoesOn(s.flags, id, s.tasks[id], a.fate, a.reload); }
      StagesGrow(r, i, j - 1, id);
    }
  }

  /** A recycle that reports success either went the whole way from its apply through startup, or ended
      without an apply because it saw a shutdown or had nothing to apply. */
  lemma SuccessMeansStartup(r: Run, i: nat, id: nat) returns (a: nat, p: nat, q: nat, x: nat)
    requires r.Valid() && IsAt(r, i, id, Finished(Succeeded)) && r.states[i].tasks[id].kind.Recycle?
    ensures x < i && EndsAt(r, x, id, Succeeded)
    ensures r.states[x].tasks[id].pc.AutoStarting? ==> WentThrough(r, a, p, q, x, id)
    ensures !r.states[x].tasks[id].pc.AutoStarting? ==>
      && (r.states[x].flags.shuttingDown || (r.states[x].tasks[id].pc.Validate? && r.actions[x].reload.None?))
      && forall k :: 0 <= k < i ==> !AppliesAt(r, k, id)
  {
    a, p, q := 0, 0, 0;
    x := OutcomeIsHonest(r, i, id);
    if r.states[x].tasks[id].pc.AutoStarting? {
      a, p, q := AutoStartAfterApply(r, x, id);
    } else {
      forall k | 0 <= k < i ensures !AppliesAt(r, k, id) { EndedDoesNotApply(r, x, k, id); }
    }
  }

  lemma EndedDoesNotApply(r: Run, x: nat, k: nat, id: nat)
    requires r.Valid() && x < |r.actions| && k < |r.actions| && EndsAt(r, x, id, Succeeded)
    requires r.states[x].tasks[id].kind.Recycle? && !r.states[x].tasks[id].pc.AutoStarting?
    ensures !AppliesAt(r, k, id)
  {
    if AppliesAt(r, k, id) {
      RunStep(r, x);
      MoveEnds(r.states[x].flags, id, r.states[x].tasks[id], r.actions[x].fate, r.actions[x].reload, Succeeded);
      if x < k { StagesGrow(r, x + 1, k, id); } else { StagesGrow(r, k + 1, x, id); }
    }
  }

  /** So a recycle that applied and reports success has run startup in between. */
  lemma AppliedAndSucceeded(r: Run, k: nat, i: nat, id: nat) returns (a: nat, p: nat, q: nat, x: nat)
    requires r.Valid() && k < i && AppliesAt(r, k, id) && IsAt(r, i, id, Finished(Succeeded))
    requires r.states[i].tasks[id].kind.Recycle?
    ensures x < i && a == k && WentThrough(r, a, p, q, x, id)
  {
    a, p, q, x := SuccessMeansStartup(r, i, id);
    AppliesOnce(r, a, k, id);
    AppliesOnce(r, k, a, id);
  }

  lemma AppliesOnce(r: Run, a: nat, b: nat, id: nat)
    requires r.Valid() && AppliesAt(r, a, id) && AppliesAt(r, b, id)
    ensures b <= a
  {
    if a < b { StagesGrow(r, a + 1, b, id); }
  }

  /** A boot or a recovery that reports success has run startup to its end, unless the recovery saw a
      shutdown before it began, or what it awaited raised and it asked the process to exit. */
  lemma StartupMeansReaps(r: Run, i: nat, id: nat) returns (p: nat, q: nat, x: nat)
    requires r.Valid() && IsAt(r, i, id, Finished(Succeeded)) && !r.states[i].tasks[id].kind.Recycle?
    ensures x < i && id in r.states[x].tasks
    ensures r.states[x].tasks[id].pc.AutoStarting? && r.actions[x].TaskStep? && r.actions[x].fate.GoesOn? ==>
      p < q < x && IsAt(r, p, id, Starting) && IsAt(r, q, id, StartupCheck)
    ensures !(r.states[x].tasks[id].pc.AutoStarting? && r.actions[x].TaskStep? && r.actions[x].fate.GoesOn?) ==>
      && r.states[i].tasks[id].kind.Recovery?
      && ((r.states[x].tasks[id].pc.RecoverCheck? && r.states[x].flags.shuttingDown)
          || (r.states[x + 1].flags.forcedExit && r.states[x + 1].flags.shuttingDown))
  {
    p, q := 0, 0;
    x := CameFrom(r, i, id);
    RunStep(r, x);
    FinishesStartup(r.states[x].flags, id, r.states[x].tasks[id], r.actions[x].fate, r.actions[x].reload, Succeeded);
    if r.states[x].tasks[id].pc.AutoStarting? { p, q := AutoStartAfterReaps(r, x, id); }
  }

  /** A boot or recovery at `pc` comes to its end here, with this outcome: at the end of the auto-start,
      where what it awaits fails or is cancelled, or where a recovery sees a shutdown. A recovery whose
      await fails does not fail itself. */
  predicate StartupEndsWith(f: Flags, t: Task, fate: Fate, o: Outcome)
  {
    || (t.pc.AutoStarting? && fate.GoesOn? && o == Succeeded)
    || (t.kind.Recovery? && t.pc.RecoverCheck? && f.shuttingDown && o == Succeeded)
    || ((t.pc.Starting? || t.pc.AutoStarting?) && fate.IsCancelled? && o == Cancelled)
    || ((t.pc.Starting? || t.pc.AutoStarting?) && fate.Raises? && o == if t.kind.Boot? then Failed else Succeeded)
  }

  lemma FinishesStartup(f: Flags, id: nat, t: Task, fate: Fate, reload: Option<Settings>, o: Outcome)
    requires !t.kind.Recycle? && Belongs(t) && !t.pc.Finished?
    ensures var e := Move(f, id, t, fate, reload);
      && (e.pc == Finished(o) <==> StartupEndsWith(f, t, fate, o))
      && (t.kind.Recovery? && (t.pc.Starting? || t.pc.AutoStarting?) && fate.Raises? ==> e.flags.forcedExit && e.flags.shuttingDown)
      && (e.flags.forcedExit ==> f.forcedExit || (t.kind.Recovery? && fate.Raises?))
  {
  }

  /** A recovery never fails: it is not recovered from in turn. */
  lemma RecoveryNeverFails(r: Run, i: nat, id: nat)
    requires r.Valid() && i < |r.states| && id in r.states[i].tasks && r.states[i].tasks[id].kind.Recovery?
    ensures r.states[i].tasks[id].pc != Finished(Failed)
  {
    if r.states[i].tasks[id].pc == Finished(Failed) {
      var x := CameFrom(r, i, id);
      RunStep(r, x);
      FinishesStartup(r.states[x].flags, id, r.states[x].tasks[id], r.actions[x].fate, r.actions[x].reload, Failed);
    }
  }

  // ----- starts are refused for the whole drain, unless a startup runs beside it -----

  /** Points from setting the drain flag to the recycle's own startup clearing it. */
  predicate Refusing(pc: Pc)
  {
    pc.Quiescing? || pc.MidCheck? || pc.Applying? || pc.Recycling? || pc.Starting? || pc.StartupCheck? || pc.StartupClear?
  }

  /** The holder of the lock, if it is in its drain, has the flag set. */
  ghost predicate HolderRefuses(s: State)
  {
    s.flags.lock.Some? && s.flags.lock.value in s.tasks && Refusing(s.tasks[s.flags.lock.value].pc) ==> s.flags.draining
  }

  /** A boot or a recovery clears the flag while the holder of the lock is in its drain. */
  ghost predicate Lifts(s: State, a: Action)
  {
    && s.flags.lock.Some? && s.flags.lock.value in s.tasks && Refusing(s.tasks[s.flags.lock.value].pc)
    && a.TaskStep? && a.id in s.tasks && !s.tasks[a.id].kind.Recycle?
    && (s.tasks[a.id].pc.RecoverClear? || s.tasks[a.id].pc.StartupClear?)
  }

  /** One step takes the refusal from a draining recycle exactly when it is such a clear. */
  lemma StepHolderRefuses(s: State, a: Action)
    requires Inv(s) && Enabled(s, a) && HolderRefuses(s)
    ensures HolderRefuses(Step(s, a)) <==> !Lifts(s, a)
  {
    if a.TaskStep? {
      MoveRefuses(s.flags, a.id, s.tasks[a.id], a.fate, a.reload);
      MoveKeepsOthers(s.flags, a.id, s.tasks[a.id], a.fate, a.reload);
    }
  }

  lemma MoveRefuses(f: Flags, id: nat, t: Task, fate: Fate, reload: Option<Settings>)
    requires TaskOk(f, id, t) && CanStep(f, t.pc, fate)
    ensures var e := Move(f, id, t, fate, reload);
      && (f.lock == Some(id) && (Refusing(t.pc) ==> f.draining) ==> (Refusing(e.pc) ==> e.flags.draining))
      && (f.lock.None? && e.flags.lock.Some? ==> !Refusing(e.pc))
      && (f.draining && !e.flags.draining && !t.pc.RecoverClear? && !t.pc.StartupClear? ==> f.lock == Some(id))
      && (f.draining && !e.flags.draining ==> t.pc.RecoverClear? || t.pc.StartupClear? || t.pc.FinallyClear?)
  {
  }

  /** Step `m` of the run lifts a refusal. */
  ghost predicate LiftsAt(r: Run, m: nat)
    requires m < |r.actions| < |r.states|
  {
    Lifts(r.states[m], r.actions[m])
  }

  /** Along a run, every draining recycle refuses new starts up to the end of its reaps exactly when
      no boot or recovery clears the flag beside one. */
  lemma {:induction false} StartsRefusedThroughReaps(r: Run, n: nat)
    requires r.Valid() && n < |r.states|
    ensures (forall i :: 0 <= i <= n ==> HolderRefuses(r.states[i])) <==> (forall m :: 0 <= m < n ==> !LiftsAt(r, m))
  {
    if n > 0 {
      StartsRefusedThroughReaps(r, n - 1);
      RunStep(r, n - 1);
      if HolderRefuses(r.states[n - 1]) {
        StepHolderRefuses(r.states[n - 1], r.actions[n - 1]);
        assert LiftsAt(r, n - 1) <==> !HolderRefuses(r.states[n]);
      }
    }
  }

  /** Task `id` holds the lock and is in its drain. */
  ghost predicate Drains(s: State, id: nat)
  {
    s.flags.lock == Some(id) && id in s.tasks && Refusing(s.tasks[id].pc)
  }

  /** What one step of a drain does to the flag. */
  lemma StepInDrain(s: State, a: Action, id: nat)
    requires Inv(s) && Enabled(s, a) && Drains(s, id) && Drains(Step(s, a), id) && !ShutdownDrains(s.flags)
    ensures Step(s, a).flags.draining <==> ShutdownDrains(Step(s, a).flags) || (s.flags.draining && !Lifts(s, a))
  {
    if a.TaskStep? {
      MoveInDrain(s.flags, a.id, s.tasks[a.id], a.fate, a.reload, id);
    }
  }

  lemma MoveInDrain(f: Flags, id: nat, t: Task, fate: Fate, reload: Option<Settings>, holder: nat)
    requires FlagsOk(f) && TaskOk(f, id, t) && CanStep(f, t.pc, fate) && f.lock == Some(holder) && !ShutdownDrains(f)
    requires id == holder ==> Refusing(t.pc) && Refusing(Move(f, id, t, fate, reload).pc)
    ensures var f' := Move(f, id, t, fate, reload).flags;
      && !ShutdownDrains(f')
      && (f'.draining <==> f.draining && (t.kind.Recycle? || !(t.pc.RecoverClear? || t.pc.StartupClear?)))
  {
  }

  lemma FlagInDrain(s: State, a: Action, id: nat, kept: bool)
    requires Inv(s) && Enabled(s, a) && Drains(s, id) && Drains(Step(s, a), id)
    requires s.flags.draining <==> ShutdownDrains(s.flags) || kept
    ensures Step(s, a).flags.draining <==> ShutdownDrains(Step(s, a).flags) || (kept && !Lifts(s, a))
  {
    if ShutdownDrains(s.flags) {
      StepUnderShutdown(s, a);
    } else {
      StepInDrain(s, a, id);
    }
  }

  /** No step after `begun` and before `i` lifts a refusal. */
  ghost predicate NoneLifts(r: Run, begun: nat, i: nat)
    requires begun < i <= |r.actions| < |r.states|
  {
    i == begun + 1 || (NoneLifts(r, begun, i - 1) && !LiftsAt(r, i - 1))
  }

  lemma {:induction false} NoneLiftsMeans(r: Run, begun: nat, i: nat)
    requires begun < i <= |r.actions| < |r.states|
    ensures NoneLifts(r, begun, i) <==> forall m :: begun < m < i ==> !LiftsAt(r, m)
  {
    if begun + 1 < i { NoneLiftsMeans(r, begun, i - 1); }
  }

  lemma RunStep(r: Run, i: nat)
    requires r.Valid() && i < |r.actions|
    ensures Inv(r.states[i]) && Enabled(r.states[i], r.actions[i]) && r.states[i + 1] == Step(r.states[i], r.actions[i])
  {
    RunKeepsInv(r, i);
    assert r.StepsAt(i);
  }

  /** Task `id` sets the flag at step `begun` and is in its drain from then on up to `i`. */
  ghost predicate DrainsSince(r: Run, begun: nat, i: nat, id: nat)
    requires |r.states| == |r.actions| + 1
  {
    && begun < i < |r.states| && id in r.states[begun].tasks && r.states[begun].tasks[id].pc.SetDraining?
    && forall x :: begun < x <= i ==> Drains(r.states[x], id)
  }

  ghost predicate FlagIs(s: State, kept: bool) { s.flags.draining <==> ShutdownDrains(s.flags) || kept }

  lemma RefusedGoesOn(r: Run, i: nat, id: nat, kept: bool)
    requires r.Valid() && i < |r.actions| && Drains(r.states[i], id) && Drains(r.states[i + 1], id)
    requires FlagIs(r.states[i], kept)
    ensures FlagIs(r.states[i + 1], kept && !Lifts(r.states[i], r.actions[i]))
  {
    RunStep(r, i);
    FlagInDrain(r.states[i], r.actions[i], id, kept);
  }

  lemma RefusedAtFirst(r: Run, begun: nat, id: nat)
    requires r.Valid() && DrainsSince(r, begun, begun + 1, id)
    ensures FlagIs(r.states[begun + 1], true)
  {
    RunStep(r, begun);
    assert Drains(r.states[begun + 1], id);
    DrainBegins(r.states[begun], r.actions[begun], id);
  }

  lemma {:induction false} FlagSinceDrain(r: Run, begun: nat, i: nat, id: nat)
    requires r.Valid() && DrainsSince(r, begun, i, id)
    ensures FlagIs(r.states[i], NoneLifts(r, begun, i))
    decreases i
  {
    if begun + 1 < i {
      FlagSinceDrain(r, begun, i - 1, id);
      assert Drains(r.states[i], id) && Drains(r.states[i - 1], id);
      RefusedGoesOn(r, i - 1, id, NoneLifts(r, begun, i - 1));
    } else {
      RefusedAtFirst(r, begun, id);
    }
  }

  /** At any point of one recycle's drain, new starts are refused exactly when nothing has lifted the
      refusal since the drain began, or a shutdown has set it again. */
  lemma RefusedExactly(r: Run, begun: nat, i: nat, id: nat)
    requires r.Valid() && DrainsSince(r, begun, i, id)
    ensures r.states[i].flags.draining <==>
      ShutdownDrains(r.states[i].flags) || forall m :: begun < m < i ==> !LiftsAt(r, m)
  {
    FlagSinceDrain(r, begun, i, id);
    NoneLiftsMeans(r, begun, i);
  }

  lemma DrainBegins(s: State, a: Action, id: nat)
    requires id in s.tasks && s.tasks[id].pc.SetDraining? && Drains(Step(s, a), id)
    ensures Step(s, a).flags.draining
  {
  }

  // ----- what is not promised -----

  /** The actions are enabled one after another from `s` and lead to `t`. */
  ghost predicate Plays(s: State, actions: seq<Action>, t: State)
    decreases |actions|
  {
    if actions == [] then s == t
    else Enabled(s, actions[0]) && Plays(Step(s, actions[0]), actions[1..], t)
  }

  ghost predicate Reaches(s: State, t: State) { exists actions :: Plays(s, actions, t) }

  lemma ReachesBy(s: State, a: Action, t: State)
    requires Enabled(s, a) && Reaches(Step(s, a), t)
    ensures Reaches(s, t)
  {
    var rest :| Plays(Step(s, a), rest, t);
    assert ([a] + rest)[1..] == rest;
    assert Plays(s, [a] + rest, t);
  }

  /** Some run of the whole node ends in `t`. */
  ghost predicate Reachable(t: State) { exists r: Run :: r.Valid() && r.states[|r.actions|] == t }

  lemma {:induction false} PlaysOn(r: Run, actions: seq<Action>, t: State)
    requires r.Valid() && Plays(r.states[|r.actions|], actions, t)
    ensures Reachable(t)
    decreases |actions|
  {
    if actions != [] {
      var s := r.states[|r.actions|];
      var longer := Run(r.states + [Step(s, actions[0])], r.actions + [actions[0]]);
      assert forall i :: 0 <= i < |r.actions| ==> r.StepsAt(i) ==> longer.StepsAt(i);
      PlaysOn(longer, actions[1..], t);
    }
  }

  /** What boot can lead to is reachable from the node's start. */
  lemma ReachableFromBoot(t: State)
    requires Reaches(BOOTED, t)
    ensures Reachable(t)
  {
    var start := Booting(Starting);
    BootedIsReachable(start);
    var boot :| Plays(start, boot, BOOTED);
    PlaysOn(Run([start], []), boot, BOOTED);
    var r: Run :| r.Valid() && r.states[|r.actions|] == BOOTED;
    var actions :| Plays(BOOTED, actions, t);
    PlaysOn(r, actions, t);
  }

  lemma ReachesSelf(s: State)
    ensures Reaches(s, s)
  {
    assert Plays(s, [], s);
  }

  const CALM := Flags(None, false, false, Idle, 0, false)

  /** The state after boot: its task reaped, nothing under way. */
  const BOOTED := State(map[], 1, CALM)

  function Booting(pc: Pc): State { State(map[0 := Task(Boot, pc)], 1, CALM) }

  lemma BootMoves(pc: Pc, next: Pc, t: State)
    requires !pc.Finished? && Move(CALM, 0, Task(Boot, pc), GoesOn, None) == Effect(CALM, next) && !pc.WantLock?
    requires Reaches(Booting(next), t)
    ensures Reaches(Booting(pc), t)
  {
    var s, a := Booting(pc), TaskStep(0, GoesOn, None);
    assert Step(s, a).tasks == Booting(next).tasks;
    ReachesBy(s, a, t);
  }

  lemma BootedIsReachable(s: State)
    requires Init(s) && s.flags.settings == 0
    ensures Reaches(s, BOOTED)
  {
    BootReaped();
    BootMoves(AutoStarting, Finished(Succeeded), BOOTED);
    BootMoves(StartupClear, AutoStarting, BOOTED);
    BootMoves(StartupCheck, StartupClear, BOOTED);
    BootMoves(Starting, StartupCheck, BOOTED);
    assert s == Booting(Starting);
  }

  lemma BootReaped()
    ensures Reaches(Booting(Finished(Succeeded)), BOOTED)
  {
    var done := Booting(Finished(Succeeded));
    assert Step(done, Reap(0)).tasks == map[];
    ReachesSelf(BOOTED);
    ReachesBy(done, Reap(0), BOOTED);
  }

  /** Two recycles, 1 and 2. */
  function Two(a: Pc, b: Pc, f: Flags): State { State(map[1 := Task(Recycle, a), 2 := Task(Recycle, b)], 3, f) }

  lemma FirstMoves(a: Pc, b: Pc, f: Flags, fate: Fate, reload: Option<Settings>, t: State)
    requires CanStep(f, a, fate) && !IsMid(b)
    requires var e := Move(f, 1, Task(Recycle, a), fate, reload);
      Reaches(Two(e.pc, b, e.flags), t)
    ensures Reaches(Two(a, b, f), t)
  {
    var s, e := Two(a, b, f), Move(f, 1, Task(Recycle, a), fate, reload);
    assert Step(s, TaskStep(1, fate, reload)).tasks == Two(e.pc, b, e.flags).tasks;
    ReachesBy(s, TaskStep(1, fate, reload), t);
  }

  lemma SecondMoves(a: Pc, b: Pc, f: Flags, fate: Fate, reload: Option<Settings>, t: State)
    requires CanStep(f, b, fate) && !IsMid(a)
    requires var e := Move(f, 2, Task(Recycle, b), fate, reload);
      Reaches(Two(a, e.pc, e.flags), t)
    ensures Reaches(Two(a, b, f), t)
  {
    var s, e := Two(a, b, f), Move(f, 2, Task(Recycle, b), fate, reload);
    assert Step(s, TaskStep(2, fate, reload)).tasks == Two(a, e.pc, e.flags).tasks;
    ReachesBy(s, TaskStep(2, fate, reload), t);
  }

  /** From boot, two requests leave two recycles waiting for the lock. */
  lemma TwoRequests(t: State)
    requires Reaches(Two(WantLock, WantLock, CALM), t)
    ensures Reaches(BOOTED, t)
  {
    var s1 := Step(BOOTED, Hup);
    assert Step(s1, Hup).tasks == Two(WantLock, WantLock, CALM).tasks;
    ReachesBy(s1, Hup, t);
    ReachesBy(BOOTED, Hup, t);
  }

  /** From boot, the first recycle can get to its drain. */
  lemma FirstDrains(t: State)
    requires Reaches(Two(Quiescing(7), WantLock, CALM.(lock := Some(1), draining := true)), t)
    ensures Reaches(BOOTED, t)
  {
    var held := CALM.(lock := Some(1));
    FirstMoves(SetDraining(7), WantLock, held, GoesOn, None, t);
    FirstMoves(Validate, WantLock, held, GoesOn, Some(7), t);
    FirstMoves(WantLock, WantLock, CALM, GoesOn, None, t);
    TwoRequests(t);
  }

  /** A signal landing after the mid-drain check does not stop the apply. */
  lemma LateSignalDoesNotStopApply()
    ensures exists s, a :: Reachable(s) && Enabled(s, a)
                        && s.flags.shuttingDown && s.flags.settings == 0 && Step(s, a).flags.settings == 7
  {
    var f := CALM.(lock := Some(1), draining := true);
    var checked := Two(Applying(7), WantLock, f);
    var s := Step(checked, Signal);
    ReachesSelf(s);
    ReachesBy(checked, Signal, s);
    FirstMoves(MidCheck(7), WantLock, f, GoesOn, None, s);
    FirstMoves(Quiescing(7), WantLock, f, GoesOn, None, s);
    FirstDrains(s);
    ReachableFromBoot(s);
    assert Step(s, TaskStep(1, GoesOn, None)).flags.settings == 7;
  }

  /** The second recycle drains; task 3 is the recovery of the first. */
  function Recovering(pc: Pc, f: Flags): State
  {
    State(map[2 := Task(Recycle, Quiescing(8)), 3 := Task(Recovery, pc)], 4, f)
  }

  lemma RecoveryMoves(pc: Pc, f: Flags, next: Pc, f': Flags, t: State)
    requires !pc.Finished? && !pc.WantLock? && Move(f, 3, Task(Recovery, pc), GoesOn, None) == Effect(f', next)
    requires Reaches(Recovering(next, f'), t)
    ensures Reaches(Recovering(pc, f), t)
  {
    var s, a := Recovering(pc, f), TaskStep(3, GoesOn, None);
    assert Step(s, a).tasks == Recovering(next, f').tasks;
    ReachesBy(s, a, t);
  }

  lemma FailureReaped(t: State)
    requires Reaches(Recovering(RecoverCheck, CALM.(lock := Some(2), draining := true)), t)
    ensures Reaches(Two(Finished(Failed), Quiescing(8), CALM.(lock := Some(2), draining := true)), t)
  {
    var f := CALM.(lock := Some(2), draining := true);
    var s := Two(Finished(Failed), Quiescing(8), f);
    assert Step(s, Reap(1)).tasks == Recovering(RecoverCheck, f).tasks;
    ReachesBy(s, Reap(1), t);
  }

  /** The recovery of a failed recycle can lift the refusal of the next one, which is draining. */
  lemma RecoveryLiftsRefusal()
    ensures exists s, a :: Reachable(s) && Enabled(s, a) && HolderRefuses(s) && Lifts(s, a)
                        && s.flags.draining && !Step(s, a).flags.draining && !s.flags.shuttingDown
  {
    var f := CALM.(lock := Some(2), draining := true);
    var s, a := Recovering(RecoverClear, f), TaskStep(3, GoesOn, None);
    ReachesSelf(s);
    RecoveryMoves(RecoverCheck, f, RecoverClear, f, s);
    FailureReaped(s);
    SecondDrains(s);
    ReachableFromBoot(s);
    RecoveryClears(f);
  }

  lemma RecoveryClears(f: Flags)
    requires f.lock == Some(2)
    ensures var s, a := Recovering(RecoverClear, f), TaskStep(3, GoesOn, None);
      Enabled(s, a) && Lifts(s, a) && !Step(s, a).flags.draining
  {
  }

  /** The first recycle raises in its drain; the second takes the lock and drains in turn. */
  lemma SecondDrains(t: State)
    requires Reaches(Two(Finished(Failed), Quiescing(8), CALM.(lock := Some(2), draining := true)), t)
    ensures Reaches(BOOTED, t)
  {
    var held, drains := CALM.(lock := Some(1)), CALM.(lock := Some(1), draining := true);
    var held2 := CALM.(lock := Some(2));
    SecondMoves(Finished(Failed), SetDraining(8), held2, GoesOn, None, t);
    SecondMoves(Finished(Failed), Validate, held2, GoesOn, Some(8), t);
    SecondMoves(Finished(Failed), WantLock, CALM, GoesOn, None, t);
    FirstMoves(Releasing(Failed), WantLock, held, GoesOn, None, t);
    FirstMoves(FinallyClear(Failed), WantLock, drains, GoesOn, None, t);
    FirstMoves(FinallyCheck(Failed), WantLock, drains, GoesOn, None, t);
    FirstMoves(Quiescing(7), WantLock, drains, Raises, None, t);
    FirstDrains(t);
  }

  // ----- the object -----

  /** lifecycle.Lifecycle with the flags it shares with the registry and the app. Each method runs
      one step; `View` is the state the lemmas above speak of. */
  class Runtime {
    var tasks: map<nat, Task>
    var nextId: nat
    var lock: Option<nat>
    var draining: bool
    var shuttingDown: bool
    var shutdown: Shutdown
    var settings: Settings
    var forcedExit: bool

    ghost function View(): State
      reads this
    {
      State(tasks, nextId, Flags(lock, draining, shuttingDown, shutdown, settings, forcedExit))
    }

    constructor (settings: Settings)
      ensures Init(View()) && Inv(View()) && View().flags.settings == settings
    {
      tasks, nextId, lock, draining := map[0 := Task(Boot, Starting)], 1, None, false;
      shuttingDown, shutdown, this.settings, forcedExit := false, Idle, settings, false;
    }

    method OnTermSignal()
      modifies this
      ensures shuttingDown && shutdown == (if old(shuttingDown) then old(shutdown) else Scheduled)
      ensures unchanged(`tasks, `nextId, `lock, `draining, `settings, `forcedExit)
      ensures View() == Step(old(View()), Signal)
      ensures old(Inv(View())) ==> Inv(View())
    {
      ghost var before := View();
      if !shuttingDown {
        shuttingDown := true;
        shutdown := Scheduled;
      }
      if Inv(before) { StepKeepsInv(before, Signal); }
    }

    method RequestRecycle()
      requires Inv(View()) && Enabled(View(), Hup)
      modifies this
      ensures View().flags == old(View().flags)
      ensures tasks == if shuttingDown then old(tasks) else old(tasks)[old(nextId) := Task(Recycle, WantLock)]
      ensures View() == Step(old(View()), Hup) && Inv(View())
    {
      StepKeepsInv(View(), Hup);
      if !shuttingDown {
        tasks := tasks[nextId := Task(Recycle, WantLock)];
        nextId := nextId + 1;
      }
    }

    method GracefulShutdown()
      requires Inv(View()) && Enabled(View(), ShutdownStep)
      modifies this
      ensures draining && unchanged(`tasks, `nextId, `lock, `settings, `shuttingDown, `forcedExit)
      ensures shutdown == if old(shutdown).Scheduled? then Draining else HandedOff
      ensures View() == Step(old(View()), ShutdownStep) && Inv(View())
    {
      StepKeepsInv(View(), ShutdownStep);
      if shutdown.Scheduled? {
        shutdown := Draining;
        draining := true;
      } else {
        shutdown := HandedOff;
      }
    }

    method OnRecycleTaskDone(id: nat)
      requires Inv(View()) && Enabled(View(), Reap(id))
      modifies this
      ensures View().flags == old(View().flags)
      ensures if old(tasks)[id].pc == Finished(Failed) && (old(tasks)[id].kind.Recycle? || old(tasks)[id].kind.Recovery?)
              then tasks == (old(tasks) - {id})[old(nextId) := Task(Recovery, RecoverCheck)]
              else tasks == old(tasks) - {id}
      ensures View() == Step(old(View()), Reap(id)) && Inv(View())
    {
      StepKeepsInv(View(), Reap(id));
      var t := tasks[id];
      tasks := tasks - {id};
      if t.pc == Finished(Failed) && !t.kind.Boot? {
        tasks := tasks[nextId := Task(Recovery, RecoverCheck)];
        nextId := nextId + 1;
      }
    }

    method RunTask(id: nat, fate: Fate, reload: Option<Settings>)
      requires Inv(View()) && Enabled(View(), TaskStep(id, fate, reload))
      modifies this
      ensures View() == Step(old(View()), TaskStep(id, fate, reload)) && Inv(View())
    {
      StepKeepsInv(View(), TaskStep(id, fate, reload));
      var t := tasks[id];
      var next := Advance(id, t, fate, reload);
      tasks := tasks[id := t.(pc := next)];
    }

    /** One step of a task's own code: recycle_runtime, _recover_failed_recycle or startup. */
    method Advance(id: nat, t: Task, fate: Fate, reload: Option<Settings>) returns (next: Pc)
      modifies this
      ensures unchanged(`tasks) && unchanged(`nextId)
      ensures lock == (if t.pc.WantLock? && fate.GoesOn? then Some(id) else if t.pc.Releasing? then None else old(lock))
      ensures draining == (t.pc.SetDraining?
                           || (old(draining) && !t.pc.FinallyClear? && !t.pc.RecoverClear? && !t.pc.StartupClear?))
      ensures settings == if t.pc.Applying? && fate.GoesOn? then t.pc.v else old(settings)
      ensures shuttingDown != old(shuttingDown) || forcedExit != old(forcedExit) ==> t.kind.Recovery? && !fate.GoesOn?
      ensures Effect(View().flags, next) == Move(old(View().flags), id, t, fate, reload)
    {
      MoveWrites(View().flags, id, t, fate, reload);
      if t.pc.RecoverCheck? || t.pc.RecoverClear? || InStartup(t.pc) {
        next := AdvanceStartup(id, t, fate, reload);
      } else {
        next := AdvanceRecycle(id, t, fate, reload);
      }
    }

    /** One step of _recover_failed_recycle or startup. */
    method AdvanceStartup(id: nat, t: Task, fate: Fate, reload: Option<Settings>) returns (next: Pc)
      requires t.pc.RecoverCheck? || t.pc.RecoverClear? || InStartup(t.pc)
      modifies this
      ensures unchanged(`tasks) && unchanged(`nextId)
      ensures Effect(View().flags, next) == Move(old(View().flags), id, t, fate, reload)
    {
      match t.pc {
        case RecoverCheck => next := if shuttingDown then Finished(Succeeded) else RecoverClear;
        case RecoverClear => draining, next := false, Starting;
        case Starting => next := Await(t.kind, fate, StartupCheck);
        case StartupCheck => next := if shuttingDown then AutoStarting else StartupClear;
        case StartupClear => draining, next := false, AutoStarting;
        case AutoStarting =>
          next := Await(t.kind, fate, if t.kind.Recycle? then FinallyCheck(Succeeded) else Finished(Succeeded));
      }
    }

    /** One step of recycle_runtime outside its startup. */
    method AdvanceRecycle(id: nat, t: Task, fate: Fate, reload: Option<Settings>) returns (next: Pc)
      requires !t.pc.RecoverCheck? && !t.pc.RecoverClear? && !InStartup(t.pc)
      modifies this
      ensures unchanged(`tasks) && unchanged(`nextId)
      ensures Effect(View().flags, next) == Move(old(View().flags), id, t, fate, reload)
    {
      next := t.pc;
      match t.pc {
        case WantLock =>
          if fate.GoesOn? { lock, next := Some(id), Validate; } else { next := Finished(Cancelled); }
        case Validate =>
          if shuttingDown || reload.None? { next := Releasing(Succeeded); } else { next := SetDraining(reload.value); }
        case SetDraining(v) => draining, next := true, Quiescing(v);
        case Quiescing(v) => next := Await(t.kind, fate, MidCheck(v));
        case MidCheck(v) => next := if shuttingDown then FinallyCheck(Succeeded) else Applying(v);
        case Applying(v) =>
          if fate.GoesOn? { settings, next := v, Recycling; } else { next := Throw(t.kind, Failed); }
        case Recycling => next := Await(t.kind, fate, Starting);
        case FinallyCheck(o) => next := if shuttingDown then Releasing(o) else FinallyClear(o);
        case FinallyClear(o) => draining, next := false, Releasing(o);
        case Releasing(o) => lock, next := None, Finished(o);
        case Finished(_) =>
      }
    }

    method Throw(kind: Kind, outcome: Outcome) returns (next: Pc)
      modifies this
      ensures unchanged(`tasks) && unchanged(`nextId)
      ensures Effect(View().flags, next) == Thrown(old(View().flags), kind, outcome)
    {
      match kind {
        case Recycle => next := FinallyCheck(outcome);
        case Boot => next := Finished(outcome);
        case Recovery =>
          next := Finished(outcome);
          if outcome.Failed? {
            forcedExit, next := true, Finished(Succeeded);
            OnTermSignal();
          }
      }
    }

    method Await(kind: Kind, fate: Fate, resumed: Pc) returns (next: Pc)
      modifies this
      ensures unchanged(`tasks) && unchanged(`nextId)
      ensures Effect(View().flags, next) == Awaited(old(View().flags), kind, fate, resumed)
    {
      match fate {
        case GoesOn => next := resumed;
        case Raises => next := Throw(kind, Failed);
        case IsCancelled => next := Throw(kind, Cancelled);
      }
    }
  }
}
