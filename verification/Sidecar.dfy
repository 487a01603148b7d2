/** Live sidecar sockets by workspace, and the drop-rule acks that callers wait on.

    A future is named by its ack id. Completing one only schedules its done-callback; the event
    loop runs the callback later, in any order with everything else. */
module Sidecar {

  /** Workspace and ack ids. */
  type Name = string

  type Socket = nat

  datatype Future = Waiting | Resolved(ok: bool) | Cancelled

  datatype State = State(conns: map<Name, Socket>, pending: map<Name, Name>, futures: map<Name, Future>,
                         callbacks: set<Name>)

  datatype Action =
    | Register(ws: Name, sock: Socket)
    | Deregister(ws: Name, sock: Socket)
    | SendDrop(ws: Name, id: Name, enqueued: bool)
    | Ack(id: Name, ok: bool)
    | TimeOut(id: Name)
    | RunCallback(id: Name)
    | Stop

  const EMPTY := State(map[], map[], map[], {})

  function Waits(futures: map<Name, Future>): set<Name> { set id | id in futures && futures[id].Waiting? }

  /** Every waiting future in `ids` gets `outcome`; one that is done is left alone. */
  function Settle(futures: map<Name, Future>, ids: set<Name>, outcome: Future): map<Name, Future>
  {
    map id | id in futures :: if id in ids && futures[id].Waiting? then outcome else futures[id]
  }

  function Settled(st: State, ids: set<Name>, outcome: Future): State
  {
    st.(futures := Settle(st.futures, ids, outcome), callbacks := st.callbacks + ids * Waits(st.futures))
  }

  /** The acks waiting on one workspace's sidecar. */
  function AcksOf(pending: map<Name, Name>, ws: Name): set<Name> { set id | id in pending && pending[id] == ws }

  function Step(st: State, a: Action): State
  {
    match a
    case Register(ws, sock) => st.(conns := st.conns[ws := sock])
    case Deregister(ws, sock) =>
      if ws in st.conns && st.conns[ws] != sock then st
      else
        var stale := AcksOf(st.pending, ws);
        Settled(st, stale, Resolved(false)).(conns := st.conns - {ws}, pending := st.pending - stale)
    case SendDrop(ws, id, enqueued) =>
      if ws !in st.conns then st
      else st.(futures := st.futures[id := Waiting], pending := if enqueued then st.pending[id := ws] else st.pending - {id})
    case Ack(id, ok) =>
      if id !in st.pending then st else Settled(st, {id}, Resolved(ok)).(pending := st.pending - {id})
    case TimeOut(id) => Settled(st, {id}, Cancelled)
    case RunCallback(id) => st.(pending := st.pending - {id}, callbacks := st.callbacks - {id})
    case Stop => Settled(st, st.pending.Keys, Resolved(false)).(conns := map[], pending := map[])
  }

  /** A new ack id is new, and a callback runs only once it is scheduled. */
  predicate Enabled(st: State, a: Action)
  {
    (a.SendDrop? ==> a.id !in st.futures) && (a.RunCallback? ==> a.id in st.callbacks)
  }

  /** Settling one more id. */
  lemma SettleOneMore(futures: map<Name, Future>, ids: set<Name>, id: Name)
    requires id in futures && id !in ids
    ensures var before, after := Settle(futures, ids, Resolved(false)), Settle(futures, ids + {id}, Resolved(false));
      && before[id] == futures[id]
      && after == (if futures[id].Waiting? then before[id := Resolved(false)] else before)
    ensures (ids + {id}) * Waits(futures) == ids * Waits(futures) + (if futures[id].Waiting? then {id} else {})
  {
  }

  // ----- the object -----

  class Connections {
    var conns: map<Name, Socket>
    var pending: map<Name, Name>
    var futures: map<Name, Future>
    var callbacks: set<Name>

    ghost function View(): State reads this { State(conns, pending, futures, callbacks) }

    constructor ()
      ensures View() == EMPTY
    {
      conns, pending, futures, callbacks := map[], map[], map[], {};
    }

    /** Future.set_result: only ever called on a future that is not done. */
    method SetResult(id: Name, ok: bool)
      requires id in futures && futures[id].Waiting?
      modifies `futures, `callbacks
      ensures futures == old(futures)[id := Resolved(ok)] && callbacks == old(callbacks) + {id}
    {
      futures, callbacks := futures[id := Resolved(ok)], callbacks + {id};
    }

    method DoRegister(ws: Name, sock: Socket)
      modifies this
      ensures View() == Step(old(View()), Register(ws, sock))
    {
      conns := conns[ws := sock];
    }

    /** Pop one ack and, unless its future is done, resolve it to False. */
    method FailAck(id: Name)
      requires id in futures
      modifies this
      ensures conns == old(conns) && pending == old(pending) - {id}
      ensures futures == (if old(futures)[id].Waiting? then old(futures)[id := Resolved(false)] else old(futures))
      ensures callbacks == (if old(futures)[id].Waiting? then old(callbacks) + {id} else old(callbacks))
    {
      pending := pending - {id};
      if futures[id].Waiting? {
        SetResult(id, false);
      }
    }

    /** The loops of _fail_pending_acks and stop: pop each ack and resolve it to False. */
    method FailAcks(ids: set<Name>)
      requires ids <= pending.Keys && forall id :: id in ids ==> id in futures
      modifies this
      ensures View() == Settled(old(View()), ids, Resolved(false)).(pending := old(pending) - ids)
    {
      var todo := ids;
      ghost var done: set<Name> := {};
      while todo != {}
        invariant todo + done == ids && todo !! done && conns == old(conns)
        invariant pending == old(pending) - done
        invariant futures == Settle(old(futures), done, Resolved(false))
        invariant callbacks == old(callbacks) + done * Waits(old(futures))
        decreases todo
      {
        var id :| id in todo;
        SettleOneMore(old(futures), done, id);
        FailAck(id);
        todo, done := todo - {id}, done + {id};
      }
    }

    method DoDeregister(ws: Name, sock: Socket)
      requires Inv(View())
      modifies this
      ensures View() == Step(old(View()), Deregister(ws, sock))
    {
      if ws in conns && conns[ws] != sock {
        return;
      }
      conns := conns - {ws};
      FailAcks(AcksOf(pending, ws));
    }

    /** send_drop: `sent` is false where it returns None. */
    method DoSendDrop(ws: Name, id: Name, enqueued: bool) returns (sent: bool)
      requires Enabled(View(), SendDrop(ws, id, enqueued))
      modifies this
      ensures View() == Step(old(View()), SendDrop(ws, id, enqueued))
      ensures sent == (ws in old(conns) && enqueued)
    {
      if ws !in conns {
        return false;
      }
      futures := futures[id := Waiting];
      pending := pending[id := ws];
      if !enqueued {
        pending := pending - {id};
        assert pending == old(pending) - {id};
        return false;
      }
      return true;
    }

    method ResolveAck(id: Name, ok: bool)
      requires Inv(View())
      modifies this
      ensures View() == Step(old(View()), Ack(id, ok))
    {
      if id in pending {
        pending := pending - {id};
        if futures[id].Waiting? {
          SetResult(id, ok);
        }
        assert futures == Settle(old(futures), {id}, Resolved(ok));
        assert callbacks == old(callbacks) + {id} * Waits(old(futures));
      }
    }

    method DoStop()
      requires Inv(View())
      modifies this
      ensures View() == Step(old(View()), Stop)
    {
      FailAcks(pending.Keys);
      pending, conns := map[], map[];
    }
  }

  // ----- the invariant -----

  /** Every pending entry has a future and a registered workspace, and if its future is done the
      callback is still to come; a callback is scheduled only for a done future. */
  ghost predicate Inv(st: State)
  {
    && (forall id :: id in st.pending ==> id in st.futures && st.pending[id] in st.conns)
    && (forall id :: id in st.pending && !st.futures[id].Waiting? ==> id in st.callbacks)
    && (forall id :: id in st.callbacks ==> id in st.futures && !st.futures[id].Waiting?)
  }

  lemma StepKeepsInv(st: State, a: Action)
    requires Inv(st) && Enabled(st, a)
    ensures Inv(Step(st, a))
  {
  }

  // ----- runs -----

  function After(run: seq<Action>): State
  {
    if run == [] then EMPTY else Step(After(run[..|run| - 1]), run[|run| - 1])
  }

  ghost predicate ValidRun(run: seq<Action>)
  {
    forall i :: 0 <= i < |run| ==> EnabledAt(run, i)
  }

  ghost predicate EnabledAt(run: seq<Action>, i: nat)
    requires i < |run|
  {
    Enabled(After(run[..i]), run[i])
  }

  lemma AfterStep(run: seq<Action>, i: nat)
    requires i < |run|
    ensures After(run[..i + 1]) == Step(After(run[..i]), run[i])
  {
    assert run[..i + 1][..i] == run[..i];
  }

  lemma {:induction false} RunKeepsInv(run: seq<Action>, i: nat)
    requires ValidRun(run) && i <= |run|
    ensures Inv(After(run[..i]))
  {
    if i > 0 {
      RunKeepsInv(run, i - 1);
      AfterStep(run, i - 1);
      assert EnabledAt(run, i - 1);
      StepKeepsInv(After(run[..i - 1]), run[i - 1]);
    }
  }

  /** A timed-out or resolved wait does not leak: once its callback has run, its entry is gone. */
  lemma NoLeak(run: seq<Action>, id: Name)
    requires ValidRun(run) && id in After(run).pending && id !in After(run).callbacks
    ensures id in After(run).futures && After(run).futures[id].Waiting?
  {
    assert run[..|run|] == run;
    RunKeepsInv(run, |run|);
  }

  /** One step leaves a done future alone, and makes one True only by a positive ack for it. */
  lemma StepOnFuture(st: State, a: Action, id: Name)
    requires Enabled(st, a) && Inv(st)
    ensures id in st.futures && !st.futures[id].Waiting? ==>
      id in Step(st, a).futures && Step(st, a).futures[id] == st.futures[id]
    ensures id in Step(st, a).futures && Step(st, a).futures[id] == Resolved(true) ==>
      (id in st.futures && st.futures[id] == Resolved(true)) || (a == Ack(id, true) && id in st.pending)
  {
  }

  /** A future completes at most once: what it completed with is final. */
  lemma {:induction false} CompletesOnce(run: seq<Action>, i: nat, j: nat, id: Name)
    requires ValidRun(run) && i <= j <= |run|
    requires id in After(run[..i]).futures && !After(run[..i]).futures[id].Waiting?
    ensures id in After(run[..j]).futures && After(run[..j]).futures[id] == After(run[..i]).futures[id]
    decreases j
  {
    if i < j {
      CompletesOnce(run, i, j - 1, id);
      DoneStays(run, j - 1, id, After(run[..i]).futures[id]);
    }
  }

  lemma DoneStays(run: seq<Action>, j: nat, id: Name, outcome: Future)
    requires ValidRun(run) && j < |run| && !outcome.Waiting?
    requires id in After(run[..j]).futures && After(run[..j]).futures[id] == outcome
    ensures id in After(run[..j + 1]).futures && After(run[..j + 1]).futures[id] == outcome
  {
    AfterStep(run, j);
    RunKeepsInv(run, j);
    assert EnabledAt(run, j);
    StepOnFuture(After(run[..j]), run[j], id);
  }

  /** A future is True only through a positive ack that carries its own id, while it was pending. */
  lemma {:induction false} TrueOnlyByOwnAck(run: seq<Action>, n: nat, id: Name)
    requires ValidRun(run) && n <= |run|
    requires id in After(run[..n]).futures && After(run[..n]).futures[id] == Resolved(true)
    ensures exists k :: 0 <= k < n && run[k] == Ack(id, true) && id in After(run[..k]).pending
    decreases n
  {
    if n > 0 {
      var st := After(run[..n - 1]);
      AfterStep(run, n - 1);
      RunKeepsInv(run, n - 1);
      assert EnabledAt(run, n - 1);
      StepOnFuture(st, run[n - 1], id);
      if id in st.futures && st.futures[id] == Resolved(true) {
        TrueOnlyByOwnAck(run, n - 1, id);
      }
    }
  }

  /** The run neither replaces, nor lets its owner drop, the registration of `ws`. */
  predicate Leaves(a: Action, ws: Name, sock: Socket)
  {
    !a.Stop? && !(a.Register? && a.ws == ws) && a != Deregister(ws, sock)
  }

  /** A registration stays until it is replaced, dropped by its own socket, or the server stops; no
      other socket's teardown, early or late, removes it. */
  lemma {:induction false} RegistrationStays(run: seq<Action>, i: nat, j: nat, ws: Name, sock: Socket)
    requires i < j <= |run| && run[i] == Register(ws, sock)
    requires forall k :: i < k < j ==> Leaves(run[k], ws, sock)
    ensures ws in After(run[..j]).conns && After(run[..j]).conns[ws] == sock
    decreases j
  {
    AfterStep(run, j - 1);
    if i + 1 < j {
      RegistrationStays(run, i, j - 1, ws, sock);
    }
  }

  /** While a workspace is not registered, no ack for it is pending. */
  lemma UnregisteredHasNoAcks(run: seq<Action>, n: nat, ws: Name)
    requires ValidRun(run) && n <= |run| && ws !in After(run[..n]).conns
    ensures AcksOf(After(run[..n]).pending, ws) == {}
  {
    RunKeepsInv(run, n);
  }

  /** Step `i` is a stop, or takes the registration of `ws` away: by its owner, or by anyone if there is
      none. */
  predicate Drops(run: seq<Action>, i: nat, ws: Name)
    requires i < |run|
  {
    var conns := After(run[..i]).conns;
    run[i].Stop? || (run[i].Deregister? && run[i].ws == ws && (ws in conns ==> conns[ws] == run[i].sock))
  }

  lemma {:induction false} StaysUnregistered(run: seq<Action>, i: nat, j: nat, ws: Name)
    requires i < j <= |run| && Drops(run, i, ws)
    requires forall k :: i < k < j ==> !(run[k].Register? && run[k].ws == ws)
    ensures ws !in After(run[..j]).conns
    decreases j
  {
    AfterStep(run, j - 1);
    if i + 1 < j {
      StaysUnregistered(run, i, j - 1, ws);
    }
  }

  /** From the owner's deregister or a stop on, and until the workspace registers again: no ack for it
      is pending, whatever is sent meanwhile, and everyone who waited for one has an answer. */
  lemma DeregisterFailsAcks(run: seq<Action>, i: nat, j: nat, ws: Name)
    requires ValidRun(run) && i < j <= |run| && Drops(run, i, ws)
    requires forall k :: i < k < j ==> !(run[k].Register? && run[k].ws == ws)
    ensures AcksOf(After(run[..j]).pending, ws) == {}
    ensures forall id :: id in AcksOf(After(run[..i]).pending, ws) ==>
      id in After(run[..j]).futures && !After(run[..j]).futures[id].Waiting?
  {
    StaysUnregistered(run, i, j, ws);
    UnregisteredHasNoAcks(run, j, ws);
    forall id | id in AcksOf(After(run[..i]).pending, ws)
      ensures id in After(run[..j]).futures && !After(run[..j]).futures[id].Waiting?
    {
      DropAnswers(run, i, ws, id);
      CompletesOnce(run, i + 1, j, id);
    }
  }

  lemma DropAnswers(run: seq<Action>, i: nat, ws: Name, id: Name)
    requires ValidRun(run) && i < |run| && Drops(run, i, ws) && id in AcksOf(After(run[..i]).pending, ws)
    ensures id in After(run[..i + 1]).futures && !After(run[..i + 1]).futures[id].Waiting?
  {
    AfterStep(run, i);
    RunKeepsInv(run, i);
  }

  // ----- what answers a caller -----

  /** A drop request that reaches the sidecar's queue is pending and waits; any other leaves no ack. */
  lemma SendWaits(run: seq<Action>, i: nat)
    requires ValidRun(run) && i < |run| && run[i].SendDrop?
    ensures var st, a := After(run[..i + 1]), run[i];
      if a.ws in After(run[..i]).conns && a.enqueued then WaitsFor(st, a.id, a.ws) else a.id !in st.pending
  {
    AfterStep(run, i);
    RunKeepsInv(run, i);
    assert EnabledAt(run, i);
  }

  /** The ack is pending for the workspace, and its caller waits. */
  predicate WaitsFor(st: State, id: Name, ws: Name)
  {
    id in st.pending && st.pending[id] == ws && id in st.futures && st.futures[id].Waiting?
  }

  /** Step `k` answers the caller of ack `id`: its own ack or timeout, or the loss of its workspace. */
  predicate Answers(run: seq<Action>, k: nat, id: Name, ws: Name)
    requires k < |run|
  {
    (run[k].Ack? && run[k].id == id) || run[k] == TimeOut(id) || Drops(run, k, ws)
  }

  /** What the caller is told. */
  function AnswerOf(a: Action): Future
  {
    match a
    case Ack(_, ok) => Resolved(ok)
    case TimeOut(_) => Cancelled
    case _ => Resolved(false)
  }

  lemma StepWhileWaiting(run: seq<Action>, k: nat, id: Name, ws: Name)
    requires ValidRun(run) && k < |run| && WaitsFor(After(run[..k]), id, ws)
    ensures !Answers(run, k, id, ws) ==> WaitsFor(After(run[..k + 1]), id, ws)
    ensures Answers(run, k, id, ws) ==>
      var st := After(run[..k + 1]);
      id in st.futures && st.futures[id] == AnswerOf(run[k]) && id in st.callbacks && (id in st.pending ==> run[k].TimeOut?)
  {
    AfterStep(run, k);
    RunKeepsInv(run, k);
    assert EnabledAt(run, k);
  }

  /** A caller goes on waiting, with its ack pending, until something answers it. */
  lemma {:induction false} WaitsUntilAnswered(run: seq<Action>, i: nat, j: nat, id: Name, ws: Name)
    requires ValidRun(run) && i <= j <= |run| && WaitsFor(After(run[..i]), id, ws)
    requires forall k :: i <= k < j ==> !Answers(run, k, id, ws)
    ensures WaitsFor(After(run[..j]), id, ws)
    decreases j
  {
    if i < j {
      WaitsUntilAnswered(run, i, j - 1, id, ws);
      StepWhileWaiting(run, j - 1, id, ws);
    }
  }

  /** The first thing that answers a caller decides what it is told, for good: the ack's own verdict, a
      cancellation for its timeout, or False where its workspace is dropped or the server stops. */
  lemma FirstAnswerDecides(run: seq<Action>, i: nat, k: nat, j: nat, id: Name, ws: Name)
    requires ValidRun(run) && i <= k < j <= |run| && WaitsFor(After(run[..i]), id, ws)
    requires Answers(run, k, id, ws) && forall m :: i <= m < k ==> !Answers(run, m, id, ws)
    ensures id in After(run[..j]).futures && After(run[..j]).futures[id] == AnswerOf(run[k])
  {
    WaitsUntilAnswered(run, i, k, id, ws);
    StepWhileWaiting(run, k, id, ws);
    CompletesOnce(run, k + 1, j, id);
  }
}
