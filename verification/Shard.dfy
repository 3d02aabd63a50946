/** The worker life cycle of c/sharded_ohtable/shard.c: any number of threads calling
    shard_run, shard_stop, shard_wait and the request functions on one shard, interleaved
    at every atomic step.  Queue operations are the mutex-held passes of `Queue` that get through. */
module Shard {
  import Queue

  type Tid = nat
  type Wid = nat

  datatype Slot = IDLE | RUNNING | STOPPING
  datatype Kind = Insert | Query | Stop | Clear | Wait
  datatype Waiter = NoWaiter | Waiter(w: Wid)
  datatype Req = Req(kind: Kind, waiter: Waiter)

  datatype Pc =
    | Outside
    // shard_run, after its compare-exchange succeeded
    | Starting | Looping | Fetching | Handling(req: Req) | Finishing(req: Req) | Exiting
    | Aborted                      // the CHECK at the end of shard_run failed
    // shard_stop, after its compare-exchange succeeded, before its request is queued
    | Claimed
    // shard_stop and shard_wait, blocked until the waiter of the request at `pos` is done
    | Awaiting(w: Wid, pos: nat)

  datatype State = State(
    running: Slot, keepAlive: bool, queue: seq<Req>, done: set<Wid>, pc: map<Tid, Pc>,
    // history: everything ever queued, everything fully handled, waiters handed out
    queued: seq<Req>, handled: seq<Req>, waiters: nat)

  datatype Action =
    | RunCas | SetAlive | Test | Fetch | Handle | Finish | ExitCas
    | StopCas | StopEnqueue | WaitEnqueue | Submit(kind: Kind) | Return

  predicate Enabled(s: State, t: Tid, a: Action) {
    t in s.pc &&
    match a
    case RunCas => s.pc[t].Outside?
    case SetAlive => s.pc[t].Starting?
    case Test => s.pc[t].Looping?
    case Fetch => s.pc[t].Fetching? && Queue.TakeFrom(s.queue, true).0.Taken?
    case Handle => s.pc[t].Handling?
    case Finish => s.pc[t].Finishing?
    case ExitCas => s.pc[t].Exiting?
    case StopCas => s.pc[t].Outside?
    case StopEnqueue => s.pc[t].Claimed? && Accepts(s, NewReq(s, a))
    case WaitEnqueue => s.pc[t].Outside? && Accepts(s, NewReq(s, a))
    case Submit(k) => s.pc[t].Outside? && Accepts(s, NewReq(s, a)) && (k.Insert? || k.Query? || k.Clear?)
    case Return => s.pc[t].Awaiting? && s.pc[t].w in s.done
  }

  // The request an enqueuing action creates; stop and wait carry a waiter.
  function NewReq(s: State, a: Action): Req {
    if a.StopEnqueue? then Req(Stop, Waiter(s.waiters))
    else if a.Submit? then Req(a.kind, NoWaiter)
    else Req(Wait, Waiter(s.waiters))
  }

  // queue_add_item goes through; nobody closes the queue.
  predicate Accepts(s: State, r: Req) { Queue.AddTo(s.queue, false, r).0.Accepted? }

  function Enqueue(s: State, r: Req): State {
    s.(queue := Queue.AddTo(s.queue, false, r).1, queued := s.queued + [r])
  }

  function EnqueueAndAwait(s: State, t: Tid, r: Req): State {
    Enqueue(s, r).(waiters := s.waiters + 1, pc := s.pc[t := Awaiting(s.waiters, |s.queued|)])
  }

  function Apply(s: State, t: Tid, a: Action): State
    requires Enabled(s, t, a)
  {
    match a
    case RunCas => if s.running.IDLE? then s.(running := RUNNING, pc := s.pc[t := Starting]) else s
    case SetAlive => s.(keepAlive := true, pc := s.pc[t := Looping])
    case Test => s.(pc := s.pc[t := if s.keepAlive then Fetching else Exiting])
    case Fetch =>
      var (r, rest) := Queue.TakeFrom(s.queue, true);
      s.(queue := rest, pc := s.pc[t := Handling(r.item)])
    case Handle =>
      var r := s.pc[t].req;
      s.(keepAlive := if r.kind.Stop? then false else s.keepAlive, pc := s.pc[t := Finishing(r)])
    case Finish =>
      var r := s.pc[t].req;
      s.(done := if r.waiter.Waiter? then s.done + {r.waiter.w} else s.done,
         handled := s.handled + [r], pc := s.pc[t := Looping])
    case ExitCas =>
      if s.running.STOPPING? then s.(running := IDLE, pc := s.pc[t := Outside])
      else s.(pc := s.pc[t := Aborted])
    case StopCas => if s.running.RUNNING? then s.(running := STOPPING, pc := s.pc[t := Claimed]) else s
    case StopEnqueue => EnqueueAndAwait(s, t, NewReq(s, a))
    case WaitEnqueue => EnqueueAndAwait(s, t, NewReq(s, a))
    case Submit(_) => Enqueue(s, NewReq(s, a))
    case Return => s.(pc := s.pc[t := Outside])
  }

  ghost predicate Init(s: State) {
    && s.running == IDLE && !s.keepAlive && s.queue == [] && s.queued == [] && s.handled == []
    && s.done == {} && s.waiters == 0
    && forall t :: t in s.pc ==> s.pc[t] == Outside
  }

  datatype Event = Event(t: Tid, a: Action)

  ghost predicate Run(tr: seq<State>, evs: seq<Event>) {
    && |tr| == |evs| + 1 && Init(tr[0])
    && forall i :: 0 <= i < |evs| ==> Enabled(tr[i], evs[i].t, evs[i].a) && tr[i + 1] == Apply(tr[i], evs[i].t, evs[i].a)
  }

  // ----- worker ownership and the one outstanding stop

  predicate InWorker(p: Pc) {
    p.Starting? || p.Looping? || p.Fetching? || p.Handling? || p.Finishing? || p.Exiting?
  }

  predicate StopHere(p: Pc) {
    p.Handling? && p.req.kind.Stop?
  }

  predicate StopDone(p: Pc, keepAlive: bool) {
    (p.Finishing? && p.req.kind.Stop?) || (p.Looping? && !keepAlive) || p.Exiting?
  }

  // Anyone who deals with a stop, from claiming it to leaving because of it.
  predicate Stopping(p: Pc) { p.Claimed? || StopHere(p) || p.Exiting? }

  // A worker that will look at the queue, or is handling a request, before it can leave.
  predicate Serving(p: Pc, keepAlive: bool) {
    InWorker(p) && !p.Exiting? && (p.Looping? ==> keepAlive)
  }

  function Stops(q: seq<Req>): nat {
    if q == [] then 0 else (if q[0].kind.Stop? then 1 else 0) + Stops(q[1..])
  }

  // How far the one stop has come: claimed by a thread, in the queue, or taken by the worker.
  datatype Stage = None | ClaimedBy(t: Tid) | InQueue | AtWorker | Cleared

  // `owner` is the thread in the worker loop, if any.
  datatype Owner = Nobody | Owner(t: Tid)

  ghost predicate Ownership(s: State, o: Owner, g: Stage) {
    && (forall t :: t in s.pc ==> !s.pc[t].Aborted?)
    && (forall t :: t in s.pc && InWorker(s.pc[t]) ==> o == Owner(t))
    && (forall t :: t in s.pc && s.pc[t].Claimed? ==> g == ClaimedBy(t))
    && (s.running.IDLE? <==> o.Nobody?)
    && (s.running.STOPPING? <==> !g.None?)
    && (o.Owner? ==> o.t in s.pc && InWorker(s.pc[o.t]))
    && (g.ClaimedBy? ==> g.t in s.pc && s.pc[g.t].Claimed?)
    && Stops(s.queue) == (if g.InQueue? then 1 else 0)
    && (g.AtWorker? <==> o.Owner? && StopHere(s.pc[o.t]))
    && (g.Cleared? <==> o.Owner? && StopDone(s.pc[o.t], s.keepAlive))
    && (o.Owner? && !s.pc[o.t].Starting? ==> (s.keepAlive <==> !g.Cleared?))
  }

  lemma {:induction false} StopsAppend(q: seq<Req>, r: Req)
    ensures Stops(q + [r]) == Stops(q) + (if r.kind.Stop? then 1 else 0)
  {
    if q != [] {
      StopsAppend(q[1..], r);
      assert (q + [r])[1..] == q[1..] + [r];
    } else {
      assert (q + [r])[1..] == [];
    }
  }

  function NextOwner(s: State, t: Tid, a: Action, o: Owner): Owner {
    if a.RunCas? && s.running.IDLE? then Owner(t)
    else if a.ExitCas? then Nobody
    else o
  }

  function NextStage(s: State, t: Tid, a: Action, g: Stage): Stage
    requires Enabled(s, t, a)
  {
    match a
    case StopCas => if s.running.RUNNING? then ClaimedBy(t) else g
    case StopEnqueue => InQueue
    case Fetch => if s.queue[0].kind.Stop? then AtWorker else g
    case Handle => if s.pc[t].req.kind.Stop? then Cleared else g
    case ExitCas => None
    case _ => g
  }

  lemma LoopKeepsOwnership(s: State, t: Tid, a: Action, o: Owner, g: Stage)
    requires Ownership(s, o, g) && Enabled(s, t, a) && (a.Test? || a.Fetch? || a.Handle? || a.Finish?)
    ensures Ownership(Apply(s, t, a), NextOwner(s, t, a, o), NextStage(s, t, a, g))
  {
    assert o == Owner(t);
  }

  lemma SlotKeepsOwnership(s: State, t: Tid, a: Action, o: Owner, g: Stage)
    requires Ownership(s, o, g) && Enabled(s, t, a) && (a.RunCas? || a.SetAlive? || a.ExitCas? || a.StopCas? || a.Return?)
    ensures Ownership(Apply(s, t, a), NextOwner(s, t, a, o), NextStage(s, t, a, g))
  {
    hide Stops;
  }

  lemma EnqueueKeepsOwnership(s: State, t: Tid, a: Action, o: Owner, g: Stage)
    requires Ownership(s, o, g) && Enabled(s, t, a) && (a.StopEnqueue? || a.WaitEnqueue? || a.Submit?)
    ensures Ownership(Apply(s, t, a), NextOwner(s, t, a, o), NextStage(s, t, a, g))
  {
    hide Stops;
    StopsAppend(s.queue, NewReq(s, a));
  }

  lemma StepKeepsOwnership(s: State, t: Tid, a: Action, o: Owner, g: Stage)
    requires Ownership(s, o, g) && Enabled(s, t, a)
    ensures Ownership(Apply(s, t, a), NextOwner(s, t, a, o), NextStage(s, t, a, g))
  {
    hide Ownership, Apply, NextOwner, NextStage, Enabled;
    if a.Test? || a.Fetch? || a.Handle? || a.Finish? {
      LoopKeepsOwnership(s, t, a, o, g);
    } else if a.StopEnqueue? || a.WaitEnqueue? || a.Submit? {
      EnqueueKeepsOwnership(s, t, a, o, g);
    } else {
      SlotKeepsOwnership(s, t, a, o, g);
    }
  }

  lemma {:induction false} RunKeepsOwnership(tr: seq<State>, evs: seq<Event>, n: nat) returns (o: Owner, g: Stage)
    requires Run(tr, evs) && n < |tr|
    ensures Ownership(tr[n], o, g)
  {
    if n == 0 {
      o, g := Nobody, None;
    } else {
      var o0, g0 := RunKeepsOwnership(tr, evs, n - 1);
      var e := evs[n - 1];
      assert tr[n] == Apply(tr[n - 1], e.t, e.a);
      StepKeepsOwnership(tr[n - 1], e.t, e.a, o0, g0);
      o, g := NextOwner(tr[n - 1], e.t, e.a, o0), NextStage(tr[n - 1], e.t, e.a, g0);
    }
  }

  // A stop request claimed but not yet queued, or taken but not yet handled.
  predicate Outstanding(p: Pc) { p.Claimed? || StopHere(p) }

  /** In every run: never two workers; at most one stop, be it claimed, queued or taken, and only
      while the slot is STOPPING; keep_alive falls only by handling it; and no CHECK ever fails. */
  lemma WorkerSafety(tr: seq<State>, evs: seq<Event>, n: nat)
    requires Run(tr, evs) && n < |tr|
    ensures forall t :: t in tr[n].pc ==> !tr[n].pc[t].Aborted?
    ensures forall t, u :: t in tr[n].pc && u in tr[n].pc && InWorker(tr[n].pc[t]) && InWorker(tr[n].pc[u]) ==> t == u
    ensures Stops(tr[n].queue) <= 1
    ensures Stops(tr[n].queue) == 1 ==> tr[n].running.STOPPING?
    ensures Stops(tr[n].queue) == 1 ==> forall t :: t in tr[n].pc ==> !Outstanding(tr[n].pc[t])
    ensures forall t, u :: t in tr[n].pc && u in tr[n].pc && Outstanding(tr[n].pc[t]) && Outstanding(tr[n].pc[u]) ==> t == u
    ensures n + 1 < |tr| && tr[n].keepAlive && !tr[n + 1].keepAlive ==>
      evs[n].a.Handle? && StopHere(tr[n].pc[evs[n].t]) && tr[n].running.STOPPING?
    ensures forall t :: t in tr[n].pc && Stopping(tr[n].pc[t]) ==> tr[n].running.STOPPING?
    ensures forall t :: t in tr[n].pc && tr[n].pc[t].Fetching? ==> tr[n].keepAlive
    ensures tr[n].running.IDLE? ==> forall t :: t in tr[n].pc ==> !InWorker(tr[n].pc[t])
  {
    var o, g := RunKeepsOwnership(tr, evs, n);
    if n + 1 < |tr| {
      var e := evs[n];
      assert tr[n + 1] == Apply(tr[n], e.t, e.a);
    }
  }

  // ----- the barrier

  // The request the worker has taken off the queue but not finished.
  ghost function InHand(s: State, o: Owner): seq<Req> {
    if o.Owner? && o.t in s.pc && (s.pc[o.t].Handling? || s.pc[o.t].Finishing?) then [s.pc[o.t].req] else []
  }

  ghost predicate Logged(s: State, o: Owner) {
    && s.handled + InHand(s, o) + s.queue == s.queued
    && (forall i :: 0 <= i < |s.queued| && s.queued[i].waiter.Waiter? ==> s.queued[i].waiter.w < s.waiters)
    && (forall i, j :: 0 <= i < j < |s.queued| && s.queued[i].waiter.Waiter? ==> s.queued[i].waiter != s.queued[j].waiter)
    && (forall w :: w in s.done ==> exists i :: 0 <= i < |s.handled| && s.handled[i].waiter == Waiter(w))
    && (forall i :: 0 <= i < |s.handled| && s.handled[i].waiter.Waiter? ==> s.handled[i].waiter.w in s.done)
    && (forall t :: t in s.pc && s.pc[t].Awaiting? ==>
          s.pc[t].pos < |s.queued| && s.queued[s.pc[t].pos].waiter == Waiter(s.pc[t].w))
  }

  // Only the worker handles requests, so only its program counter matters for the log.
  ghost predicate SoleWorker(s: State, o: Owner) {
    && (forall t :: t in s.pc && InWorker(s.pc[t]) ==> o == Owner(t))
    && (o.Owner? ==> o.t in s.pc && InWorker(s.pc[o.t]))
    && (s.running.IDLE? ==> o.Nobody?)
  }

  lemma EnqueueKeepsLog(s: State, t: Tid, a: Action, o: Owner)
    requires SoleWorker(s, o) && Logged(s, o) && Enabled(s, t, a) && (a.StopEnqueue? || a.WaitEnqueue? || a.Submit?)
    ensures Logged(Apply(s, t, a), o)
  {
    hide Logged;
    LogAppend(s, o, Apply(s, t, a), NewReq(s, a));
  }

  lemma LogAppend(s: State, o: Owner, s': State, r: Req)
    requires Logged(s, o) && InHand(s', o) == InHand(s, o) && s'.handled == s.handled && s'.done == s.done
    requires s'.queue == s.queue + [r] && s'.queued == s.queued + [r]
    requires s'.waiters >= s.waiters && (r.waiter.Waiter? ==> r.waiter.w == s.waiters < s'.waiters)
    requires forall t :: t in s'.pc && s'.pc[t].Awaiting? ==>
      (t in s.pc && s.pc[t] == s'.pc[t]) || (s'.pc[t].pos == |s.queued| && r.waiter == Waiter(s'.pc[t].w))
    ensures Logged(s', o)
  {
    assert s'.handled + InHand(s', o) + s'.queue == s.handled + InHand(s, o) + s.queue + [r];
    assert forall i :: 0 <= i < |s.queued| ==> s'.queued[i] == s.queued[i];
  }

  lemma FinishKeepsLog(s: State, t: Tid, o: Owner)
    requires SoleWorker(s, o) && Logged(s, o) && Enabled(s, t, Finish)
    ensures Logged(Apply(s, t, Finish), o)
  {
    var s' := Apply(s, t, Finish);
    assert o == Owner(t) && InHand(s, o) == [s.pc[t].req] && InHand(s', o) == [];
    assert s'.handled + [] + s'.queue == s'.queued;
    forall w | w in s'.done
      ensures exists i :: 0 <= i < |s'.handled| && s'.handled[i].waiter == Waiter(w)
    {
      if w in s.done {
        var i :| 0 <= i < |s.handled| && s.handled[i].waiter == Waiter(w);
        assert s'.handled[i].waiter == Waiter(w);
      } else {
        assert s'.handled[|s.handled|].waiter == Waiter(w);
      }
    }
  }

  lemma OtherKeepsLog(s: State, t: Tid, a: Action, o: Owner)
    requires SoleWorker(s, o) && Logged(s, o) && Enabled(s, t, a)
    requires !(a.StopEnqueue? || a.WaitEnqueue? || a.Submit? || a.Finish?)
    ensures Logged(Apply(s, t, a), NextOwner(s, t, a, o))
  {
    hide Logged;
    var s', o' := Apply(s, t, a), NextOwner(s, t, a, o);
    if a.Fetch? {
      assert o == Owner(t) && InHand(s, o) == [] && InHand(s', o') == [s.queue[0]];
      assert s.queue == [s.queue[0]] + s.queue[1..];
    } else {
      assert InHand(s', o') == InHand(s, o);
    }
    LogFrame(s, o, s', o');
  }

  lemma LogFrame(s: State, o: Owner, s': State, o': Owner)
    requires Logged(s, o) && InHand(s', o') + s'.queue == InHand(s, o) + s.queue
    requires s'.queued == s.queued && s'.handled == s.handled && s'.done == s.done && s'.waiters == s.waiters
    requires forall t :: t in s'.pc && s'.pc[t].Awaiting? ==> t in s.pc && s.pc[t] == s'.pc[t]
    ensures Logged(s', o')
  {
    assert s'.handled + InHand(s', o') + s'.queue == s'.handled + (InHand(s', o') + s'.queue);
    assert s.handled + InHand(s, o) + s.queue == s.handled + (InHand(s, o) + s.queue);
  }

  lemma StepKeepsLog(s: State, t: Tid, a: Action, o: Owner, g: Stage)
    requires Ownership(s, o, g) && Logged(s, o) && Enabled(s, t, a)
    ensures Logged(Apply(s, t, a), NextOwner(s, t, a, o))
  {
    hide Logged, Apply, Enabled;
    if a.StopEnqueue? || a.WaitEnqueue? || a.Submit? {
      EnqueueKeepsLog(s, t, a, o);
    } else if a.Finish? {
      FinishKeepsLog(s, t, o);
    } else {
      OtherKeepsLog(s, t, a, o);
    }
  }

  lemma {:induction false} RunKeepsLog(tr: seq<State>, evs: seq<Event>, n: nat) returns (o: Owner, g: Stage)
    requires Run(tr, evs) && n < |tr|
    ensures Ownership(tr[n], o, g) && Logged(tr[n], o)
  {
    if n == 0 {
      o, g := Nobody, None;
    } else {
      var o0, g0 := RunKeepsLog(tr, evs, n - 1);
      var e := evs[n - 1];
      assert tr[n] == Apply(tr[n - 1], e.t, e.a);
      StepKeepsOwnership(tr[n - 1], e.t, e.a, o0, g0);
      StepKeepsLog(tr[n - 1], e.t, e.a, o0, g0);
      o, g := NextOwner(tr[n - 1], e.t, e.a, o0), NextStage(tr[n - 1], e.t, e.a, g0);
    }
  }

  /** shard_wait and shard_stop are barriers: when either may return, every request queued
      before its own, by anyone, has been fully handled, in queueing order. */
  lemma WaitIsBarrier(tr: seq<State>, evs: seq<Event>, n: nat, t: Tid)
    requires Run(tr, evs) && n < |tr| && Enabled(tr[n], t, Return)
    ensures tr[n].pc[t].pos < |tr[n].handled| <= |tr[n].queued|
    ensures tr[n].handled == tr[n].queued[..|tr[n].handled|]
  {
    var o, g := RunKeepsLog(tr, evs, n);
    var s := tr[n];
    var p := s.pc[t];
    var i :| 0 <= i < |s.handled| && s.handled[i].waiter == Waiter(p.w);
    assert s.queued[i] == s.handled[i];
  }

  lemma {:induction false} StopCounted(q: seq<Req>, i: nat)
    requires i < |q| && q[i].kind.Stop?
    ensures Stops(q) >= 1
  {
    if i > 0 { StopCounted(q[1..], i - 1); }
  }

  /** A blocked shard_stop is never abandoned: as long as its waiter is not done, some worker
      is in the loop and will come to the stop request before it can leave. */
  lemma StopHasWorker(tr: seq<State>, evs: seq<Event>, n: nat, t: Tid)
    requires Run(tr, evs) && n < |tr| && t in tr[n].pc && tr[n].pc[t].Awaiting?
    requires tr[n].pc[t].w !in tr[n].done
    ensures tr[n].pc[t].pos < |tr[n].queued|
    ensures tr[n].queued[tr[n].pc[t].pos].kind.Stop? ==>
      exists u :: u in tr[n].pc && Serving(tr[n].pc[u], tr[n].keepAlive)
  {
    var o, g := RunKeepsLog(tr, evs, n);
    var s := tr[n];
    var pos := s.pc[t].pos;
    var start := |s.handled| + |InHand(s, o)|;
    assert forall i :: 0 <= i < |s.handled| ==> s.handled[i] == s.queued[i];
    assert pos >= |s.handled|;
    if s.queued[pos].kind.Stop? {
      if pos >= start {
        assert s.queue[pos - start] == s.queued[pos];
        StopCounted(s.queue, pos - start);
      }
      assert o.Owner?;
    }
  }

  /** A worker that leaves frees the slot: the exit exchange succeeds and the next shard_run starts. */
  lemma CanRunAgain(tr: seq<State>, evs: seq<Event>, n: nat, t: Tid, u: Tid)
    requires Run(tr, evs) && n < |tr| && Enabled(tr[n], t, ExitCas)
    requires u in tr[n].pc && (u == t || tr[n].pc[u].Outside?)
    ensures var s := Apply(tr[n], t, ExitCas);
      s.running == IDLE && Enabled(s, u, RunCas) && Apply(s, u, RunCas).pc[u] == Starting
  {
    WorkerSafety(tr, evs, n);
  }

  // ----- progress

  // A thread blocked in shard_stop.
  predicate StopBlocked(s: State, t: Tid) {
    && t in s.pc && s.pc[t].Awaiting? && s.pc[t].w !in s.done
    && s.pc[t].pos < |s.queued| && s.queued[s.pc[t].pos].kind.Stop?
  }

  // What a worker at this point does next.
  function NextMove(p: Pc): Action
    requires InWorker(p)
  {
    match p
    case Starting => SetAlive
    case Looping => Test
    case Fetching => Fetch
    case Handling(_) => Handle
    case Finishing(_) => Finish
    case Exiting => ExitCas
  }

  // How many steps of the worker the request at pos is away from being finished.
  function StepsLeft(s: State, u: Tid, pos: nat): int
    requires u in s.pc
  {
    4 * (pos - |s.handled|) + match s.pc[u]
      case Starting => 5
      case Looping => 4
      case Fetching => 3
      case Handling(_) => 2
      case _ => 1
  }

  // The worker that serves a blocked stop can always go on, and that brings it one step nearer.
  lemma WorkerSteps(tr: seq<State>, evs: seq<Event>, t: Tid) returns (u: Tid)
    requires Run(tr, evs) && StopBlocked(tr[|evs|], t)
    ensures var s := tr[|evs|];
      && u in s.pc && Serving(s.pc[u], s.keepAlive) && Enabled(s, u, NextMove(s.pc[u])) && StepsLeft(s, u, s.pc[t].pos) >= 1
      && var s' := Apply(s, u, NextMove(s.pc[u]));
      && t in s'.pc && s'.pc[t] == s.pc[t] && u in s'.pc && s'.queued == s.queued
      && (s.pc[t].w in s'.done || (StopBlocked(s', t) && StepsLeft(s', u, s.pc[t].pos) == StepsLeft(s, u, s.pc[t].pos) - 1))
  {
    var n := |evs|;
    StopHasWorker(tr, evs, n, t);
    var s := tr[n];
    var o, g := RunKeepsLog(tr, evs, n);
    u :| u in s.pc && Serving(s.pc[u], s.keepAlive);
    assert o == Owner(u);
    hide Run, Stops;
    var pos := s.pc[t].pos;
    NotHandledYet(s, o, t);
    ServingStep(s, u, t);
  }

  // One step of the worker at the front of the log.
  lemma ServingStep(s: State, u: Tid, t: Tid)
    requires StopBlocked(s, t) && u in s.pc && Serving(s.pc[u], s.keepAlive) && s.pc[t].pos >= |s.handled|
    requires Logged(s, Owner(u))
    ensures Enabled(s, u, NextMove(s.pc[u])) && StepsLeft(s, u, s.pc[t].pos) >= 1
    ensures var s' := Apply(s, u, NextMove(s.pc[u]));
      && t in s'.pc && s'.pc[t] == s.pc[t] && u in s'.pc && s'.queued == s.queued
      && (s.pc[t].w in s'.done || (StopBlocked(s', t) && StepsLeft(s', u, s.pc[t].pos) == StepsLeft(s, u, s.pc[t].pos) - 1))
  {
    FrontOfLog(s, u);
    assert s.queued[s.pc[t].pos].waiter == Waiter(s.pc[t].w);
    hide Logged;
  }

  lemma FrontOfLog(s: State, u: Tid)
    requires Logged(s, Owner(u)) && u in s.pc
    ensures s.pc[u].Fetching? && |s.handled| < |s.queued| ==> s.queue != []
    ensures s.pc[u].Finishing? ==> |s.handled| < |s.queued| && s.queued[|s.handled|] == s.pc[u].req
  {
    if s.pc[u].Fetching? { assert s.queued == s.handled + s.queue; }
  }

  lemma NotHandledYet(s: State, o: Owner, t: Tid)
    requires Logged(s, o) && StopBlocked(s, t)
    ensures s.pc[t].pos >= |s.handled|
  {
    assert forall i :: 0 <= i < |s.handled| ==> s.handled[i] == s.queued[i];
  }

  // All steps from n on are the worker's.
  ghost predicate OnlyWorker(evs: seq<Event>, n: nat, u: Tid) {
    n <= |evs| && forall i :: n <= i < |evs| ==> evs[i].t == u
  }

  /** A blocked shard_stop is a bounded number of steps of its worker away from returning: from every
      reachable state the worker alone, never having to wait, comes to the stop request and finishes it. */
  lemma StopReached(tr: seq<State>, evs: seq<Event>, t: Tid) returns (tr': seq<State>, evs': seq<Event>, u: Tid)
    requires Run(tr, evs) && StopBlocked(tr[|evs|], t)
    ensures Run(tr', evs') && tr <= tr' && evs <= evs' && OnlyWorker(evs', |evs|, u)
    ensures u in tr[|evs|].pc && |evs'| - |evs| <= StepsLeft(tr[|evs|], u, tr[|evs|].pc[t].pos)
    ensures t in tr'[|evs'|].pc && tr'[|evs'|].pc[t] == tr[|evs|].pc[t] && tr[|evs|].pc[t].w in tr'[|evs'|].done
  {
    u := WorkerSteps(tr, evs, t);
    tr', evs' := Follow(tr, evs, t, u);
  }

  lemma {:induction false} Follow(tr: seq<State>, evs: seq<Event>, t: Tid, u: Tid) returns (tr': seq<State>, evs': seq<Event>)
    requires Run(tr, evs) && StopBlocked(tr[|evs|], t) && u in tr[|evs|].pc && InWorker(tr[|evs|].pc[u])
    ensures Run(tr', evs') && tr <= tr' && evs <= evs' && OnlyWorker(evs', |evs|, u)
    ensures |evs'| - |evs| <= StepsLeft(tr[|evs|], u, tr[|evs|].pc[t].pos)
    ensures t in tr'[|evs'|].pc && tr'[|evs'|].pc[t] == tr[|evs|].pc[t] && tr[|evs|].pc[t].w in tr'[|evs'|].done
    decreases StepsLeft(tr[|evs|], u, tr[|evs|].pc[t].pos)
  {
    var v := WorkerSteps(tr, evs, t);
    WorkerSafety(tr, evs, |evs|);
    assert v == u;
    hide Apply, Enabled, StepsLeft, StopBlocked, Serving, Init;
    var s := tr[|evs|];
    var a := NextMove(s.pc[u]);
    var s1 := Apply(s, u, a);
    tr', evs' := tr + [s1], evs + [Event(u, a)];
    assert Run(tr', evs');
    if s.pc[t].w !in s1.done {
      StillWorking(s, u);
      tr', evs' := Follow(tr', evs', t, u);
    }
  }

  // A serving worker is still a worker after its step.
  lemma StillWorking(s: State, u: Tid)
    requires u in s.pc && Serving(s.pc[u], s.keepAlive) && Enabled(s, u, NextMove(s.pc[u]))
    ensures InWorker(Apply(s, u, NextMove(s.pc[u])).pc[u])
  {
  }
}
