/** The bounded request queue of c/sharded_ohtable/queue.c.  `Queue` is the ring buffer as the
    source updates it, one mutex-held stretch per method; `System` interleaves those
    stretches over any set of threads with two condition variables. */
module Queue {

  const QUEUE_SIZE: nat := 20

  datatype AddOutcome = Full | Refused | Accepted
  datatype TakeOutcome<T> = Wait | Nothing | Taken(item: T)

  // What one mutex-held pass of queue_add_item does to the contents.
  function AddTo<T>(s: seq<T>, closed: bool, item: T): (AddOutcome, seq<T>) {
    if closed then (Refused, s)
    else if |s| == QUEUE_SIZE then (Full, s)
    else (Accepted, s + [item])
  }

  // What one mutex-held pass of queue_next_item does to the contents.
  function TakeFrom<T>(s: seq<T>, block: bool): (TakeOutcome<T>, seq<T>) {
    if |s| > 0 then (Taken(s[0]), s[1..])
    else if block then (Wait, s)
    else (Nothing, s)
  }

  // The place i steps after rem.
  function Place(rem: nat, i: nat): (p: nat)
    requires rem < 20 && i <= 20
    ensures p < 20
  {
    if rem + i < 20 then rem + i else rem + i - 20
  }

  lemma PlaceNext(rem: nat, n: nat)
    requires rem < 20 && n < 20
    ensures (Place(rem, n) + 1) % 20 == Place(rem, n + 1) && Place(rem, 0) == rem
    ensures Place(Place(rem, 1), n) == Place(rem, n + 1)
  {
  }

  // The n items from rem on, around the end of the buffer.
  function RingOf<T>(items: seq<T>, rem: nat, n: nat): (s: seq<T>)
    requires |items| == 20 && rem < 20 && n <= 20
    ensures |s| == n
  {
    seq(n, i requires 0 <= i < n => items[Place(rem, i)])
  }

  lemma RingAdd<T>(items: seq<T>, rem: nat, n: nat, x: T)
    requires |items| == 20 && rem < 20 && n < 20
    ensures RingOf(items[Place(rem, n) := x], rem, n + 1) == RingOf(items, rem, n) + [x]
  {
  }

  lemma RingTake<T>(items: seq<T>, rem: nat, n: nat)
    requires |items| == 20 && rem < 20 && 0 < n <= 20
    ensures RingOf(items, rem, n) == [items[rem]] + RingOf(items, Place(rem, 1), n - 1)
  {
  }

  class Queue<T(0)> {
    const items: array<T>
    var numItems: nat
    var add: nat
    var rem: nat
    var closed: bool

    ghost predicate Valid()
      reads this
    {
      && items.Length == QUEUE_SIZE && numItems <= QUEUE_SIZE
      && rem < QUEUE_SIZE && add == Place(rem, numItems)
    }

    ghost function Contents(): (s: seq<T>)
      requires Valid()
      reads this, items
      ensures |s| == numItems
    {
      RingOf(items[..], rem, numItems)
    }

    /** queue_create */
    constructor ()
      ensures Valid() && fresh(items) && Contents() == [] && !closed
    {
      items := new T[QUEUE_SIZE];
      numItems, add, rem, closed := 0, 0, 0, false;
    }

    /** queue_close, mutex held. */
    method Close()
      requires Valid()
      modifies this`closed
      ensures Valid() && closed && Contents() == old(Contents())
    {
      closed := true;
    }

    /** queue_add_item, mutex held, up to a wait or the return. */
    method TryAdd(item: T) returns (r: AddOutcome, signalConsumer: bool, signalProducer: bool)
      requires Valid()
      modifies this`numItems, this`add, items
      ensures Valid() && closed == old(closed)
      ensures (r, Contents()) == AddTo(old(Contents()), old(closed), item)
      ensures signalConsumer == r.Accepted?
      ensures signalProducer == (!r.Full? && |Contents()| < QUEUE_SIZE)
    {
      hide RingOf, Place;
      if numItems == QUEUE_SIZE && !closed {
        return Full, false, false;
      }
      signalConsumer := false;
      if closed {
        r := Refused;
      } else {
        ghost var was := items[..];
        PlaceNext(rem, numItems);
        RingAdd(was, rem, numItems, item);
        items[add] := item;
        assert items[..] == was[Place(rem, numItems) := item];
        add := (add + 1) % 20;
        numItems := numItems + 1;
        signalConsumer := true;
        r := Accepted;
      }
      signalProducer := numItems < QUEUE_SIZE;
    }

    /** queue_next_item, mutex held, up to a wait or the return. */
    method TryTake(block: bool) returns (r: TakeOutcome<T>, signalProducer: bool, signalConsumer: bool)
      requires Valid()
      modifies this`numItems, this`rem
      ensures Valid()
      ensures (r, Contents()) == TakeFrom(old(Contents()), block)
      ensures signalProducer == r.Taken?
      ensures signalConsumer == (r.Taken? && |Contents()| > 0)
    {
      hide RingOf, Place;
      if !block && numItems == 0 {
        return Nothing, false, false;
      }
      if numItems == 0 {
        return Wait, false, false;
      }
      RingTake(items[..], rem, numItems);
      PlaceNext(rem, 0);
      PlaceNext(rem, numItems - 1);
      r := Taken(items[rem]);
      rem := (rem + 1) % 20;
      numItems := numItems - 1;
      signalProducer := true;
      signalConsumer := numItems > 0;
    }
  }

  // ----- every interleaving

  type Tid = nat

  // Where a thread is: outside, asleep on a condition variable, or woken and wanting the mutex.
  datatype Phase<T> = Outside | AddAsleep(item: T) | AddWoken(item: T) | TakeAsleep | TakeWoken

  datatype System<T> = System(
    contents: seq<T>, closed: bool, phase: map<Tid, Phase<T>>,
    added: seq<T>, taken: seq<T>)

  datatype Step<T> =
    | AddStep(t: Tid, item: T, wokenConsumers: set<Tid>, wokenProducers: set<Tid>)
    | TakeStep(t: Tid, block: bool, wokenConsumers: set<Tid>, wokenProducers: set<Tid>)
    | CloseStep
    | Spurious(woken: set<Tid>)

  function AsleepProducers<T>(p: map<Tid, Phase<T>>): set<Tid> { set t | t in p && p[t].AddAsleep? }
  function AsleepConsumers<T>(p: map<Tid, Phase<T>>): set<Tid> { set t | t in p && p[t].TakeAsleep? }

  function Wake<T>(p: map<Tid, Phase<T>>, woken: set<Tid>): map<Tid, Phase<T>> {
    map t | t in p :: if t in woken then
      match p[t]
      case AddAsleep(i) => AddWoken(i)
      case TakeAsleep => TakeWoken
      case other => other
    else p[t]
  }

  // pthread_cond_signal wakes at least one sleeper if there is any; no signal, no wake-up here.
  predicate Signals(asleep: set<Tid>, sent: bool, woken: set<Tid>) {
    woken <= asleep && (!sent ==> woken == {}) && (sent && asleep != {} ==> woken != {})
  }

  predicate Next<T(==)>(q: System<T>, s: Step<T>, q': System<T>) {
    match s
    case AddStep(t, item, wc, wp) =>
      && t in q.phase && (q.phase[t].Outside? || q.phase[t] == AddWoken(item))
      && var (r, contents) := AddTo(q.contents, q.closed, item);
      var asleep := q.phase[t := if r.Full? then AddAsleep(item) else Outside];
      && Signals(AsleepConsumers(asleep), r.Accepted?, wc)
      && Signals(AsleepProducers(asleep), !r.Full? && |contents| < QUEUE_SIZE, wp)
      && q' == q.(contents := contents, phase := Wake(asleep, wc + wp),
                  added := if r.Accepted? then q.added + [item] else q.added)
    case TakeStep(t, block, wc, wp) =>
      && t in q.phase && (q.phase[t].Outside? || (block && q.phase[t].TakeWoken?))
      && var (r, contents) := TakeFrom(q.contents, block);
      var asleep := q.phase[t := if r.Wait? then TakeAsleep else Outside];
      && Signals(AsleepProducers(asleep), r.Taken?, wp)
      && Signals(AsleepConsumers(asleep), r.Taken? && |contents| > 0, wc)
      && q' == q.(contents := contents, phase := Wake(asleep, wc + wp),
                  taken := if r.Taken? then q.taken + [r.item] else q.taken)
    case CloseStep =>
      q' == q.(closed := true, phase := Wake(q.phase, AsleepProducers(q.phase)))
    case Spurious(woken) =>
      woken <= q.phase.Keys && q' == q.(phase := Wake(q.phase, woken))
  }

  ghost predicate Init<T>(q: System<T>) {
    && q.contents == [] && q.added == [] && q.taken == [] && !q.closed
    && forall t :: t in q.phase ==> q.phase[t].Outside?
  }

  ghost predicate Run<T(!new)>(tr: seq<System<T>>, steps: seq<Step<T>>) {
    && |tr| == |steps| + 1 && Init(tr[0])
    && forall i :: 0 <= i < |steps| ==> Next(tr[i], steps[i], tr[i + 1])
  }

  // First in, first out: what left, then what is inside, is what came in.
  ghost predicate Fifo<T>(q: System<T>) {
    q.taken + q.contents == q.added && |q.contents| <= QUEUE_SIZE
  }

  // A sleeper that could go on implies someone of its kind is already awake and on its way.
  ghost predicate NoLostWakeup<T>(q: System<T>) {
    && (q.closed ==> AsleepProducers(q.phase) == {})
    && (|q.contents| < QUEUE_SIZE && AsleepProducers(q.phase) != {} ==>
          exists t :: t in q.phase && q.phase[t].AddWoken?)
    && (|q.contents| > 0 && AsleepConsumers(q.phase) != {} ==>
          exists t :: t in q.phase && q.phase[t].TakeWoken?)
  }

  // After a wake-up the sleepers are those left out, and anyone awake stays awake.
  lemma WakeEffect<T>(p: map<Tid, Phase<T>>, wc: set<Tid>, wp: set<Tid>)
    requires wc <= AsleepConsumers(p) && wp <= AsleepProducers(p)
    ensures var p' := Wake(p, wc + wp);
      && AsleepProducers(p') == AsleepProducers(p) - wp
      && AsleepConsumers(p') == AsleepConsumers(p) - wc
      && (forall t :: t in p && p[t].AddWoken? ==> t in p' && p'[t].AddWoken?)
      && (forall t :: t in p && p[t].TakeWoken? ==> t in p' && p'[t].TakeWoken?)
      && (forall t :: t in wp ==> t in p' && p'[t].AddWoken?)
      && (forall t :: t in wc ==> t in p' && p'[t].TakeWoken?)
  {
  }

  lemma StepKeepsFifo<T(!new)>(q: System<T>, s: Step<T>, q': System<T>)
    requires Fifo(q) && Next(q, s, q')
    ensures Fifo(q')
  {
    hide Wake, Signals;
  }

  lemma AddKeepsWakeups<T(!new)>(q: System<T>, s: Step<T>, q': System<T>)
    requires s.AddStep? && Fifo(q) && NoLostWakeup(q) && Next(q, s, q')
    ensures NoLostWakeup(q')
  {
    hide Wake;
    var (r, contents) := AddTo(q.contents, q.closed, s.item);
    var asleep := q.phase[s.t := if r.Full? then AddAsleep(s.item) else Outside];
    WakeEffect(asleep, s.wokenConsumers, s.wokenProducers);
    assert AsleepConsumers(asleep) == AsleepConsumers(q.phase);
    assert !r.Full? ==> AsleepProducers(asleep) == AsleepProducers(q.phase);
    assert forall t :: t in q.phase && q.phase[t].TakeWoken? ==> t in asleep && asleep[t].TakeWoken?;
  }

  lemma TakeKeepsWakeups<T(!new)>(q: System<T>, s: Step<T>, q': System<T>)
    requires s.TakeStep? && Fifo(q) && NoLostWakeup(q) && Next(q, s, q')
    ensures NoLostWakeup(q')
  {
    hide Wake;
    var (r, contents) := TakeFrom(q.contents, s.block);
    var asleep := q.phase[s.t := if r.Wait? then TakeAsleep else Outside];
    WakeEffect(asleep, s.wokenConsumers, s.wokenProducers);
    assert AsleepProducers(asleep) == AsleepProducers(q.phase);
    assert !r.Wait? ==> AsleepConsumers(asleep) == AsleepConsumers(q.phase);
    assert forall t :: t in q.phase && q.phase[t].AddWoken? ==> t in asleep && asleep[t].AddWoken?;
  }

  lemma OtherKeepsWakeups<T(!new)>(q: System<T>, s: Step<T>, q': System<T>)
    requires (s.CloseStep? || s.Spurious?) && NoLostWakeup(q) && Next(q, s, q')
    ensures NoLostWakeup(q')
  {
    hide Wake;
    var woken := if s.CloseStep? then AsleepProducers(q.phase) else s.woken;
    var wc, wp := woken * AsleepConsumers(q.phase), woken * AsleepProducers(q.phase);
    assert Wake(q.phase, woken) == Wake(q.phase, wc + wp) by { WakeOnlySleepers(q.phase, woken); }
    WakeEffect(q.phase, wc, wp);
  }

  lemma WakeOnlySleepers<T>(p: map<Tid, Phase<T>>, woken: set<Tid>)
    ensures Wake(p, woken) == Wake(p, woken * AsleepConsumers(p) + woken * AsleepProducers(p))
  {
  }

  /** One step, seen from outside: an item is taken in exactly if the queue is open and has room, its
      producer sleeps exactly if it is open and full; a consumer gets the oldest item if there is
      one, and sleeps only if it asked to. */
  lemma StepOutcome<T(!new)>(q: System<T>, s: Step<T>, q': System<T>)
    requires Next(q, s, q')
    ensures s.AddStep? ==>
      && s.t in q'.phase && q'.taken == q.taken
      && q'.added == (if !q.closed && |q.contents| != 20 then q.added + [s.item] else q.added)
      && (q'.phase[s.t].AddAsleep? || q'.phase[s.t].AddWoken? <==> !q.closed && |q.contents| == 20)
    ensures s.TakeStep? ==>
      && s.t in q'.phase && q'.added == q.added
      && q'.taken == (if q.contents != [] then q.taken + [q.contents[0]] else q.taken)
      && (q'.phase[s.t].TakeAsleep? || q'.phase[s.t].TakeWoken? <==> s.block && q.contents == [])
    ensures !s.AddStep? && !s.TakeStep? ==> q'.added == q.added && q'.taken == q.taken && q'.contents == q.contents
    ensures q'.closed == (q.closed || s.CloseStep?)
  {
    hide Signals;
  }

  /** Once closed, always closed, and nothing is taken in any more. */
  lemma {:induction false} ClosedStays<T(!new)>(tr: seq<System<T>>, steps: seq<Step<T>>, m: nat, n: nat)
    requires Run(tr, steps) && m <= n < |tr| && tr[m].closed
    ensures tr[n].closed && tr[n].added == tr[m].added
  {
    if m < n {
      ClosedStays(tr, steps, m, n - 1);
      assert Next(tr[n - 1], steps[n - 1], tr[n]);
      hide Next;
      StepOutcome(tr[n - 1], steps[n - 1], tr[n]);
    }
  }

  /** Over every run, at every moment: first in first out, and no wake-up is lost. */
  lemma {:induction false} EveryRun<T(!new)>(tr: seq<System<T>>, steps: seq<Step<T>>, n: nat)
    requires Run(tr, steps) && n < |tr|
    ensures Fifo(tr[n]) && NoLostWakeup(tr[n])
  {
    if n > 0 {
      EveryRun(tr, steps, n - 1);
      var q, s, q' := tr[n - 1], steps[n - 1], tr[n];
      assert Next(q, s, q');
      StepKeepsFifo(q, s, q');
      match s
      case AddStep(_, _, _, _) => AddKeepsWakeups(q, s, q');
      case TakeStep(_, _, _, _) => TakeKeepsWakeups(q, s, q');
      case _ => OtherKeepsWakeups(q, s, q');
    }
  }
}
