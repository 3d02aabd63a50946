/** A run of the enclave calls in which one buffer stays behind: a client is made, shakes hands, has
    its request accepted, and then the table lookup of enclave_run fails. */
module LookupFailure {
  import opened Options
  import opened EnclaveCalls
  import H = ClientHandles

  const KEY := H.Config(0x8000_0000_0000_0000, 0)
  const START := State(
    Memory(map[0 := 0x8000_0000_0000_0000, 1 := 0], map[], map[], 0, [], false, false), map[0 := Arriving(Host, 0)])

  // One new number and nothing else.
  const REQUEST := Sizes(0, 0, 8)

  // Where a run has got, with its one thread.
  ghost predicate Ends(tr: seq<State>, evs: seq<Event>, th: Thread) {
    Run(KEY, tr, evs) && tr[0] == START && tr[|evs|].threads == map[0 := th]
  }

  // The same, with the client in view.
  ghost predicate Holds(tr: seq<State>, evs: seq<Event>, th: Thread, f: Parts) {
    Ends(tr, evs, th) && th.c in tr[|evs|].g.parts && tr[|evs|].g.parts[th.c] == f
  }

  lemma StartOk()
    ensures Ends([START], [], Arriving(Host, 0))
  {
    H.AcqValues(KEY);
    hide H.ClientAcq;
  }

  lemma Then(tr: seq<State>, evs: seq<Event>, th: Thread, x: Move) returns (tr': seq<State>, evs': seq<Event>, s: State)
    requires Ends(tr, evs, th) && Enabled(KEY, tr[|evs|], 0, x)
    ensures s == Step(KEY, tr[|evs|], 0, x) && tr' == tr + [s] && evs' == evs + [Event(0, x)]
    ensures Run(KEY, tr', evs') && tr'[0] == START && tr'[|evs'|] == s
  {
    hide Step, Enabled, Init;
    s := Step(KEY, tr[|evs|], 0, x);
    tr', evs' := tr + [s], evs + [Event(0, x)];
  }

  // A stage with the client in hand succeeds.
  lemma Proceed(tr: seq<State>, evs: seq<Event>, th: Thread, f: Parts) returns (tr': seq<State>, evs': seq<Event>, th': Thread)
    requires Holds(tr, evs, th, f) && KindOf(th.p).Working? && (IsGuard(th.p) ==> GuardOk(th.p, f))
    requires th.p == InLimit(CheckSizes) ==> th.draft == Some(REQUEST)
    ensures Holds(tr', evs', th', Changed(th.p, f, th.draft))
    ensures th'.p == OnOk(th.p) && th'.c == th.c && th'.failed == th.failed && th'.err == th.err
    ensures th'.draft == if th.p == InLimit(DecodeRequest) then Some(REQUEST) else th.draft
  {
    RefusedIff(REQUEST);
    WorkingSteps(th);
    hide Refused, OnOk, OnError, Needs, Changed, GuardOk, KindOf, Takes, Gives, Misuse;
    var s;
    tr', evs', s := Then(tr, evs, th, Go(0, 0, REQUEST));
    th' := Moved(th, 0, 0, REQUEST);
    assert s.threads == map[0 := th'];
  }

  lemma WorkingSteps(th: Thread)
    requires KindOf(th.p).Working?
    ensures !th.p.Host? && th.p != InNew(FreeIfFailed)
  {
  }

  // A call begins, and gets to its first stage.
  lemma Arrive(tr: seq<State>, evs: seq<Event>, th: Thread, call: Call, id: Addr) returns (tr': seq<State>, evs': seq<Event>, th': Thread)
    requires Ends(tr, evs, th) && th.p.Host?
    ensures Ends(tr', evs', th') && tr'[|evs'|].g == tr[|evs|].g
    ensures th' == Arriving(OnOk(Entry(call)), id)
  {
    hide H.ClientAcq;
    var a := Arriving(Entry(call), id);
    var s;
    tr', evs', s := Then(tr, evs, th, Enter(call, id));
    assert s.threads == map[0 := a];
    tr', evs', s := Then(tr', evs', a, Go(0, 0, REQUEST));
    th' := Arriving(OnOk(Entry(call)), id);
    assert Advance(a, 0, REQUEST) == th' by { assert a.taken + [] == [] && a.freed + [] == [] && a.live + {} - {} == {}; }
    assert s.threads == map[0 := th'];
  }

  // With no other call under way, the client is free for the taking.
  lemma Take(tr: seq<State>, evs: seq<Event>, th: Thread, f: Parts) returns (tr': seq<State>, evs': seq<Event>, th': Thread)
    requires Ends(tr, evs, th) && th.p.Acquire? && th.id in tr[|evs|].g.parts && tr[|evs|].g.parts[th.id] == f
    ensures Holds(tr', evs', th', f)
    ensures th'.p == OnOk(th.p) && th'.c == th.id && th'.failed == th.failed && th'.err == th.err && th'.draft == th.draft
  {
    FreeToTake(tr, evs, th);
    hide H.ClientAcq, Matches, RunOk, ShakeOk, LimitOk;
    var s;
    tr', evs', s := Then(tr, evs, th, Go(1, 0, REQUEST));
    th' := Moved(th, 0, 0, REQUEST);
    assert s.threads == map[0 := th'];
  }

  lemma FreeToTake(tr: seq<State>, evs: seq<Event>, th: Thread)
    requires Ends(tr, evs, th) && th.p.Acquire? && th.id in tr[|evs|].g.parts
    ensures Matches(KEY, tr[|evs|].g, th.id)
  {
    RunKeepsInv(KEY, tr, evs, |evs|);
    var s := tr[|evs|];
    assert !Owns(th) && s.threads[0] == th;
    hide Run, Matches, Owned, View, LocalOk, Known, PartsOk, H.Inv;
    FreeIffUnowned(KEY, s, th.id);
  }

  // Stages that do not look at the client's parts: publishing, releasing, and what follows.
  lemma PassBy(tr: seq<State>, evs: seq<Event>, th: Thread, f: Parts) returns (tr': seq<State>, evs': seq<Event>, th': Thread)
    requires Holds(tr, evs, th, f) && !th.p.Host? && th.err == 0
    requires Quiet(th.p)
    ensures Holds(tr', evs', th', f)
    ensures th'.p == OnOk(th.p) && th'.c == th.c && th'.failed == th.failed && th'.err == th.err && th'.draft == th.draft
  {
    QuietStep(tr[|evs|], th);
    QuietEffect(tr[|evs|].g, th);
    hide Effect, Enabled, Moved, Code, KindOf, OnOk;
    var s;
    tr', evs', s := Then(tr, evs, th, Go(0, 0, REQUEST));
    th' := Moved(th, 0, 0, REQUEST);
    assert s.threads == map[0 := th'];
  }

  predicate Quiet(p: Point) { var d := KindOf(p); d.Publishing? || d.Releasing? || (d.Silent? && p.InNew?) }

  lemma QuietStep(s: State, th: Thread)
    requires s.threads == map[0 := th] && Quiet(th.p) && !th.p.Host? && th.err == 0
    ensures Enabled(KEY, s, 0, Go(0, 0, REQUEST)) && Code(KEY, s.g, th, 0) == 0
    ensures var th' := Moved(th, 0, 0, REQUEST);
      th'.p == OnOk(th.p) && th'.c == th.c && th'.failed == th.failed && th'.err == th.err && th'.draft == th.draft
  {
    NotSpecial(th.p);
    hide H.ClientAcq, OnOk, OnError, Takes, Gives, Sure, IsGuard, KindOf, Matches;
  }

  lemma QuietEffect(g: Memory, th: Thread)
    requires Quiet(th.p)
    ensures Effect(KEY, g, th, 0, 0).parts == g.parts
  {
    hide KindOf, Worked, Misuse, H.ClientAcq;
  }

  lemma NotSpecial(p: Point)
    requires Quiet(p)
    ensures !IsGuard(p) && p != InLimit(CheckSizes) && p != InLimit(DecodeRequest)
  {
  }

  // The release at the end of a call that did or did not fail.
  lemma Leave(tr: seq<State>, evs: seq<Event>, th: Thread, f: Parts) returns (tr': seq<State>, evs': seq<Event>, th': Thread)
    requires Holds(tr, evs, th, f) && th.p.Unlock?
    ensures Holds(tr', evs', th', f) && th'.p.Host? && th'.c == th.c && th'.failed == th.failed
  {
    hide H.ClientAcq, Takes, Gives, Misuse, IsGuard;
    var s;
    tr', evs', s := Then(tr, evs, th, Go(0, 0, REQUEST));
    th' := Moved(th, 0, 0, REQUEST);
    assert s.threads == map[0 := th'];
  }

  // A stage with the client in hand fails.
  lemma Stumble(tr: seq<State>, evs: seq<Event>, th: Thread, f: Parts) returns (tr': seq<State>, evs': seq<Event>, th': Thread)
    requires Holds(tr, evs, th, f) && KindOf(th.p).Working? && !Sure(th.p) && !IsGuard(th.p) && th.p != InLimit(CheckSizes)
    ensures Holds(tr', evs', th', f) && th'.p == OnError(th.p) && th'.c == th.c && th'.failed == Some(th.p)
  {
    WorkingSteps(th);
    hide OnOk, OnError, Needs, Changed, GuardOk, KindOf, Takes, Gives, Misuse;
    var s;
    tr', evs', s := Then(tr, evs, th, Go(1, 0, REQUEST));
    th' := Moved(th, 1, 0, REQUEST);
    assert s.threads == map[0 := th'];
  }

  // A stage that leaves the client's parts as they are.
  predicate Even(p: Point) {
    match p
    case InNew(n) => n.Lock? || n.Privkey? || n.Fits? || n.Keypair?
    case InShake(h) => !h.ShakeGuard? && !h.Split?
    case InLimit(l) => !l.LimitGuard? && !l.Workspace? && !l.DecodeRequest? && !l.CheckSizes?
    case InRun(r) => !r.RunGuard?
    case _ => false
  }

  lemma EvenKeeps(p: Point, f: Parts, draft: Option<Sizes>)
    requires Even(p)
    ensures KindOf(p).Working? && !IsGuard(p) && p != InLimit(CheckSizes) && p != InLimit(DecodeRequest) && Changed(p, f, draft) == f
  {
  }

  // Stages one after the other.
  ghost predicate Straight(path: seq<Point>) {
    path != [] && forall i :: 0 <= i < |path| - 1 ==> Even(path[i]) && OnOk(path[i]) == path[i + 1]
  }

  lemma {:induction false} Along(tr0: seq<State>, evs0: seq<Event>, th0: Thread, f: Parts, path: seq<Point>)
    returns (tr: seq<State>, evs: seq<Event>, th: Thread)
    requires Holds(tr0, evs0, th0, f) && Straight(path) && th0.p == path[0]
    ensures Holds(tr, evs, th, f) && th.p == path[|path| - 1]
    ensures th.c == th0.c && th.failed == th0.failed && th.err == th0.err && th.draft == th0.draft
    decreases |path|
  {
    hide Holds, Even, KindOf, IsGuard, Changed, OnOk, GuardOk;
    if |path| == 1 {
      tr, evs, th := tr0, evs0, th0;
    } else {
      EvenKeeps(th0.p, f, th0.draft);
      assert OnOk(path[0]) == path[1];
      tr, evs, th := Proceed(tr0, evs0, th0, f);
      tr, evs, th := Along(tr, evs, th, f, path[1..]);
    }
  }

  const MAKING := [InNew(Lock), InNew(Privkey), InNew(Fits), InNew(Keypair), InNew(Add)]
  const SHAKE := [InShake(Start), InShake(ReadTurn), InShake(Read), InShake(WriteTurn)]
  const ANSWER := [InShake(WriteTurn), InShake(Write), InShake(Room), InShake(SplitTurn), InShake(Split)]
  const LIMIT := [InLimit(OldHash), InLimit(NewHash), InLimit(DecryptRequest), InLimit(Workspace)]
  const TOKEN := [InLimit(Token), InLimit(Random), InLimit(Compute), InLimit(NewReply), InLimit(ReplyBuffer)]
  const REPLY := [InLimit(ReplyBuffer), InLimit(EncodeReply), InLimit(EncryptReply), InLimit(FreeReply), Unlock]
  const READING := [InRun(Decrypt), InRun(Request), InRun(Decode), InRun(Ack), InRun(Obtain(Index))]
  const LOOKUP := [InRun(Obtain(Index)), InRun(Pairs), InRun(Obtain(E164s)), InRun(Obtain(Records)), InRun(Query)]
  const CLEANUP := [InRun(Drop(E164s)), InRun(Drop(Index)), Unlock]

  lemma MakingStraight() ensures Straight(MAKING) {}
  lemma ShakeStraight() ensures Straight(SHAKE) {}
  lemma AnswerStraight() ensures Straight(ANSWER) {}
  lemma LimitStraight() ensures Straight(LIMIT) {}
  lemma TokenStraight() ensures Straight(TOKEN) {}
  lemma ReplyStraight() ensures Straight(REPLY) {}
  lemma ReadingStraight() ensures Straight(READING) {}
  lemma LookupStraight() ensures Straight(LOOKUP) {}
  lemma CleanupStraight() ensures Straight(CLEANUP) {}

  // ----- the four calls

  const SHAKING := NO_PARTS.(handshake := true)
  const READY := NO_PARTS.(send := true, recv := true)
  const ASKED := READY.(workspace := true, req := Some(REQUEST))

  // enclave_new_client
  lemma Make() returns (tr: seq<State>, evs: seq<Event>, th: Thread)
    ensures Holds(tr, evs, th, SHAKING) && th.p.Host? && th.c == 1
  {
    hide Ends, Holds, Run, Straight;
    MakingStraight();
    tr, evs, th := AllocateOne();
    tr, evs, th := Proceed(tr, evs, th, NO_PARTS);       // the noise state
    tr, evs, th := Along(tr, evs, th, SHAKING, MAKING);
    tr, evs, th := PassBy(tr, evs, th, SHAKING);         // client_add
    tr, evs, th := PassBy(tr, evs, th, SHAKING);         // the release
    tr, evs, th := PassBy(tr, evs, th, SHAKING);         // unlock_handshake
    tr, evs, th := PassBy(tr, evs, th, SHAKING);         // free_client
  }

  lemma AllocateOne() returns (tr: seq<State>, evs: seq<Event>, th: Thread)
    ensures Holds(tr, evs, th, NO_PARTS) && th.p == InNew(NoiseState) && th.c == 1 && th.err == 0 && th.failed == None
  {
    hide H.ClientAcq, Run;
    StartOk();
    tr, evs, th := Arrive([START], [], Arriving(Host, 0), NewClient, 0);
    var s;
    var was := th;
    tr, evs, s := Then(tr, evs, was, Go(0, 1, REQUEST));
    th := Moved(was, 0, 1, REQUEST);
    assert s.threads == map[0 := th];
  }

  // A call on client 1 that has got past its acquisition.
  lemma Begin(tr0: seq<State>, evs0: seq<Event>, th0: Thread, f: Parts, call: Call)
    returns (tr: seq<State>, evs: seq<Event>, th: Thread)
    requires Holds(tr0, evs0, th0, f) && th0.p.Host? && th0.c == 1 && (call.Handshake? || call.RateLimit? || call.Lookup?)
    ensures Holds(tr, evs, th, f) && th.p == OnOk(Acquire(call)) && th.c == 1 && th.failed == None && th.err == 0
  {
    hide Run;
    tr, evs, th := Arrive(tr0, evs0, th0, call, 1);
    tr, evs, th := Take(tr, evs, th, f);
  }

  // enclave_handshake
  lemma Shake() returns (tr: seq<State>, evs: seq<Event>, th: Thread)
    ensures Holds(tr, evs, th, READY) && th.p.Host? && th.c == 1
  {
    hide Ends, Holds, Run, Straight;
    ShakeStraight();
    AnswerStraight();
    tr, evs, th := Make();
    tr, evs, th := Begin(tr, evs, th, SHAKING, Handshake);
    tr, evs, th := Proceed(tr, evs, th, SHAKING);        // the guard
    tr, evs, th := Along(tr, evs, th, SHAKING, SHAKE);
    tr, evs, th := Along(tr, evs, th, SHAKING, ANSWER);
    tr, evs, th := Proceed(tr, evs, th, SHAKING);        // the split
    tr, evs, th := Leave(tr, evs, th, READY);
  }

  // enclave_rate_limit
  lemma Limit() returns (tr: seq<State>, evs: seq<Event>, th: Thread)
    ensures Holds(tr, evs, th, ASKED) && th.p.Host? && th.c == 1
  {
    hide Ends, Holds, Run, Straight;
    LimitStraight();
    TokenStraight();
    ReplyStraight();
    var stored := READY.(workspace := true);
    tr, evs, th := Shake();
    tr, evs, th := Begin(tr, evs, th, READY, RateLimit);
    tr, evs, th := Proceed(tr, evs, th, READY);          // the guard
    tr, evs, th := Along(tr, evs, th, READY, LIMIT);
    tr, evs, th := Proceed(tr, evs, th, READY);          // the workspace
    tr, evs, th := Proceed(tr, evs, th, stored);         // the request structure
    tr, evs, th := Proceed(tr, evs, th, stored);         // decoding
    tr, evs, th := Proceed(tr, evs, th, stored);         // the size check
    tr, evs, th := Along(tr, evs, th, ASKED, TOKEN);
    tr, evs, th := Along(tr, evs, th, ASKED, REPLY);
    tr, evs, th := Leave(tr, evs, th, ASKED);
  }

  /** The failing case of `GivenBackIff` is reached: there is a run, from an enclave without clients
      through a new client, a handshake and an accepted request, in which the table lookup of
      enclave_run fails, the call releases its client and returns, and the record buffer is still
      allocated. */
  lemma FailedLookup() returns (tr: seq<State>, evs: seq<Event>)
    ensures Run(KEY, tr, evs) && 0 in tr[|evs|].threads
    ensures var th := tr[|evs|].threads[0];
      th.p.Host? && th.failed == Some(InRun(Query)) && th.live == {Buf(Records)} && !AllBack(th)
  {
    var th;
    tr, evs, th := Stranded();
    assert tr[|evs|].threads[0] == th;
    GivenBackIff(KEY, tr, evs, |evs|, 0);
    hide Run, AllBack;
    assert forall x :: x in th.live <==> x == Buf(Records);
  }

  lemma Stranded() returns (tr: seq<State>, evs: seq<Event>, th: Thread)
    ensures Ends(tr, evs, th) && th.p.Host? && th.failed == Some(InRun(Query))
  {
    hide Ends, Holds, Run, Straight;
    ReadingStraight();
    LookupStraight();
    CleanupStraight();
    tr, evs, th := Limit();
    tr, evs, th := Begin(tr, evs, th, ASKED, Lookup);
    tr, evs, th := Proceed(tr, evs, th, ASKED);          // the guard
    tr, evs, th := Along(tr, evs, th, ASKED, READING);
    tr, evs, th := Along(tr, evs, th, ASKED, LOOKUP);
    tr, evs, th := Stumble(tr, evs, th, ASKED);          // the lookup
    tr, evs, th := Along(tr, evs, th, ASKED, CLEANUP);
    tr, evs, th := Leave(tr, evs, th, ASKED);
    HoldsEnds(tr, evs, th, ASKED);
  }

  lemma HoldsEnds(tr: seq<State>, evs: seq<Event>, th: Thread, f: Parts)
    requires Holds(tr, evs, th, f)
    ensures Ends(tr, evs, th)
  {
  }
}
