/** The order of the client calls of c/enclave/enc.c: whoever returns without an error has been through
    every stage of the call, one after the other. */
module CallOrder {
  import opened Options
  import opened EnclaveCalls
  import H = ClientHandles

  // The stages of each call as the source lists them.
  function NewPlace(n: NewPoint): nat {
    match n
    case Alloc => 1 case NoiseState => 2 case Lock => 3 case Privkey => 4 case Fits => 5 case Keypair => 6 case Add => 7
    case Publicise => 8 case UnlockStart => 9 case FreeIfFailed => 10
  }

  function ShakePlace(h: ShakePoint): nat {
    match h
    case ShakeGuard => 2 case Start => 3 case ReadTurn => 4 case Read => 5 case WriteTurn => 6 case Write => 7
    case Room => 8 case SplitTurn => 9 case Split => 10
  }

  function LimitPlace(l: LimitPoint): nat {
    match l
    case LimitGuard => 2 case OldHash => 3 case NewHash => 4 case DecryptRequest => 5 case Workspace => 6
    case NewRequest => 7 case DecodeRequest => 8 case CheckSizes => 9 case Token => 10 case Random => 11 case Compute => 12
    case NewReply => 13 case ReplyBuffer => 14 case EncodeReply => 15 case EncryptReply => 16 case FreeReply => 17
  }

  function RunPlace(r: RunPoint): nat {
    match r
    case RunGuard => 2 case Decrypt => 3 case Request => 4 case Decode => 5 case Ack => 6
    case Obtain(Index) => 7 case Pairs => 8 case Obtain(E164s) => 9 case Obtain(Records) => 10 case Query => 11
    case Obtain(Triples) => 12 case Answer => 13 case Obtain(Response) => 14 case Message => 15
    case Obtain(Plaintext) => 16 case Encode => 17 case Encrypt => 18
    case Drop(Plaintext) => 19 case Drop(Response) => 20 case Drop(Triples) => 21 case Drop(Records) => 22
    case Drop(E164s) => 23 case Drop(Index) => 24
  }

  // How many stages a call has, its entry included.
  function Length(call: Call): nat {
    match call
    case NewClient => 11 case CloseClient => 4 case Handshake => 12 case RateLimit => 19 case Lookup => 26
  }

  // The place of a stage in its call; nothing for the stages of other calls and for the host.
  function Place(call: Call, p: Point): Option<nat> {
    match p
    case Entry(c) => if c == call then Some(0) else None
    case Acquire(c) => if c == call && (call.Handshake? || call.RateLimit? || call.Lookup?) then Some(1) else None
    case InNew(n) => if call.NewClient? then Some(NewPlace(n)) else None
    case Remove => if call.CloseClient? then Some(1) else None
    case Dying(removed) => if call.CloseClient? && removed then Some(2) else None
    case Freeing => if call.CloseClient? then Some(3) else None
    case InShake(h) => if call.Handshake? then Some(ShakePlace(h)) else None
    case InLimit(l) => if call.RateLimit? then Some(LimitPlace(l)) else None
    case InRun(r) => if call.Lookup? then Some(RunPlace(r)) else None
    case Unlock => if call.Handshake? || call.RateLimit? || call.Lookup? then Some(Length(call) - 1) else None
    case Host => None
  }

  /** A stage that succeeds goes on to the next in the list, the last one back to the host. */
  lemma InOrder(call: Call, p: Point)
    requires Place(call, p).Some?
    ensures var i := Place(call, p).value;
      if i + 1 < Length(call) then Place(call, OnOk(p)) == Some(i + 1) else i + 1 == Length(call) && OnOk(p) == Host
  {
    hide NewOk, ShakeOk, LimitOk, RunOk, NewPlace, ShakePlace, LimitPlace, RunPlace;
    LastPlaces(p);
    match p
    case InNew(n) => NewInOrder(n);
    case InShake(h) => ShakeInOrder(h);
    case InLimit(l) => LimitInOrder(l);
    case InRun(r) => RunInOrder(r);
    case _ => FirstPlaces();
  }

  lemma LastPlaces(p: Point)
    ensures p.InNew? ==> (NewPlace(p.n) == 10 <==> p.n.FreeIfFailed?) && NewPlace(p.n) <= 10
    ensures p.InShake? ==> (ShakePlace(p.h) == 10 <==> p.h.Split?) && ShakePlace(p.h) <= 10
    ensures p.InLimit? ==> (LimitPlace(p.l) == 17 <==> p.l.FreeReply?) && LimitPlace(p.l) <= 17
    ensures p.InRun? ==> (RunPlace(p.r) == 24 <==> p.r == Drop(Index)) && RunPlace(p.r) <= 24
  {
  }

  lemma FirstPlaces()
    ensures NewPlace(Alloc) == 1 && ShakePlace(ShakeGuard) == 2 && LimitPlace(LimitGuard) == 2 && RunPlace(RunGuard) == 2
  {
  }

  lemma NewInOrder(n: NewPoint)
    ensures if n.FreeIfFailed? then NewOk(n) == Host else NewOk(n).InNew? && NewPlace(NewOk(n).n) == NewPlace(n) + 1
  {
  }

  lemma ShakeInOrder(h: ShakePoint)
    ensures if h.Split? then ShakeOk(h) == Unlock else ShakeOk(h).InShake? && ShakePlace(ShakeOk(h).h) == ShakePlace(h) + 1
  {
  }

  lemma LimitInOrder(l: LimitPoint)
    ensures if l.FreeReply? then LimitOk(l) == Unlock else LimitOk(l).InLimit? && LimitPlace(LimitOk(l).l) == LimitPlace(l) + 1
  {
  }

  lemma RunInOrder(r: RunPoint)
    ensures if r == Drop(Index) then RunOk(r) == Unlock else RunOk(r).InRun? && RunPlace(RunOk(r).r) == RunPlace(r) + 1
  {
  }

  /** And no two stages of a call share a place. */
  lemma OnePlace(call: Call, p: Point, q: Point)
    requires Place(call, p).Some? && Place(call, p) == Place(call, q)
    ensures p == q
  {
  }

  // ----- in every run

  // The stages thread t has done after step i.
  ghost function Done(tr: seq<State>, evs: seq<Event>, t: Tid, i: nat, n: nat): seq<Point>
    requires i < n <= |evs| < |tr|
  {
    if n == i + 1 then []
    else
      Done(tr, evs, t, i, n - 1)
      + if evs[n - 1].t == t && evs[n - 1].x.Go? && t in tr[n - 1].threads then [tr[n - 1].threads[t].p] else []
  }

  // The first stages of the call, in order, and the one that is next.
  ghost predicate UpTo(call: Call, done: seq<Point>, p: Point) {
    && (forall j :: 0 <= j < |done| ==> Place(call, done[j]) == Some(j))
    && |done| <= Length(call)
    && if |done| < Length(call) then Place(call, p) == Some(|done|) else p == Host
  }

  lemma GoOn(call: Call, done: seq<Point>, th: Thread, e: nat, a: Addr, r: Sizes)
    requires UpTo(call, done, th.p) && !th.p.Host? && th.err == 0 && Moved(th, e, a, r).failed.None?
    ensures UpTo(call, done + [th.p], Moved(th, e, a, r).p) && Moved(th, e, a, r).err == 0
  {
    InOrder(call, th.p);
    hide Place, OnOk, Takes, Gives;
  }

  // As long as nothing has failed, the stages done are those up to where the thread is.
  ghost predicate OnTrack(call: Call, done: seq<Point>, th: Thread) {
    th.failed.None? ==> th.err == 0 && UpTo(call, done, th.p)
  }

  lemma EnterStep(k: H.Config, s: State, t: Tid, x: Move)
    requires Enabled(k, s, t, x) && x.Enter?
    ensures t in Step(k, s, t, x).threads && OnTrack(x.call, [], Step(k, s, t, x).threads[t])
  {
    hide Effect, Moved;
  }

  lemma OtherStep(k: H.Config, s: State, t: Tid, u: Tid, x: Move)
    requires Enabled(k, s, u, x) && t in s.threads && (u != t || x.Other?)
    ensures t in Step(k, s, u, x).threads && Step(k, s, u, x).threads[t] == s.threads[t]
  {
    hide Effect, Moved;
  }

  lemma OwnStep(k: H.Config, s: State, t: Tid, x: Move, call: Call, done: seq<Point>)
    requires Enabled(k, s, t, x) && x.Go? && OnTrack(call, done, s.threads[t])
    ensures t in Step(k, s, t, x).threads && OnTrack(call, done + [s.threads[t].p], Step(k, s, t, x).threads[t])
  {
    var th := s.threads[t];
    var code := Code(k, s.g, th, x.e);
    assert Step(k, s, t, x).threads[t] == Moved(th, code, x.a, x.r) && !th.p.Host?;
    FailedStays(th, code, x.a, x.r);
    hide Effect, Enabled, Code, Moved, UpTo;
    if Moved(th, code, x.a, x.r).failed.None? { GoOn(call, done, th, code, x.a, x.r); }
  }

  lemma FailedStays(th: Thread, e: nat, a: Addr, r: Sizes)
    ensures Moved(th, e, a, r).failed.None? ==> th.failed.None?
  {
    hide OnOk, OnError, Takes, Gives;
  }

  lemma StepOf(k: H.Config, tr: seq<State>, evs: seq<Event>, i: nat)
    requires Run(k, tr, evs) && i < |evs|
    ensures |tr| == |evs| + 1 && Enabled(k, tr[i], evs[i].t, evs[i].x) && tr[i + 1] == Step(k, tr[i], evs[i].t, evs[i].x)
  {
    hide Init, Enabled, Step;
  }

  /** In every run: as long as a call is under way and nothing has failed in it, it has done the stages
      up to where it is; so when it is back without a failure it has done them all. */
  lemma {:induction false} StagesInOrder(k: H.Config, tr: seq<State>, evs: seq<Event>, t: Tid, i: nat, n: nat)
    requires Run(k, tr, evs) && |tr| == |evs| + 1 && i < n <= |evs| && evs[i].t == t && evs[i].x.Enter?
    requires forall j :: i < j < n ==> t in tr[j].threads && !tr[j].threads[t].p.Host?
    ensures t in tr[n].threads
    ensures OnTrack(evs[i].x.call, Done(tr, evs, t, i, n), tr[n].threads[t])
  {
    hide *;
    var s, e := tr[n - 1], evs[n - 1];
    StepOf(k, tr, evs, n - 1);
    DoneStep(tr, evs, t, i, n);
    if n == i + 1 {
      EnterStep(k, s, t, e.x);
    } else {
      StagesInOrder(k, tr, evs, t, i, n - 1);
      if e.t != t || e.x.Other? {
        OtherStep(k, s, t, e.t, e.x);
      } else {
        InCall(k, s, t, e.x);
        OwnStep(k, s, t, e.x, evs[i].x.call, Done(tr, evs, t, i, n - 1));
      }
    }
  }

  lemma DoneStep(tr: seq<State>, evs: seq<Event>, t: Tid, i: nat, n: nat)
    requires i < n <= |evs| < |tr|
    ensures n == i + 1 ==> Done(tr, evs, t, i, n) == []
    ensures n > i + 1 ==>
      var done, own := Done(tr, evs, t, i, n - 1), evs[n - 1].t == t && evs[n - 1].x.Go? && t in tr[n - 1].threads;
      Done(tr, evs, t, i, n) == if own then done + [tr[n - 1].threads[t].p] else done
  {
    if n > i + 1 { assert Done(tr, evs, t, i, n - 1) + [] == Done(tr, evs, t, i, n - 1); }
  }

  lemma InCall(k: H.Config, s: State, t: Tid, x: Move)
    requires Enabled(k, s, t, x) && t in s.threads && !s.threads[t].p.Host? && !x.Other?
    ensures x.Go?
  {
  }

  /** Back at the host without a failure: every stage, in order. */
  lemma AllStagesDone(k: H.Config, tr: seq<State>, evs: seq<Event>, t: Tid, i: nat, n: nat)
    requires Run(k, tr, evs) && i < n <= |evs| && evs[i].t == t && evs[i].x.Enter?
    requires forall j :: i < j < n ==> t in tr[j].threads && !tr[j].threads[t].p.Host?
    ensures |tr| == |evs| + 1 && t in tr[n].threads
    ensures var th, done, call := tr[n].threads[t], Done(tr, evs, t, i, n), evs[i].x.call;
      th.p.Host? && th.failed.None? ==>
        th.err == 0 && |done| == Length(call) && forall j :: 0 <= j < |done| ==> Place(call, done[j]) == Some(j)
  {
    StagesInOrder(k, tr, evs, t, i, n);
    hide Run, Done;
  }

  // ----- what a call reports

  // The code with which step j of the run ends, for thread t.
  ghost function CodeAt(k: H.Config, tr: seq<State>, evs: seq<Event>, t: Tid, j: nat): nat
    requires j < |evs| < |tr|
  {
    if evs[j].t == t && evs[j].x.Go? && t in tr[j].threads then Code(k, tr[j].g, tr[j].threads[t], evs[j].x.e) else 0
  }

  // The call has failed in step `first` and nowhere else, or not at all.
  ghost predicate Reported(k: H.Config, tr: seq<State>, evs: seq<Event>, t: Tid, i: nat, n: nat, first: Option<nat>)
    requires i < n <= |evs| < |tr|
  {
    && t in tr[n].threads && var th := tr[n].threads[t];
    match first
    case None => th.failed.None? && th.err == 0 && forall j :: i < j < n ==> CodeAt(k, tr, evs, t, j) == 0
    case Some(f) =>
      && i < f < n && t in tr[f].threads && th.failed == Some(tr[f].threads[t].p)
      && th.err == CodeAt(k, tr, evs, t, f) && (Leaving(th.p) || th.p.Host?)
      && forall j :: i < j < n ==> (CodeAt(k, tr, evs, t, j) != 0 <==> j == f)
  }

  predicate Out(th: Thread) { Leaving(th.p) || th.p.Host? }

  // What one step may do to the report of a thread: nothing, once it is on its way out.
  predicate Reports(th: Thread, th': Thread, code: nat) {
    if th.failed.Some? then code == 0 && th'.failed == th.failed && th'.err == th.err && Out(th')
    else if code == 0 then th'.failed.None? && th'.err == 0
    else th'.failed == Some(th.p) && th'.err == code && Out(th')
  }

  lemma OwnReports(k: H.Config, s: State, t: Tid, x: Move)
    requires Enabled(k, s, t, x) && x.Go? && !s.threads[t].p.Host?
    requires if s.threads[t].failed.Some? then Out(s.threads[t]) else s.threads[t].err == 0
    ensures t in Step(k, s, t, x).threads
    ensures Reports(s.threads[t], Step(k, s, t, x).threads[t], Code(k, s.g, s.threads[t], x.e))
  {
    hide Effect, Takes, Gives, Matches;
    if s.threads[t].failed.Some? { LeavingGoesOn(s.threads[t]); } else { ErrorLeaves(s.threads[t].p); }
    hide OnOk, OnError;
  }

  lemma LeavingGoesOn(th: Thread)
    requires Leaving(th.p)
    ensures Sure(th.p) && !KindOf(th.p).Getting? && !KindOf(th.p).Killing? && (Leaving(OnOk(th.p)) || OnOk(th.p).Host?)
  {
  }

  lemma ErrorLeaves(p: Point)
    ensures Leaving(OnError(p)) || OnError(p).Host?
  {
  }

  lemma ReportedNext(k: H.Config, tr: seq<State>, evs: seq<Event>, t: Tid, i: nat, n: nat, first: Option<nat>)
    requires i + 1 < n <= |evs| < |tr| && Reported(k, tr, evs, t, i, n - 1, first) && t in tr[n].threads
    requires Reports(tr[n - 1].threads[t], tr[n].threads[t], CodeAt(k, tr, evs, t, n - 1))
    ensures Reported(k, tr, evs, t, i, n, if CodeAt(k, tr, evs, t, n - 1) != 0 then Some(n - 1) else first)
  {
    hide CodeAt, Leaving;
  }

  lemma NotYet(k: H.Config, tr: seq<State>, evs: seq<Event>, t: Tid, i: nat)
    requires i < |evs| < |tr| && t in tr[i + 1].threads && tr[i + 1].threads[t].failed.None? && tr[i + 1].threads[t].err == 0
    ensures Reported(k, tr, evs, t, i, i + 1, None)
  {
    hide CodeAt;
  }

  lemma Entered(k: H.Config, s: State, t: Tid, x: Move)
    requires Enabled(k, s, t, x) && x.Enter?
    ensures t in Step(k, s, t, x).threads && var th := Step(k, s, t, x).threads[t]; th.failed.None? && th.err == 0
  {
  }

  lemma CodeIs(k: H.Config, tr: seq<State>, evs: seq<Event>, t: Tid, j: nat)
    requires j < |evs| < |tr| && t in tr[j].threads
    ensures CodeAt(k, tr, evs, t, j) ==
      if evs[j].t == t && evs[j].x.Go? then Code(k, tr[j].g, tr[j].threads[t], evs[j].x.e) else 0
  {
  }

  lemma StandsStill(k: H.Config, tr: seq<State>, evs: seq<Event>, t: Tid, i: nat, n: nat, first: Option<nat>)
    requires i < n <= |evs| < |tr| && Reported(k, tr, evs, t, i, n, first)
    ensures t in tr[n].threads && if tr[n].threads[t].failed.Some? then Out(tr[n].threads[t]) else tr[n].threads[t].err == 0
    ensures Reports(tr[n].threads[t], tr[n].threads[t], 0)
  {
    hide CodeAt;
  }

  /** A call reports the code of the one stage that failed, or success if none did. */
  lemma {:induction false} ReportsFailure(k: H.Config, tr: seq<State>, evs: seq<Event>, t: Tid, i: nat, n: nat)
    returns (first: Option<nat>)
    requires Run(k, tr, evs) && |tr| == |evs| + 1 && i < n <= |evs| && evs[i].t == t && evs[i].x.Enter?
    requires forall j :: i < j < n ==> t in tr[j].threads && !tr[j].threads[t].p.Host?
    ensures Reported(k, tr, evs, t, i, n, first)
  {
    hide *;
    var s, e := tr[n - 1], evs[n - 1];
    StepOf(k, tr, evs, n - 1);
    if n == i + 1 {
      Entered(k, s, t, e.x);
      NotYet(k, tr, evs, t, i);
      first := None;
    } else {
      first := ReportsFailure(k, tr, evs, t, i, n - 1);
      StandsStill(k, tr, evs, t, i, n - 1, first);
      CodeIs(k, tr, evs, t, n - 1);
      if e.t != t || e.x.Other? {
        OtherStep(k, s, t, e.t, e.x);
      } else {
        InCall(k, s, t, e.x);
        OwnReports(k, s, t, e.x);
      }
      ReportedNext(k, tr, evs, t, i, n, first);
      first := if CodeAt(k, tr, evs, t, n - 1) != 0 then Some(n - 1) else first;
    }
  }
}
