/** The client calls of c/enclave/enc.c, exit by exit: every stage, every label it may jump to,
    what each call allocates and frees and which parts of the client it needs.  Any number of
    threads, any handles, any stage failing.  The handle protocol of `ClientHandles` is what
    remains when everything but the acq words is forgotten. */
module EnclaveCalls {
  import opened Options
  import opened Words
  import H = ClientHandles

  type Addr = H.Addr
  type Tid = H.Tid

  datatype Call = NewClient | CloseClient | Handshake | RateLimit | Lookup

  // What a call must give back before it returns: a read lock and its buffers.
  datatype Resource = StartLock | Buf(b: Buffer)
  datatype Buffer = Index | E164s | Records | Triples | Response | Plaintext

  datatype NewPoint =
    | Alloc | NoiseState | Lock | Privkey | Fits | Keypair | Add | Publicise
    | UnlockStart | FreeIfFailed        // unlock_handshake, free_client

  datatype ShakePoint = ShakeGuard | Start | ReadTurn | Read | WriteTurn | Write | Room | SplitTurn | Split

  datatype LimitPoint =
    | LimitGuard | OldHash | NewHash | DecryptRequest | Workspace | NewRequest | DecodeRequest | CheckSizes | Token
    | Random | Compute | NewReply | ReplyBuffer | EncodeReply | EncryptReply | FreeReply

  datatype RunPoint =
    | RunGuard | Decrypt | Request | Decode | Ack | Obtain(b: Buffer) | Pairs | Query | Answer | Message | Encode | Encrypt
    | Drop(b: Buffer)               // the labels free_index to free_plaintext_buf

  // Where a thread is: the stage it is about to do.
  datatype Point =
    | Host                          // not in the enclave
    | Entry(call: Call)             // check_init_complete
    | Acquire(call: Call)           // client_get
    | InNew(n: NewPoint)            // enclave_new_client
    | Remove                        // client_remove
    | Dying(removed: bool)          // client_free, its store
    | Freeing                       // client_free, its frees
    | InShake(h: ShakePoint)        // enclave_handshake
    | InLimit(l: LimitPoint)        // enclave_rate_limit
    | InRun(r: RunPoint)            // enclave_run
    | Unlock                        // client_unlock

  // Where a stage that succeeds goes on, and the label one that fails jumps to.

  function NewOk(n: NewPoint): Point {
    match n
    case Alloc => InNew(NoiseState) case NoiseState => InNew(Lock) case Lock => InNew(Privkey) case Privkey => InNew(Fits)
    case Fits => InNew(Keypair) case Keypair => InNew(Add) case Add => InNew(Publicise)
    case Publicise => InNew(UnlockStart) case UnlockStart => InNew(FreeIfFailed) case FreeIfFailed => Host
  }

  function NewError(n: NewPoint): Point {
    match n
    case Alloc => Host
    case NoiseState => InNew(FreeIfFailed)
    case _ => InNew(UnlockStart)
  }

  function ShakeOk(h: ShakePoint): Point {
    match h
    case ShakeGuard => InShake(Start) case Start => InShake(ReadTurn) case ReadTurn => InShake(Read)
    case Read => InShake(WriteTurn) case WriteTurn => InShake(Write) case Write => InShake(Room)
    case Room => InShake(SplitTurn) case SplitTurn => InShake(Split) case Split => Unlock
  }

  function LimitOk(l: LimitPoint): Point {
    match l
    case LimitGuard => InLimit(OldHash) case OldHash => InLimit(NewHash) case NewHash => InLimit(DecryptRequest)
    case DecryptRequest => InLimit(Workspace) case Workspace => InLimit(NewRequest) case NewRequest => InLimit(DecodeRequest)
    case DecodeRequest => InLimit(CheckSizes) case CheckSizes => InLimit(Token) case Token => InLimit(Random)
    case Random => InLimit(Compute) case Compute => InLimit(NewReply) case NewReply => InLimit(ReplyBuffer)
    case ReplyBuffer => InLimit(EncodeReply) case EncodeReply => InLimit(EncryptReply) case EncryptReply => InLimit(FreeReply)
    case FreeReply => Unlock
  }

  function LimitError(l: LimitPoint): Point {
    match l
    case EncodeReply => InLimit(FreeReply) case EncryptReply => InLimit(FreeReply)
    case _ => Unlock
  }

  // The next label down the ladder.
  function Below(b: Buffer): Point {
    match b
    case Plaintext => InRun(Drop(Response)) case Response => InRun(Drop(Triples)) case Triples => InRun(Drop(Records))
    case Records => InRun(Drop(E164s)) case E164s => InRun(Drop(Index)) case Index => Unlock
  }

  function RunOk(r: RunPoint): Point {
    match r
    case RunGuard => InRun(Decrypt) case Decrypt => InRun(Request) case Request => InRun(Decode)
    case Decode => InRun(Ack) case Ack => InRun(Obtain(Index))
    case Obtain(Index) => InRun(Pairs) case Pairs => InRun(Obtain(E164s))
    case Obtain(E164s) => InRun(Obtain(Records))
    case Obtain(Records) => InRun(Query) case Query => InRun(Obtain(Triples))
    case Obtain(Triples) => InRun(Answer) case Answer => InRun(Obtain(Response))
    case Obtain(Response) => InRun(Message) case Message => InRun(Obtain(Plaintext))
    case Obtain(Plaintext) => InRun(Encode) case Encode => InRun(Encrypt) case Encrypt => InRun(Drop(Plaintext))
    case Drop(b) => Below(b)
  }

  function RunError(r: RunPoint): Point {
    match r
    case Obtain(b) => Below(b)
    case Pairs => InRun(Drop(Index))
    case Query => InRun(Drop(E164s))
    case Answer => InRun(Drop(Records))
    case Message => InRun(Drop(Response))
    case Encode => InRun(Drop(Plaintext)) case Encrypt => InRun(Drop(Plaintext))
    case _ => Unlock
  }

  function OnOk(p: Point): Point {
    match p
    case Entry(NewClient) => InNew(Alloc)
    case Entry(CloseClient) => Remove
    case Entry(call) => Acquire(call)
    case Acquire(Handshake) => InShake(ShakeGuard)
    case Acquire(RateLimit) => InLimit(LimitGuard)
    case Acquire(_) => InRun(RunGuard)
    case InNew(n) => NewOk(n)
    case Remove => Dying(true)
    case Dying(_) => Freeing
    case InShake(h) => ShakeOk(h)
    case InLimit(l) => LimitOk(l)
    case InRun(r) => RunOk(r)
    case _ => Host
  }

  function OnError(p: Point): Point {
    match p
    case InNew(n) => NewError(n)
    case InShake(_) => Unlock
    case InLimit(l) => LimitError(l)
    case InRun(r) => RunError(r)
    case _ => Host
  }

  // Stages behind a label: they report nothing.
  predicate Leaving(p: Point) {
    match p
    case InNew(n) => n.UnlockStart? || n.FreeIfFailed?
    case InLimit(l) => l.FreeReply?
    case InRun(r) => r.Drop?
    case _ => p.Dying? || p.Freeing? || p.Unlock?
  }

  // Stages that cannot fail.
  predicate Sure(p: Point) { Leaving(p) || p == InNew(Lock) || p == InNew(Publicise) }

  function Takes(p: Point): Option<Resource> {
    match p
    case InNew(Lock) => Some(StartLock)
    case InLimit(ReplyBuffer) => Some(Buf(Plaintext))
    case InRun(Obtain(b)) => Some(Buf(b))
    case _ => None
  }

  function Gives(p: Point): Option<Resource> {
    match p
    case InNew(UnlockStart) => Some(StartLock)
    case InLimit(FreeReply) => Some(Buf(Plaintext))
    case InRun(Drop(b)) => Some(Buf(b))
    case _ => None
  }

  // ----- the client

  // Byte counts of the three lists of a decoded request.
  datatype Sizes = Sizes(pairs: nat, prev: nat, next: nat)

  // The input check of enclave_rate_limit.
  predicate Refused(r: Sizes) {
    And(r.pairs, 31) != 0 || And(r.prev, 7) != 0 || And(r.next, 7) != 0 || r.next + r.prev == 0
  }

  ghost predicate WholeWords(r: Sizes) { r.pairs % 32 == 0 && r.prev % 8 == 0 && r.next % 8 == 0 && r.next + r.prev > 0 }

  lemma RefusedIff(r: Sizes)
    ensures Refused(r) <==> !WholeWords(r)
  {
    hide And;
    assert Pow2(0) == 1 && Pow2(1) == 2 && Pow2(2) == 4;
    assert Pow2(3) == 8 && Pow2(4) == 16 && Pow2(5) == 32;
    AndLowMask(r.pairs, 5);
    AndLowMask(r.prev, 3);
    AndLowMask(r.next, 3);
  }

  // Which of a client's pointers are set, and the sizes in its request.
  datatype Parts = Parts(handshake: bool, send: bool, recv: bool, workspace: bool, req: Option<Sizes>)

  const NO_PARTS := Parts(false, false, false, false, None)

  // The guards of the three calls.
  predicate GuardOk(p: Point, f: Parts) {
    match p
    case InShake(ShakeGuard) => f.handshake
    case InLimit(LimitGuard) => f.req.None? && f.send && f.recv && !f.workspace
    case InRun(RunGuard) => f.req.Some? && f.send && f.recv
    case _ => true
  }

  predicate IsGuard(p: Point) { p == InShake(ShakeGuard) || p == InLimit(LimitGuard) || p == InRun(RunGuard) }

  // What a successful stage changes in the client.
  function Changed(p: Point, f: Parts, draft: Option<Sizes>): Parts {
    match p
    case InNew(NoiseState) => f.(handshake := true)
    case InShake(Split) => f.(handshake := false, send := true, recv := true)
    case InLimit(Workspace) => f.(workspace := true)
    case InLimit(CheckSizes) => f.(req := draft)
    case _ => f
  }

  // What a stage takes for granted: pointers it follows are set, pointers it sets are not.
  ghost predicate Needs(p: Point, f: Parts, draft: Option<Sizes>) {
    match p
    case InNew(n) => (n.NoiseState? ==> f == NO_PARTS) && (n.Keypair? ==> f.handshake)
    case InShake(h) => !h.ShakeGuard? && !h.Room? ==> f.handshake && (h.Split? ==> !f.send && !f.recv)
    case InLimit(l) => LimitNeeds(l, f, draft)
    case InRun(r) => RunNeeds(r, f)
    case _ => true
  }

  ghost predicate LimitNeeds(l: LimitPoint, f: Parts, draft: Option<Sizes>) {
    match l
    case DecryptRequest => f.recv
    case Workspace => !f.workspace
    case NewRequest => f.workspace case DecodeRequest => f.workspace
    case CheckSizes => f.workspace && f.req.None? && draft.Some?
    case Token => f.workspace && f.req.Some? case Compute => f.workspace && f.req.Some?
    case EncryptReply => f.send
    case _ => true
  }

  // The pair list is read in whole pairs, the merge needs whole words.
  ghost predicate Readable(f: Parts) { f.workspace && f.req.Some? && WholeWords(f.req.value) }

  ghost predicate RunNeeds(r: RunPoint, f: Parts) {
    match r
    case Decrypt => f.recv
    case Pairs => Readable(f) case Obtain(b) => b.E164s? || b.Records? ==> Readable(f)
    case Encrypt => f.send
    case _ => true
  }

  // ----- the system

  // `err` and `failed` say what failed first and with which code; `taken`, `freed` and `live`
  // are the call's own resources.
  datatype Thread = Thread(
    p: Point, id: Addr, c: Addr, err: nat, failed: Option<Point>, draft: Option<Sizes>,
    taken: seq<Resource>, freed: seq<Resource>, live: set<Resource>)

  // `faulty` records a stage run without what it needs, a resource taken twice or freed without
  // being held; the other fields are those of the handle protocol.
  datatype Memory = Memory(
    mem: map<Addr, nat>, alloc: map<Addr, nat>, parts: map<Addr, Parts>, serial: nat, freed: seq<nat>,
    wrong: bool, faulty: bool)

  datatype State = State(g: Memory, threads: map<Tid, Thread>)

  // Go: the next stage of the thread's call, with the code it returns, the address calloc finds
  // and the sizes decoding yields, where these matter.
  datatype Move = Enter(call: Call, id: Addr) | Go(e: nat, a: Addr, r: Sizes) | Other(a: Addr, word: nat)

  predicate Enabled(k: H.Config, s: State, t: Tid, x: Move) {
    t in s.threads &&
    var th := s.threads[t];
    match x
    case Enter(_, _) => th.p.Host?
    case Other(a, word) => a in s.g.mem && a !in s.g.alloc && a != k.secretAddr && !H.Secretive(k, word)
    case Go(e, a, r) =>
      && !th.p.Host? && (Sure(th.p) ==> e == 0)
      && (KindOf(th.p).Getting? || KindOf(th.p).Killing? ==> e != 0)    // the code of a refusal
      && (KindOf(th.p).Making? && e == 0 ==> a in s.g.mem && a !in s.g.alloc && a != k.secretAddr)
      && (IsGuard(th.p) ==> (e == 0 <==> th.c in s.g.parts && GuardOk(th.p, s.g.parts[th.c])))
      && (th.p == InLimit(CheckSizes) ==> (e == 0 <==> th.draft.Some? && !Refused(th.draft.value)))
  }

  function Fail(th: Thread, e: nat): Thread { th.(p := OnError(th.p), err := e, failed := Some(th.p)) }

  function AsSeq(r: Option<Resource>): seq<Resource> { if r.Some? then [r.value] else [] }
  function AsSet(r: Option<Resource>): set<Resource> { if r.Some? then {r.value} else {} }

  // Control, resources and the decoded request after stage th.p returned e.
  function Advance(th: Thread, e: nat, r: Sizes): Thread {
    if e != 0 then Fail(th, e)
    else th.(
      p := if th.p == InNew(FreeIfFailed) && th.err != 0 then Dying(false) else OnOk(th.p),
      draft := if th.p == InLimit(DecodeRequest) then Some(r) else th.draft,
      taken := th.taken + AsSeq(Takes(th.p)), freed := th.freed + AsSeq(Gives(th.p)),
      live := th.live + AsSet(Takes(th.p)) - AsSet(Gives(th.p)))
  }

  // Taking what is already held, or freeing what is not.
  predicate Misuse(th: Thread, e: nat) { e == 0 && (AsSet(Takes(th.p)) * th.live != {} || !(AsSet(Gives(th.p)) <= th.live)) }

  // The compare-exchange of client_get and client_remove finds a free client.
  predicate Matches(k: H.Config, g: Memory, id: Addr) {
    id in g.mem && id != k.secretAddr && g.mem[id] == H.ClientAcq(k.secret, H.CLIENT_UNUSED)
  }

  // What a stage is about, seen from outside its thread.
  datatype Kind = Silent | Getting | Killing | Making | Publishing | Releasing | Storing | Destroying | Working

  function KindOf(p: Point): Kind {
    match p
    case Acquire(_) => Getting
    case Remove => Killing
    case InNew(n) =>
      if n.Alloc? then Making else if n.Add? then Publishing else if n.Publicise? then Releasing
      else if n.UnlockStart? || n.FreeIfFailed? then Silent else Working
    case Unlock => Releasing
    case Dying(_) => Storing
    case Freeing => Destroying
    case InShake(_) => Working case InLimit(_) => Working case InRun(_) => Working
    case _ => Silent
  }

  // The code a stage ends with, and the client in hand afterwards.
  function Code(k: H.Config, g: Memory, th: Thread, e: nat): nat {
    if (KindOf(th.p).Getting? || KindOf(th.p).Killing?) && Matches(k, g, th.id) then 0 else e
  }

  function ClientNext(th: Thread, e: nat, a: Addr): Addr {
    if (KindOf(th.p).Getting? || KindOf(th.p).Killing?) && e == 0 then th.id
    else if KindOf(th.p).Making? && e == 0 then a
    else th.c
  }

  function Moved(th: Thread, e: nat, a: Addr, r: Sizes): Thread { Advance(th, e, r).(c := ClientNext(th, e, a)) }

  // What a stage that ends with e does to everything but its thread.
  ghost function Effect(k: H.Config, g: Memory, th: Thread, e: nat, a: Addr): Memory {
    match KindOf(th.p)
    case Silent => g.(faulty := g.faulty || Misuse(th, e))
    case Getting => if e == 0 then g.(mem := g.mem[th.id := H.ClientAcq(k.secret, H.CLIENT_INUSE)]) else g
    case Killing => if e == 0 then g.(mem := g.mem[th.id := H.CLIENT_ACQ_DEAD]) else g
    case Making =>
      if e == 0
      then g.(mem := g.mem[a := 0], alloc := g.alloc[a := g.serial], parts := g.parts[a := NO_PARTS], serial := g.serial + 1)
      else g
    case Publishing => if e == 0 then g.(mem := g.mem[th.c := H.ClientAcq(k.secret, H.CLIENT_INUSE)]) else g
    case Releasing => Released(k, g, th.c)
    case Storing => g.(mem := g.mem[th.c := H.CLIENT_ACQ_DEAD], wrong := g.wrong || th.c !in g.alloc)
    case Destroying =>
      if th.c in g.alloc
      then g.(alloc := g.alloc - {th.c}, parts := g.parts - {th.c}, freed := g.freed + [g.alloc[th.c]])
      else g.(wrong := true)
    case Working => Worked(g, th, e)
  }

  // client_setstate back to unused, its result ignored.
  function Released(k: H.Config, g: Memory, c: Addr): Memory {
    if c in g.mem && g.mem[c] == H.ClientAcq(k.secret, H.CLIENT_INUSE)
    then g.(mem := g.mem[c := H.ClientAcq(k.secret, H.CLIENT_UNUSED)])
    else g.(wrong := true)
  }

  // A stage with client c in hand.
  ghost function Worked(g: Memory, th: Thread, e: nat): Memory {
    var f := if th.c in g.parts then g.parts[th.c] else NO_PARTS;
    g.(parts := if e == 0 && th.c in g.parts then g.parts[th.c := Changed(th.p, f, th.draft)] else g.parts,
       wrong := g.wrong || th.c !in g.alloc,
       faulty := g.faulty || !Needs(th.p, f, th.draft) || Misuse(th, e))
  }

  ghost function Step(k: H.Config, s: State, t: Tid, x: Move): State
    requires Enabled(k, s, t, x)
  {
    var th := s.threads[t];
    match x
    case Enter(call, id) => s.(threads := s.threads[t := Arriving(Entry(call), id)])
    case Other(a, word) => s.(g := s.g.(mem := s.g.mem[a := word]))
    case Go(e, a, r) =>
      var code := Code(k, s.g, th, e);
      State(Effect(k, s.g, th, code, a), s.threads[t := Moved(th, code, a, r)])
  }

  ghost predicate Init(k: H.Config, s: State) {
    && H.Init(k, View(s)) && s.g.parts == map[] && !s.g.faulty
    && forall t :: t in s.threads ==> s.threads[t] == Arriving(Host, 0)
  }

  function Arriving(p: Point, id: Addr): Thread { Thread(p, id, 0, 0, None, None, [], [], {}) }

  datatype Event = Event(t: Tid, x: Move)

  ghost predicate Run(k: H.Config, tr: seq<State>, evs: seq<Event>) {
    && |tr| == |evs| + 1 && Init(k, tr[0])
    && forall i :: 0 <= i < |evs| ==>
         Enabled(k, tr[i], evs[i].t, evs[i].x) && tr[i + 1] == Step(k, tr[i], evs[i].t, evs[i].x)
  }

  // ----- the handle protocol inside

  // What a thread owns follows from where it is: nothing in the host, nothing before it has
  // acquired, nothing past its release.
  function Owned(th: Thread): H.Pc {
    match th.p
    case InNew(n) =>
      if n.Alloc? then H.Outside
      else if n.Publicise? then H.Held(th.c)
      else if (n.UnlockStart? || n.FreeIfFailed?) && th.err == 0 then H.Outside
      else H.Made(th.c)
    case Dying(removed) => if removed then H.Killed(th.c) else H.Made(th.c)
    case Freeing => H.Freeing(th.c)
    case InShake(_) => H.Held(th.c) case InLimit(_) => H.Held(th.c) case InRun(_) => H.Held(th.c)
    case Unlock => H.Held(th.c)
    case _ => H.Outside
  }

  predicate Owns(th: Thread) { !Owned(th).Outside? }

  function View(s: State): H.World {
    H.World(s.g.mem, s.g.alloc, map t | t in s.threads :: Owned(s.threads[t]), s.g.serial, s.g.freed, s.g.wrong)
  }

  // The handle operation a move amounts to, if any.
  function HandleAction(s: State, t: Tid, x: Move): Option<H.Action>
    requires t in s.threads
  {
    var th := s.threads[t];
    match x
    case Enter(_, _) => None
    case Other(a, word) => Some(H.Other(a, word))
    case Go(e, a, _) =>
      match KindOf(th.p)
      case Silent => None
      case Getting => Some(H.Get(th.id))
      case Killing => Some(H.Remove(th.id))
      case Making => if e == 0 then Some(H.New(a)) else None
      case Publishing => if e == 0 then Some(H.Publish) else None
      case Releasing => Some(H.Release)
      case Storing => Some(H.StoreDead)
      case Destroying => Some(H.Free)
      case Working => Some(H.Touch)
  }

  // ----- what one thread knows

  function Rung(b: Buffer): nat {
    match b
    case Index => 1 case E164s => 2 case Records => 3 case Triples => 4 case Response => 5 case Plaintext => 6
  }

  // How much of the ladder at the end of enclave_run a thread at r has to go down.
  function Rungs(r: RunPoint): nat {
    match r
    case Obtain(b) => Rung(b) - 1
    case Pairs => 1 case Query => 3 case Answer => 4 case Message => 5 case Encode => 6 case Encrypt => 6
    case Drop(b) => Rung(b)
    case _ => 0
  }

  // Whether a thread at p holds x, had nothing been forgotten on the way.
  predicate Owes(p: Point, x: Resource) {
    match p
    case InNew(n) => x.StartLock? && (n.Privkey? || n.Fits? || n.Keypair? || n.Add? || n.Publicise? || n.UnlockStart?)
    case InLimit(l) => x == Buf(Plaintext) && (l.EncodeReply? || l.EncryptReply? || l.FreeReply?)
    case InRun(r) => x.Buf? && Rung(x.b) <= Rungs(r)
    case _ => false
  }

  // Two jumps of enclave_run go past the label that would free what they hold.
  predicate Forgotten(failed: Option<Point>, x: Resource) {
    (failed == Some(InRun(Query)) && x == Buf(Records)) || (failed == Some(InRun(Answer)) && x == Buf(Triples))
  }

  function Count(rs: seq<Resource>, x: Resource): nat {
    if rs == [] then 0 else Count(rs[..|rs| - 1], x) + (if rs[|rs| - 1] == x then 1 else 0)
  }

  lemma CountAppend(rs: seq<Resource>, r: Option<Resource>, x: Resource)
    ensures Count(rs + AsSeq(r), x) == Count(rs, x) + (if r == Some(x) then 1 else 0)
  {
    if r.Some? { assert (rs + [r.value])[..|rs|] == rs; } else { assert rs + [] == rs; }
  }

  // What is held is what should be, and everything taken is freed or held, and taken once.
  ghost predicate Booked(th: Thread, r: Resource) {
    && (r in th.live <==> Owes(th.p, r) || Forgotten(th.failed, r))
    && (Owes(th.p, r) ==> !Forgotten(th.failed, r))
    && Count(th.taken, r) == Count(th.freed, r) + (if r in th.live then 1 else 0) <= 1
  }

  ghost predicate LocalOk(th: Thread) {
    && (th.err != 0 <==> th.failed.Some?)
    && (th.failed.Some? ==> Leaving(th.p) || th.p.Host?)
    && (!Leaving(th.p) && !th.p.Host? ==> th.freed == [])
    && forall r :: Booked(th, r)
  }

  ghost predicate Flows(p: Point, x: Resource) {
    && (Owes(OnOk(p), x) <==> (Owes(p, x) || Takes(p) == Some(x)) && Gives(p) != Some(x))
    && (Takes(p) == Some(x) ==> !Owes(p, x) && !Leaving(p))
    && (Gives(p) == Some(x) ==> Owes(p, x) && Leaving(p))
    && (Leaving(p) ==> Leaving(OnOk(p)) || OnOk(p).Host?)
  }

  lemma RunFlows(r: RunPoint, x: Resource)
    ensures Flows(InRun(r), x)
  {
    hide NewOk, ShakeOk, LimitOk;
  }

  lemma LimitFlows(l: LimitPoint, x: Resource)
    ensures Flows(InLimit(l), x)
  {
    hide NewOk, ShakeOk, RunOk, Rungs;
  }

  // Going on keeps the books, stage by stage.
  lemma FlowOk(p: Point, x: Resource)
    requires !p.Host?
    ensures Flows(p, x)
  {
    match p
    case InRun(r) => RunFlows(r, x);
    case InLimit(l) => LimitFlows(l, x);
    case _ =>
      hide RunOk, LimitOk, Rungs;
  }

  // So does every jump but two.
  lemma FlowError(p: Point, r: Resource)
    requires !p.Host? && !Sure(p)
    ensures Owes(p, r) <==> Owes(OnError(p), r) || Forgotten(Some(p), r)
    ensures Owes(OnError(p), r) ==> !Forgotten(Some(p), r)
    ensures Leaving(OnError(p)) || OnError(p).Host?
  {
  }

  lemma FailKeepsBooks(th: Thread, e: nat, x: Resource)
    requires Booked(th, x) && th.failed.None? && !th.p.Host? && !Sure(th.p)
    ensures Booked(Fail(th, e), x)
  {
    hide Owes, OnError;
    FlowError(th.p, x);
  }

  lemma GoKeepsBooks(th: Thread, r: Sizes, x: Resource)
    requires Booked(th, x) && !th.p.Host? && (!Leaving(th.p) ==> th.failed.None? && th.freed == [])
    ensures Booked(Advance(th, 0, r), x)
    ensures (Takes(th.p) == Some(x) ==> x !in th.live) && (Gives(th.p) == Some(x) ==> x in th.live)
  {
    hide Owes, OnOk, Takes, Gives, Leaving, AsSeq, Count;
    FlowOk(th.p, x);
    ExitOwesNothing(x);
    CountAppend(th.taken, Takes(th.p), x);
    CountAppend(th.freed, Gives(th.p), x);
    CountNone(x);
  }

  lemma CountNone(x: Resource)
    ensures Count([], x) == 0
  {
  }

  lemma ExitOwesNothing(x: Resource)
    ensures !Owes(Dying(false), x) && !Owes(OnOk(InNew(FreeIfFailed)), x)
  {
  }

  lemma AdvanceKeepsLocal(th: Thread, e: nat, r: Sizes)
    requires LocalOk(th) && !th.p.Host? && (Sure(th.p) ==> e == 0)
    ensures LocalOk(Advance(th, e, r)) && !Misuse(th, e)
  {
    hide Owes, OnOk, OnError, Takes, Gives, Booked, Leaving;
    var th' := Advance(th, e, r);
    FlowOk(th.p, StartLock);
    if e != 0 { FlowError(th.p, StartLock); }
    NoGives(th.p);
    forall x ensures Booked(th', x) {
      if e != 0 { FailKeepsBooks(th, e, x); } else { GoKeepsBooks(th, r, x); }
    }
    if e == 0 {
      if Takes(th.p).Some? { GoKeepsBooks(th, r, Takes(th.p).value); }
      if Gives(th.p).Some? { GoKeepsBooks(th, r, Gives(th.p).value); }
    }
  }

  lemma NoGives(p: Point)
    ensures !Leaving(p) ==> Gives(p).None?
    ensures Leaving(Dying(false))
  {
  }

  // ----- each move is a move of the handle protocol, or none

  // What a thread owns after a stage that ends with e.  Whichever way the stages in between
  // end, the client stays in hand.
  function OwnedNext(th: Thread, e: nat, a: Addr): H.Pc {
    match KindOf(th.p)
    case Getting => if e == 0 then H.Held(th.id) else H.Outside
    case Killing => if e == 0 then H.Killed(th.id) else H.Outside
    case Making => if e == 0 then H.Made(a) else H.Outside
    case Publishing => if e == 0 then H.Held(th.c) else H.Made(th.c)
    case Releasing => H.Outside
    case Storing => H.Freeing(th.c)
    case Destroying => H.Outside
    case _ => Owned(th)
  }

  // What a stage of each kind finds in its thread's hands.
  ghost predicate OwnedFits(th: Thread) {
    match KindOf(th.p)
    case Silent => true
    case Getting => Owned(th) == H.Outside case Killing => Owned(th) == H.Outside case Making => Owned(th) == H.Outside
    case Publishing => Owned(th) == H.Made(th.c)
    case Releasing => Owned(th) == H.Held(th.c)
    case Storing => Owned(th) == H.Killed(th.c) || Owned(th) == H.Made(th.c)
    case Destroying => Owned(th) == H.Freeing(th.c)
    case Working => Owned(th) == H.Held(th.c) || Owned(th) == H.Made(th.c)
  }

  lemma MoveOwns(th: Thread, e: nat, a: Addr, r: Sizes)
    requires !th.p.Host? && LocalOk(th) && (Sure(th.p) ==> e == 0)
    ensures Owned(Moved(th, e, a, r)) == OwnedNext(th, e, a) && OwnedFits(th)
  {
    hide Takes, Gives, AsSeq, AsSet, Booked;
  }

  lemma ViewMoves(s: State, g: Memory, t: Tid, th: Thread)
    requires t in s.threads
    ensures View(State(g, s.threads[t := th])) == H.World(g.mem, g.alloc, View(s).pc[t := Owned(th)], g.serial, g.freed, g.wrong)
    ensures View(s) == H.World(s.g.mem, s.g.alloc, View(s).pc, s.g.serial, s.g.freed, s.g.wrong)
    ensures t in View(s).pc && View(s).pc[t] == Owned(s.threads[t])
    ensures Owned(th) == Owned(s.threads[t]) ==> View(s).pc[t := Owned(th)] == View(s).pc
  {
    hide Owned;
    assert View(State(g, s.threads[t := th])).pc == View(s).pc[t := Owned(th)];
    if Owned(th) == Owned(s.threads[t]) { assert View(s).pc[t := Owned(th)] == View(s).pc; }
  }

  ghost predicate Refines(k: H.Config, s: State, t: Tid, x: Move)
    requires Enabled(k, s, t, x)
  {
    match HandleAction(s, t, x)
    case None => View(Step(k, s, t, x)) == View(s)
    case Some(d) => H.Enabled(k, View(s), t, d) && View(Step(k, s, t, x)) == H.Apply(k, View(s), t, d)
  }

  lemma StartRefines(k: H.Config, s: State, t: Tid, x: Move)
    requires Enabled(k, s, t, x) && x.Go? && LocalOk(s.threads[t])
    requires var d := KindOf(s.threads[t].p); d.Getting? || d.Killing? || d.Making? || d.Publishing?
    ensures Refines(k, s, t, x)
  {
    hide KindOf, Owned, Moved, Misuse, Needs, Changed, Or, H.ClientAcq, GuardOk, IsGuard, Refused, LocalOk, Sure, View;
    var th := s.threads[t];
    var code := Code(k, s.g, th, x.e);
    MoveOwns(th, code, x.a, x.r);
    ViewMoves(s, Effect(k, s.g, th, code, x.a), t, Moved(th, code, x.a, x.r));
  }

  lemma EndRefines(k: H.Config, s: State, t: Tid, x: Move)
    requires Enabled(k, s, t, x) && x.Go? && LocalOk(s.threads[t])
    requires var d := KindOf(s.threads[t].p); d.Silent? || d.Working? || d.Releasing? || d.Storing? || d.Destroying?
    ensures Refines(k, s, t, x)
  {
    hide KindOf, Owned, Moved, Misuse, Needs, Changed, Or, H.ClientAcq, GuardOk, IsGuard, Refused, LocalOk, Sure, View;
    var th := s.threads[t];
    var code := Code(k, s.g, th, x.e);
    MoveOwns(th, code, x.a, x.r);
    ViewMoves(s, Effect(k, s.g, th, code, x.a), t, Moved(th, code, x.a, x.r));
  }

  /** Every move of a call is one move of the handle protocol or invisible to it. */
  lemma StepRefines(k: H.Config, s: State, t: Tid, x: Move)
    requires Enabled(k, s, t, x) && LocalOk(s.threads[t])
    ensures Refines(k, s, t, x)
  {
    hide Or, H.ClientAcq, Effect, Moved;
    if x.Go? {
      var d := KindOf(s.threads[t].p);
      if d.Getting? || d.Killing? || d.Making? || d.Publishing? { StartRefines(k, s, t, x); } else { EndRefines(k, s, t, x); }
    } else if x.Enter? {
      ViewMoves(s, s.g, t, Arriving(Entry(x.call), x.id));
    }
  }

  // ----- the parts of a client

  ghost predicate PartsOk(f: Parts) {
    && (f.send <==> f.recv) && (f.send ==> !f.handshake) && (f.workspace ==> f.send)
    && (f.req.Some? ==> f.workspace && WholeWords(f.req.value))
  }

  // What a thread at p knows about the client in its hands.
  ghost predicate Knows(p: Point, f: Parts, draft: Option<Sizes>) {
    match p
    case InNew(n) =>
      if n.NoiseState? then f == NO_PARTS
      else n.Lock? || n.Privkey? || n.Fits? || n.Keypair? || n.Add? || n.Publicise? ==> f.handshake
    case InShake(h) => !h.ShakeGuard? ==> f.handshake
    case InLimit(l) => LimitKnows(l, f, draft)
    case InRun(r) => !r.RunGuard? && !r.Drop? ==> f.send && f.req.Some?
    case _ => true
  }

  ghost predicate LimitKnows(l: LimitPoint, f: Parts, draft: Option<Sizes>) {
    match l
    case LimitGuard => true
    case OldHash => f.send && !f.workspace case NewHash => f.send && !f.workspace
    case DecryptRequest => f.send && !f.workspace case Workspace => f.send && !f.workspace
    case NewRequest => f.workspace && f.req.None? case DecodeRequest => f.workspace && f.req.None?
    case CheckSizes => f.workspace && f.req.None? && draft.Some?
    case _ => f.req.Some?
  }

  lemma KnowsNeeds(p: Point, f: Parts, draft: Option<Sizes>)
    requires PartsOk(f) && Knows(p, f, draft)
    ensures Needs(p, f, draft)
  {
  }

  lemma WorkKeepsKnown(th: Thread, f: Parts, e: nat, r: Sizes)
    requires PartsOk(f) && Knows(th.p, f, th.draft) && KindOf(th.p).Working?
    requires IsGuard(th.p) ==> (e == 0 <==> GuardOk(th.p, f))
    requires th.p == InLimit(CheckSizes) ==> (e == 0 <==> th.draft.Some? && !Refused(th.draft.value))
    ensures var f', th' := if e == 0 then Changed(th.p, f, th.draft) else f, Advance(th, e, r);
      PartsOk(f') && Knows(th'.p, f', th'.draft)
  {
    hide Refused, WholeWords, Takes, Gives;
    if th.draft.Some? { RefusedIff(th.draft.value); }
  }

  // ----- every run

  ghost predicate Known(s: State, th: Thread) {
    Owns(th) ==> th.c in s.g.parts && Knows(th.p, s.g.parts[th.c], th.draft)
  }

  // Exactly the live clients have parts.
  ghost predicate SameKeys(g: Memory) { forall a :: a in g.parts <==> a in g.alloc }

  ghost predicate Inv(k: H.Config, s: State) {
    && H.Inv(k, View(s)) && !s.g.faulty
    && SameKeys(s.g) && (forall a :: a in s.g.parts ==> PartsOk(s.g.parts[a]))
    && (forall t :: t in s.threads ==> LocalOk(s.threads[t]) && Known(s, s.threads[t]))
  }

  lemma ArrivesOk(p: Point, id: Addr)
    requires p.Host? || p.Entry?
    ensures LocalOk(Arriving(p, id)) && Owned(Arriving(p, id)) == H.Outside
  {
  }

  lemma StepKeepsLocal(k: H.Config, s: State, t: Tid, x: Move)
    requires Inv(k, s) && Enabled(k, s, t, x)
    ensures forall u :: u in Step(k, s, t, x).threads ==> LocalOk(Step(k, s, t, x).threads[u])
  {
    hide LocalOk, H.Inv, Effect, Advance, Or;
    var th := s.threads[t];
    if x.Go? {
      var code := Code(k, s.g, th, x.e);
      AdvanceKeepsLocal(th, code, x.r);
      LocalFrame(Advance(th, code, x.r), ClientNext(th, code, x.a));
    } else if x.Enter? {
      ArrivesOk(Entry(x.call), x.id);
    }
  }

  lemma LocalFrame(th: Thread, c: Addr)
    requires LocalOk(th)
    ensures LocalOk(th.(c := c))
  {
    hide Owes, Forgotten, Count;
    forall x ensures Booked(th.(c := c), x) { assert Booked(th, x); }
  }

  // Two owners have two clients.
  lemma Apart(k: H.Config, s: State, t: Tid, u: Tid)
    requires H.Inv(k, View(s)) && t in s.threads && u in s.threads && t != u
    requires Owns(s.threads[t]) && Owns(s.threads[u])
    ensures s.threads[t].c in s.g.alloc && s.threads[u].c in s.g.alloc && s.threads[t].c != s.threads[u].c
  {
    var w := View(s);
    assert t in w.pc && u in w.pc;
    assert w.pc[t].a == s.threads[t].c && w.pc[u].a == s.threads[u].c;
    hide H.Serials, H.NoneStuck, Owned;
  }

  // The stages that change the parts of a client, and then only of the one in hand.
  predicate Alters(th: Thread, e: nat) {
    KindOf(th.p).Working? || KindOf(th.p).Destroying? || (KindOf(th.p).Making? && e == 0)
  }

  lemma EffectOnParts(k: H.Config, g: Memory, th: Thread, e: nat, a: Addr)
    ensures var g' := Effect(k, g, th, e, a);
      && (!Alters(th, e) ==> g'.parts == g.parts)
      && (forall b :: b in g.parts && b != ClientNext(th, e, a) ==> b in g'.parts && g'.parts[b] == g.parts[b])
      && (forall b :: b in g'.parts && b != ClientNext(th, e, a) ==> b in g.parts)
  {
    hide KindOf, Needs, Changed, Misuse, Or, H.ClientAcq;
  }

  lemma EffectOnKeys(k: H.Config, g: Memory, th: Thread, e: nat, a: Addr, b: Addr)
    requires b in g.parts <==> b in g.alloc
    ensures var g' := Effect(k, g, th, e, a); b in g'.parts <==> b in g'.alloc
  {
    hide KindOf, Worked, Released, Misuse, Or, H.ClientAcq;
    match KindOf(th.p)
    case Making =>
    case Destroying =>
    case Working => WorkedKeys(g, th, e, b);
    case Releasing => ReleasedKeys(k, g, th.c);
    case _ => OthersKeepKeys(k, g, th, e, a);
  }

  lemma OthersKeepKeys(k: H.Config, g: Memory, th: Thread, e: nat, a: Addr)
    requires KindOf(th.p) in {Silent, Getting, Killing, Publishing, Storing}
    ensures Effect(k, g, th, e, a).parts == g.parts && Effect(k, g, th, e, a).alloc == g.alloc
  {
    hide KindOf, Worked, Released, Misuse, Or, H.ClientAcq;
  }

  lemma WorkedKeys(g: Memory, th: Thread, e: nat, b: Addr)
    ensures (b in Worked(g, th, e).parts <==> b in g.parts) && Worked(g, th, e).alloc == g.alloc
  {
    hide Needs, Changed, Misuse;
  }

  lemma ReleasedKeys(k: H.Config, g: Memory, c: Addr)
    ensures Released(k, g, c).parts == g.parts && Released(k, g, c).alloc == g.alloc
  {
    hide H.ClientAcq;
  }

  // Stages that leave the parts alone need to know nothing new.
  lemma MoveKnows(th: Thread, e: nat, a: Addr, r: Sizes, f: Parts)
    requires !th.p.Host? && !KindOf(th.p).Working? && (KindOf(th.p).Making? ==> f == NO_PARTS)
    requires Owns(th) ==> Knows(th.p, f, th.draft)
    ensures Knows(Moved(th, e, a, r).p, f, Moved(th, e, a, r).draft)
  {
    hide Takes, Gives;
  }

  // A thread that owns a client owns a live one; a handle that matches names one.
  lemma OwnedLive(k: H.Config, s: State, t: Tid)
    requires H.Inv(k, View(s)) && t in s.threads
    ensures Owns(s.threads[t]) ==> s.threads[t].c in s.g.alloc
    ensures Matches(k, s.g, s.threads[t].id) ==> s.threads[t].id in s.g.alloc
  {
    var w := View(s);
    assert t in w.pc && (!w.pc[t].Outside? ==> w.pc[t].a == s.threads[t].c);
    hide H.Serials, H.NoneStuck, H.Exclusive, Owned, Or;
  }

  lemma WorkKeepsParts(k: H.Config, s: State, t: Tid, x: Move)
    requires Inv(k, s) && Enabled(k, s, t, x) && x.Go? && KindOf(s.threads[t].p).Working?
    ensures var th := s.threads[t];
      var g', th' := Effect(k, s.g, th, x.e, x.a), Moved(th, x.e, x.a, x.r);
      && th'.c == th.c && th.c in g'.parts && PartsOk(g'.parts[th.c]) && Knows(th'.p, g'.parts[th.c], th'.draft)
      && !g'.faulty
  {
    hide KindOf, Owned, LocalOk, PartsOk, Knows, Needs, Changed, Misuse, Advance, H.Inv, View, Or, Sure, GuardOk, Refused;
    var th := s.threads[t];
    OwnedLive(k, s, t);
    MoveOwns(th, x.e, x.a, x.r);
    var f := s.g.parts[th.c];
    assert Known(s, th);
    KnowsNeeds(th.p, f, th.draft);
    WorkKeepsKnown(th, f, x.e, x.r);
    AdvanceKeepsLocal(th, x.e, x.r);
  }

  lemma MoveKeepsParts(k: H.Config, s: State, t: Tid, x: Move)
    requires Inv(k, s) && Enabled(k, s, t, x) && x.Go? && !KindOf(s.threads[t].p).Working?
    ensures var th := s.threads[t];
      var code := Code(k, s.g, th, x.e);
      var g', th' := Effect(k, s.g, th, code, x.a), Moved(th, code, x.a, x.r);
      && (Owns(th') ==> th'.c in g'.parts && PartsOk(g'.parts[th'.c]) && Knows(th'.p, g'.parts[th'.c], th'.draft))
      && !g'.faulty && (forall b :: b in g'.parts ==> PartsOk(g'.parts[b]))
  {
    hide KindOf, Changed, Needs, Owned, LocalOk, PartsOk, Knows, Misuse, Advance, H.Inv, View, Or, Sure, GuardOk, Refused;
    var th := s.threads[t];
    var code := Code(k, s.g, th, x.e);
    OwnedLive(k, s, t);
    MoveOwns(th, code, x.a, x.r);
    assert Known(s, th);
    AdvanceKeepsLocal(th, code, x.r);
    var c := ClientNext(th, code, x.a);
    var f := if KindOf(th.p).Making? then NO_PARTS else if c in s.g.parts then s.g.parts[c] else NO_PARTS;
    MoveKnows(th, code, x.a, x.r, f);
    NoPartsOk();
  }

  lemma NoPartsOk()
    ensures PartsOk(NO_PARTS)
  {
  }

  lemma StepKeepsParts(k: H.Config, s: State, t: Tid, x: Move)
    requires Inv(k, s) && Enabled(k, s, t, x) && x.Go?
    ensures var s' := Step(k, s, t, x);
      && !s'.g.faulty && SameKeys(s'.g)
      && (forall a :: a in s'.g.parts ==> PartsOk(s'.g.parts[a]))
      && (forall u :: u in s'.threads ==> Known(s', s'.threads[u]))
  {
    hide KindOf, Owned, LocalOk, PartsOk, Knows, Advance, H.Inv, View, Effect, Or, Sure, GuardOk, Refused, Code;
    var th := s.threads[t];
    var code := Code(k, s.g, th, x.e);
    var s' := Step(k, s, t, x);
    EffectOnParts(k, s.g, th, code, x.a);
    forall b ensures b in s'.g.parts <==> b in s'.g.alloc { EffectOnKeys(k, s.g, th, code, x.a, b); }
    if KindOf(th.p).Working? {
      WorkCode(k, s.g, th, x.e);
      WorkKeepsParts(k, s, t, x);
    } else {
      MoveKeepsParts(k, s, t, x);
    }
    forall u | u in s'.threads && u != t && Owns(s'.threads[u])
      ensures s'.threads[u].c in s'.g.parts && Knows(s'.threads[u].p, s'.g.parts[s'.threads[u].c], s'.threads[u].draft)
    {
      assert Known(s, s.threads[u]);
      if Alters(th, code) { OthersApart(k, s, t, u, x); }
    }
  }

  lemma WorkCode(k: H.Config, g: Memory, th: Thread, e: nat)
    requires KindOf(th.p).Working?
    ensures Code(k, g, th, e) == e
  {
    hide KindOf;
  }

  // Nobody else has the client this move changes.
  lemma OthersApart(k: H.Config, s: State, t: Tid, u: Tid, x: Move)
    requires Inv(k, s) && Enabled(k, s, t, x) && x.Go? && u in s.threads && u != t && Owns(s.threads[u])
    requires Alters(s.threads[t], Code(k, s.g, s.threads[t], x.e))
    ensures s.threads[u].c != ClientNext(s.threads[t], Code(k, s.g, s.threads[t], x.e), x.a)
  {
    hide Owned, KindOf, LocalOk, PartsOk, Known, H.Inv, View, Or, Sure, GuardOk, Refused;
    var th := s.threads[t];
    OwnedLive(k, s, u);
    MoveOwns(th, Code(k, s.g, th, x.e), x.a, x.r);
    if !KindOf(th.p).Making? { Apart(k, s, t, u); }
  }

  lemma OtherKeepsParts(k: H.Config, s: State, t: Tid, x: Move)
    requires Inv(k, s) && Enabled(k, s, t, x) && !x.Go?
    ensures var s' := Step(k, s, t, x);
      && !s'.g.faulty && s'.g.parts == s.g.parts && s'.g.alloc == s.g.alloc
      && (forall u :: u in s'.threads ==> Known(s', s'.threads[u]))
  {
    hide LocalOk, PartsOk, Knows, H.Inv, View, Or;
    if x.Enter? { ArrivesOk(Entry(x.call), x.id); }
    hide Owned;
    forall u | u in s.threads ensures Known(s, s.threads[u]) {}
  }

  lemma StepKeepsInv(k: H.Config, s: State, t: Tid, x: Move)
    requires Inv(k, s) && Enabled(k, s, t, x)
    ensures Inv(k, Step(k, s, t, x))
  {
    hide LocalOk, PartsOk, Knows, Known, H.Inv, H.Apply, H.Enabled, Effect, Moved, Or, GuardOk, Refused;
    StepKeepsLocal(k, s, t, x);
    StepRefines(k, s, t, x);
    var d := HandleAction(s, t, x);
    if d.Some? { H.StepKeepsInv(k, View(s), t, d.value); }
    if x.Go? { StepKeepsParts(k, s, t, x); } else { OtherKeepsParts(k, s, t, x); }
  }

  lemma {:induction false} RunKeepsInv(k: H.Config, tr: seq<State>, evs: seq<Event>, n: nat)
    requires Run(k, tr, evs) && n < |tr|
    ensures Inv(k, tr[n])
  {
    hide Step, Enabled;
    if n == 0 {
      ArrivesOk(Host, 0);
      assert H.Inv(k, View(tr[0])) by { InitOk(k, View(tr[0])); }
    } else {
      RunKeepsInv(k, tr, evs, n - 1);
      var e := evs[n - 1];
      assert tr[n] == Step(k, tr[n - 1], e.t, e.x);
      StepKeepsInv(k, tr[n - 1], e.t, e.x);
    }
  }

  lemma InitOk(k: H.Config, w: H.World)
    requires H.Init(k, w)
    ensures H.Inv(k, w)
  {
    H.AcqValues(k);
    hide Or;
  }

  /** Every call gives its client back on every exit: in every run, a live client is free for the
      taking exactly when no thread is inside a call that works on it.  In particular a thread
      that has returned to the host holds none, and once all have, every client can be acquired. */
  lemma AlwaysReleased(k: H.Config, tr: seq<State>, evs: seq<Event>, n: nat, a: Addr)
    requires Run(k, tr, evs) && n < |tr| && a in tr[n].g.alloc
    ensures Matches(k, tr[n].g, a) <==> forall t :: t in tr[n].threads && Owns(tr[n].threads[t]) ==> tr[n].threads[t].c != a
    ensures forall t :: t in tr[n].threads && tr[n].threads[t].p.Host? ==> !Owns(tr[n].threads[t])
    ensures (forall t :: t in tr[n].threads ==> tr[n].threads[t].p.Host?) ==> Matches(k, tr[n].g, a)
  {
    RunKeepsInv(k, tr, evs, n);
    hide Run, LocalOk, Known, PartsOk;
    FreeIffUnowned(k, tr[n], a);
  }

  lemma FreeIffUnowned(k: H.Config, s: State, a: Addr)
    requires H.Inv(k, View(s)) && a in s.g.alloc
    ensures Matches(k, s.g, a) <==> forall t :: t in s.threads && Owns(s.threads[t]) ==> s.threads[t].c != a
  {
    var w := View(s);
    H.AcqValues(k);
    forall t | t in s.threads
      ensures t in w.pc && w.pc[t] == Owned(s.threads[t]) && (Owns(s.threads[t]) ==> w.pc[t].a == s.threads[t].c)
    {
    }
    hide Owned, Or, H.Serials, H.ClientAcq, H.Exclusive;
    if s.g.mem[a] != k.secret {
      var t :| H.Owns(w, t, a);
      assert t in s.threads;
    }
  }

  predicate Share(s: State, t: Tid, u: Tid) {
    && t in s.threads && u in s.threads && Owns(s.threads[t]) && Owns(s.threads[u])
    && s.threads[t].c == s.threads[u].c
  }

  /** In every run: no stage follows a pointer that is not set, reaches a client that is not live or
      shares one, or loses a part by setting it twice; no resource is taken twice or freed without
      being held; and no release finds a foreign word. */
  lemma CallSafety(k: H.Config, tr: seq<State>, evs: seq<Event>, n: nat)
    requires Run(k, tr, evs) && n < |tr|
    ensures !tr[n].g.wrong && !tr[n].g.faulty
    ensures forall t, u :: Share(tr[n], t, u) ==> t == u
    ensures forall i, j :: 0 <= i < j < |tr[n].g.freed| ==> tr[n].g.freed[i] != tr[n].g.freed[j]
  {
    RunKeepsInv(k, tr, evs, n);
    var s := tr[n];
    forall t, u | Share(s, t, u)
      ensures t == u
    {
      if t != u { Apart(k, s, t, u); }
    }
    assert H.Serials(View(s));
    hide Owned, LocalOk, Known, PartsOk;
  }

  /** While enclave_run works on a request, the client still has it: its lists come in whole words
      and pairs, because enclave_rate_limit stores only a request it has checked and no other call
      can take the client away. */
  lemma RequestStays(k: H.Config, tr: seq<State>, evs: seq<Event>, n: nat, t: Tid)
    requires Run(k, tr, evs) && n < |tr| && t in tr[n].threads && tr[n].threads[t].p.InRun?
    requires !tr[n].threads[t].p.r.RunGuard? && !tr[n].threads[t].p.r.Drop?
    ensures var c := tr[n].threads[t].c; c in tr[n].g.parts && Readable(tr[n].g.parts[c])
  {
    RunKeepsInv(k, tr, evs, n);
    assert Known(tr[n], tr[n].threads[t]);
    hide WholeWords, LocalOk, H.Inv, View;
  }

  // Everything the call took has been freed, each exactly once.
  ghost predicate AllBack(th: Thread) { forall x :: Count(th.freed, x) == Count(th.taken, x) }

  /** When a call is about to release its client or has returned: it reports the first failure, has
      freed nothing twice, and has given back everything it took exactly once, if and only if it
      did not fail in the table lookup or in building the triples.  There the jump goes past one
      label, and one buffer stays behind. */
  lemma GivenBackIff(k: H.Config, tr: seq<State>, evs: seq<Event>, n: nat, t: Tid)
    requires Run(k, tr, evs) && n < |tr| && t in tr[n].threads
    requires tr[n].threads[t].p.Host? || tr[n].threads[t].p.Unlock?
    ensures var th := tr[n].threads[t];
      && (th.err == 0 <==> th.failed.None?)
      && (forall x :: Count(th.freed, x) <= Count(th.taken, x) <= 1)
      && (AllBack(th) <==>
            th.failed != Some(InRun(Query)) && th.failed != Some(InRun(Answer)))
      && (th.failed == Some(InRun(Query)) ==> forall x :: x in th.live <==> x == Buf(Records))
      && (th.failed == Some(InRun(Answer)) ==> forall x :: x in th.live <==> x == Buf(Triples))
  {
    RunKeepsInv(k, tr, evs, n);
    LocalOf(k, tr[n], t);
    hide Inv, Run;
    var th := tr[n].threads[t];
    forall x
      ensures x in th.live <==> Forgotten(th.failed, x)
      ensures Count(th.taken, x) == Count(th.freed, x) + (if Forgotten(th.failed, x) then 1 else 0) <= 1
    {
      assert Booked(th, x);
    }
    hide Booked, LocalOk;
    if th.failed == Some(InRun(Query)) {
      assert Count(th.freed, Buf(Records)) != Count(th.taken, Buf(Records));
    } else if th.failed == Some(InRun(Answer)) {
      assert Count(th.freed, Buf(Triples)) != Count(th.taken, Buf(Triples));
    }
  }

  lemma LocalOf(k: H.Config, s: State, t: Tid)
    requires Inv(k, s) && t in s.threads
    ensures LocalOk(s.threads[t])
  {
    hide LocalOk, Known, PartsOk, H.Inv, View;
  }
}
