/** The client handle protocol of c/enclave/enc.c: one word per client, secret plus state bit,
    moved only by compare-exchange, against a host that calls from any number of threads
    with any handles it likes. */
module ClientHandles {
  import opened Words

  const CLIENT_UNUSED: nat := 0
  const CLIENT_INUSE: nat := 1
  const CLIENT_ACQ_DEAD: nat := 0

  type Addr = nat
  type Tid = nat

  // ----- the word

  /** enclave_init: clear the state bit of the random word, force the top bit. */
  function MakeSecret(random: U64): nat {
    Or(And(random, 0xFFFF_FFFF_FFFF_FFFE), 0x8000_0000_0000_0000)
  }

  /** client_acq */
  function ClientAcq(secret: nat, state: nat): nat { Or(secret, state) }

  ghost predicate GoodSecret(secret: nat) { secret % 2 == 0 && secret >= 0x8000_0000_0000_0000 }

  /** Whatever the random word was, the three values an acq word takes are distinct. */
  lemma SecretWords(random: U64)
    ensures GoodSecret(MakeSecret(random)) && MakeSecret(random) % 0x8000_0000_0000_0000 / 2 == random % 0x8000_0000_0000_0000 / 2
    ensures forall secret: nat {:trigger GoodSecret(secret)} :: GoodSecret(secret) ==>
      && ClientAcq(secret, CLIENT_UNUSED) == secret != CLIENT_ACQ_DEAD
      && ClientAcq(secret, CLIENT_INUSE) == secret + 1 != CLIENT_ACQ_DEAD
  {
    forall secret: nat | GoodSecret(secret)
      ensures ClientAcq(secret, CLIENT_UNUSED) == secret && ClientAcq(secret, CLIENT_INUSE) == secret + 1
    {
      OrOne(secret);
    }
    MakeSecretGood(random);
    SecretKeepsRandom(random);
  }

  // All bits but the lowest and the highest are those of the random word.
  lemma SecretKeepsRandom(random: U64)
    ensures MakeSecret(random) % 0x8000_0000_0000_0000 / 2 == random % 0x8000_0000_0000_0000 / 2
  {
    hide And, Or, Pow2;
    ClearLowest(random);
    Pow2Literals();
    OrBit(random / 2 * 2, 63);
    SameMiddle(random, Or(random / 2 * 2, 0x8000_0000_0000_0000));
  }

  lemma SameMiddle(random: nat, secret: nat)
    requires secret % 0x1_0000_0000_0000_0000 == (random / 2 * 2) % 0x8000_0000_0000_0000 + 0x8000_0000_0000_0000
    ensures secret % 0x8000_0000_0000_0000 / 2 == random % 0x8000_0000_0000_0000 / 2
  {
    var h, p := random / 2, 0x4000_0000_0000_0000;
    ModDouble(random, p);
    ModDouble(h * 2, p);
    assert h * 2 / 2 == h && h * 2 % 2 == 0;
    ModUnique(secret, 2 * p, 2 * (secret / (4 * p)) + 1, 2 * (h % p));
  }

  lemma ClearLowest(random: U64)
    ensures And(random, 0xFFFF_FFFF_FFFF_FFFE) == random / 2 * 2
  {
    Pow2Literals();
    AndDouble(random, 0x7FFF_FFFF_FFFF_FFFF);
    AndMax(random / 2, 63);
  }

  lemma OrOne(s: nat)
    requires s % 2 == 0
    ensures Or(s, 0) == s && Or(s, 1) == s + 1
  {
  }

  lemma MakeSecretGood(random: U64)
    ensures GoodSecret(MakeSecret(random))
  {
    var x := And(random, 0xFFFF_FFFF_FFFF_FFFE);
    assert x % 2 == 0;
  }

  // ----- the world

  // What a thread inside the enclave owns.
  datatype Pc =
    | Outside
    | Made(a: Addr)      // allocated by enclave_new_client, not published
    | Held(a: Addr)      // published by client_add or acquired by client_get
    | Killed(a: Addr)    // taken out by client_remove
    | Freeing(a: Addr)   // past the store of client_free

  // `alloc` names each live allocation by a serial number; `wrong` records a use of
  // memory that is not a live client, a second free, or a release that found another word.
  datatype World = World(
    mem: map<Addr, nat>, alloc: map<Addr, nat>, pc: map<Tid, Pc>,
    serial: nat, freed: seq<nat>, wrong: bool)

  datatype Config = Config(secret: nat, secretAddr: Addr)

  datatype Action =
    | New(a: Addr) | Publish | Get(id: Addr) | Remove(id: Addr)
    | Touch | Release | StoreDead | Free | Other(a: Addr, word: nat)

  predicate Enabled(c: Config, w: World, t: Tid, x: Action) {
    t in w.pc &&
    match x
    case New(a) => w.pc[t].Outside? && a in w.mem && a !in w.alloc && a != c.secretAddr
    case Publish => w.pc[t].Made?
    case Get(_) => w.pc[t].Outside?
    case Remove(_) => w.pc[t].Outside?
    case Touch => w.pc[t].Held? || w.pc[t].Made?
    case Release => w.pc[t].Held?
    case StoreDead => w.pc[t].Made? || w.pc[t].Killed?
    case Free => w.pc[t].Freeing?
    // any other enclave code: not into a client's word, and never the secret
    case Other(a, word) => a in w.mem && a !in w.alloc && a != c.secretAddr && !Secretive(c, word)
  }

  predicate Secretive(c: Config, word: nat) {
    word == ClientAcq(c.secret, CLIENT_UNUSED) || word == ClientAcq(c.secret, CLIENT_INUSE)
  }

  // ASSERT_PLAUSIBLE_CLIENT
  predicate Plausible(c: Config, w: World, id: Addr) { id in w.mem && id != c.secretAddr }

  function Apply(c: Config, w: World, t: Tid, x: Action): World
    requires Enabled(c, w, t, x)
  {
    var unused, inuse := ClientAcq(c.secret, CLIENT_UNUSED), ClientAcq(c.secret, CLIENT_INUSE);
    match x
    case New(a) =>
      w.(mem := w.mem[a := 0], alloc := w.alloc[a := w.serial], serial := w.serial + 1, pc := w.pc[t := Made(a)])
    case Publish =>
      w.(mem := w.mem[w.pc[t].a := inuse], pc := w.pc[t := Held(w.pc[t].a)])
    case Get(id) =>
      if Plausible(c, w, id) && w.mem[id] == unused
      then w.(mem := w.mem[id := inuse], pc := w.pc[t := Held(id)])
      else w
    case Remove(id) =>
      if Plausible(c, w, id) && w.mem[id] == unused
      then w.(mem := w.mem[id := CLIENT_ACQ_DEAD], pc := w.pc[t := Killed(id)])
      else w
    case Touch => w.(wrong := w.wrong || w.pc[t].a !in w.alloc)
    case Release =>
      var a := w.pc[t].a;
      if a in w.mem && w.mem[a] == inuse
      then w.(mem := w.mem[a := unused], pc := w.pc[t := Outside])
      else w.(wrong := true, pc := w.pc[t := Outside])
    case StoreDead =>
      var a := w.pc[t].a;
      w.(mem := w.mem[a := CLIENT_ACQ_DEAD], wrong := w.wrong || a !in w.alloc, pc := w.pc[t := Freeing(a)])
    case Free =>
      var a := w.pc[t].a;
      if a in w.alloc
      then w.(alloc := w.alloc - {a}, freed := w.freed + [w.alloc[a]], pc := w.pc[t := Outside])
      else w.(wrong := true, pc := w.pc[t := Outside])
    case Other(a, word) => w.(mem := w.mem[a := word])
  }

  ghost predicate Init(c: Config, w: World) {
    && GoodSecret(c.secret)
    && c.secretAddr in w.mem && w.mem[c.secretAddr] == c.secret
    && (forall a :: a in w.mem && a != c.secretAddr ==> !Secretive(c, w.mem[a]))
    && w.alloc == map[] && w.freed == [] && w.serial == 0 && !w.wrong
    && (forall t :: t in w.pc ==> w.pc[t] == Outside)
  }

  datatype Event = Event(t: Tid, x: Action)

  ghost predicate Run(c: Config, tr: seq<World>, evs: seq<Event>) {
    && |tr| == |evs| + 1 && Init(c, tr[0])
    && forall i :: 0 <= i < |evs| ==>
         Enabled(c, tr[i], evs[i].t, evs[i].x) && tr[i + 1] == Apply(c, tr[i], evs[i].t, evs[i].x)
  }

  // ----- the invariant

  // The word of an owned client tells who owns it: in use while held, dead while made or dying.
  ghost predicate WordsAgree(c: Config, w: World) {
    && GoodSecret(c.secret)
    && c.secretAddr in w.mem && w.mem[c.secretAddr] == c.secret && c.secretAddr !in w.alloc
    && w.alloc.Keys <= w.mem.Keys
    && (forall a :: a in w.mem && a != c.secretAddr && a !in w.alloc ==> !Secretive(c, w.mem[a]))
    && (forall t :: t in w.pc && !w.pc[t].Outside? ==> w.pc[t].a in w.alloc)
    && (forall t :: t in w.pc && w.pc[t].Held? ==> w.mem[w.pc[t].a] == c.secret + 1)
    && (forall t :: t in w.pc && (w.pc[t].Made? || w.pc[t].Killed? || w.pc[t].Freeing?) ==> w.mem[w.pc[t].a] == 0)
  }

  // No client is owned by two threads, whatever they are doing with it.
  ghost predicate Exclusive(w: World) {
    forall t, u :: t in w.pc && u in w.pc && !w.pc[t].Outside? && !w.pc[u].Outside? && w.pc[t].a == w.pc[u].a ==> t == u
  }

  ghost predicate Serials(w: World) {
    && (forall a :: a in w.alloc ==> w.alloc[a] < w.serial && w.alloc[a] !in w.freed)
    && (forall a, b :: a in w.alloc && b in w.alloc && w.alloc[a] == w.alloc[b] ==> a == b)
    && (forall i :: 0 <= i < |w.freed| ==> w.freed[i] < w.serial)
    && (forall i, j :: 0 <= i < j < |w.freed| ==> w.freed[i] != w.freed[j])
  }

  ghost predicate Sound(c: Config, w: World) {
    WordsAgree(c, w) && Exclusive(w) && !w.wrong
  }

  predicate Owns(w: World, t: Tid, a: Addr) { t in w.pc && !w.pc[t].Outside? && w.pc[t].a == a }

  // A live client that is not free for the taking is in somebody's hands.
  ghost predicate NoneStuck(c: Config, w: World) {
    forall a :: a in w.alloc && a in w.mem && w.mem[a] != c.secret ==> exists t :: Owns(w, t, a)
  }

  ghost predicate Inv(c: Config, w: World) {
    Sound(c, w) && Serials(w) && NoneStuck(c, w)
  }

  lemma AcqValues(c: Config)
    requires GoodSecret(c.secret)
    ensures ClientAcq(c.secret, CLIENT_UNUSED) == c.secret && ClientAcq(c.secret, CLIENT_INUSE) == c.secret + 1
  {
    OrOne(c.secret);
  }

  lemma MakeKeepsSound(c: Config, w: World, t: Tid, x: Action)
    requires Sound(c, w) && Enabled(c, w, t, x) && (x.New? || x.Publish?)
    ensures Sound(c, Apply(c, w, t, x))
  {
    hide Or, ClientAcq;
    AcqValues(c);
  }

  lemma AcquireKeepsSound(c: Config, w: World, t: Tid, x: Action)
    requires Sound(c, w) && Enabled(c, w, t, x) && (x.Get? || x.Remove?)
    ensures Sound(c, Apply(c, w, t, x))
  {
    hide Or, ClientAcq;
    AcqValues(c);
  }

  lemma UseKeepsSound(c: Config, w: World, t: Tid, x: Action)
    requires Sound(c, w) && Enabled(c, w, t, x) && (x.Touch? || x.Release? || x.Other?)
    ensures Sound(c, Apply(c, w, t, x))
  {
    hide Or, ClientAcq;
    AcqValues(c);
  }

  lemma DestroyKeepsSound(c: Config, w: World, t: Tid, x: Action)
    requires Sound(c, w) && Enabled(c, w, t, x) && (x.StoreDead? || x.Free?)
    ensures Sound(c, Apply(c, w, t, x))
  {
    hide Or, ClientAcq;
    AcqValues(c);
  }

  lemma StepKeepsSound(c: Config, w: World, t: Tid, x: Action)
    requires Sound(c, w) && Enabled(c, w, t, x)
    ensures Sound(c, Apply(c, w, t, x))
  {
    hide Sound, Apply, Enabled;
    if x.New? || x.Publish? { MakeKeepsSound(c, w, t, x); }
    else if x.Get? || x.Remove? { AcquireKeepsSound(c, w, t, x); }
    else if x.StoreDead? || x.Free? { DestroyKeepsSound(c, w, t, x); }
    else { UseKeepsSound(c, w, t, x); }
  }

  lemma StepKeepsSerials(c: Config, w: World, t: Tid, x: Action)
    requires Inv(c, w) && Enabled(c, w, t, x)
    ensures Serials(Apply(c, w, t, x))
  {
    hide Or, ClientAcq, WordsAgree, Exclusive;
  }

  lemma StepKeepsFree(c: Config, w: World, t: Tid, x: Action)
    requires Inv(c, w) && Enabled(c, w, t, x)
    ensures NoneStuck(c, Apply(c, w, t, x))
  {
    hide Or, ClientAcq, Serials, Exclusive;
    AcqValues(c);
    var w' := Apply(c, w, t, x);
    forall a | a in w'.alloc && a in w'.mem && w'.mem[a] != c.secret
      ensures exists u :: Owns(w', u, a)
    {
      if !Owns(w', t, a) {
        var u :| Owns(w, u, a);
        assert Owns(w', u, a);
      }
    }
  }

  lemma StepKeepsInv(c: Config, w: World, t: Tid, x: Action)
    requires Inv(c, w) && Enabled(c, w, t, x)
    ensures Inv(c, Apply(c, w, t, x))
  {
    hide Sound, Serials, NoneStuck, Apply, Enabled;
    StepKeepsSound(c, w, t, x);
    StepKeepsSerials(c, w, t, x);
    StepKeepsFree(c, w, t, x);
  }

  lemma {:induction false} RunKeepsInv(c: Config, tr: seq<World>, evs: seq<Event>, n: nat)
    requires Run(c, tr, evs) && n < |tr|
    ensures Inv(c, tr[n])
  {
    if n == 0 {
      AcqValues(c);
    } else {
      RunKeepsInv(c, tr, evs, n - 1);
      var e := evs[n - 1];
      assert tr[n] == Apply(c, tr[n - 1], e.t, e.x);
      StepKeepsInv(c, tr[n - 1], e.t, e.x);
    }
  }

  /** In every run, whatever handles the host passes: one owner per client, nobody but the
      owner reaches its fields, no client is freed twice or used after it is freed, no
      release finds a foreign word, and the secret itself is never overwritten. */
  lemma ClientSafety(c: Config, tr: seq<World>, evs: seq<Event>, n: nat)
    requires Run(c, tr, evs) && n < |tr|
    ensures !tr[n].wrong
    ensures Exclusive(tr[n])
    ensures forall i, j :: 0 <= i < j < |tr[n].freed| ==> tr[n].freed[i] != tr[n].freed[j]
    ensures forall a :: a in tr[n].alloc ==> tr[n].alloc[a] !in tr[n].freed
    ensures c.secretAddr in tr[n].mem && tr[n].mem[c.secretAddr] == c.secret
  {
    RunKeepsInv(c, tr, evs, n);
  }

  /** A handle is accepted, for use or for closing, exactly when it names a published, unowned
      client; a dead or freed client, a half-made one, or any other address is refused and
      nothing changes. */
  lemma AcceptedIff(c: Config, tr: seq<World>, evs: seq<Event>, n: nat, t: Tid, id: Addr)
    requires Run(c, tr, evs) && n < |tr| && t in tr[n].pc && tr[n].pc[t].Outside?
    ensures var w := tr[n];
      var got, removed := Apply(c, w, t, Get(id)), Apply(c, w, t, Remove(id));
      var free := id in w.alloc && id in w.mem && w.mem[id] == c.secret;
      && (got.pc[t] == Held(id) <==> free) && (removed.pc[t] == Killed(id) <==> free)
      && (!free ==> got == w && removed == w)
      && (free ==> removed.mem[id] == CLIENT_ACQ_DEAD && forall u :: u in w.pc && !w.pc[u].Outside? ==> w.pc[u].a != id)
  {
    RunKeepsInv(c, tr, evs, n);
    AcqValues(c);
    hide Or, ClientAcq;
  }
}
