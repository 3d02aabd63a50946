/** Following the stream: DynamoDbAccountPopulator.java with its subscriptions, from the loaded snapshot
    through events, lapses and renewals. */
module Replication {
  import opened Options
  import opened Directory
  import opened Relay

  // Fixed from outside: the directory the stream starts from, all records so far, and where in
  // them a subscription from the start time begins.
  datatype Feed = Feed(first: Mirror, records: seq<Update>, start: nat) {
    predicate Valid() { AllRelayed(records) }
  }

  datatype Subscription = Subscription(pos: nat, live: bool)

  // What the populator keeps; positions read for requests still on their way; the subscriptions;
  // how many records are on the stream; and, as history, the end of the records delivered last.
  datatype Follower = Follower(
    directory: Mirror, continuation: Option<nat>, finished: bool,
    asks: seq<nat>, subs: seq<Subscription>, available: nat, reached: nat)

  datatype Act =
    | Append                          // another record reaches the stream
    | Ask                             // subscribeToShard reads the continuation
    | Subscribe(j: nat)               // a request for the position read gets through
    | Deliver(i: nat, to: nat, continuation: Option<nat>, millisBehindLatest: nat)
    | Lapse(i: nat)                   // a subscription expires, fails or is taken over

  ghost predicate Enabled(f: Feed, s: Follower, x: Act) {
    && f.Valid() && s.available <= |f.records|
    && match x
       case Append => s.available < |f.records|
       case Ask => true
       case Subscribe(j) => j < |s.asks|
       case Lapse(i) => i < |s.subs|
       case Deliver(i, to, continuation, millis) =>
         && i < |s.subs| && s.subs[i].live && s.subs[i].pos <= to <= s.available
         && (continuation == Some(to) || continuation == None)
         && (millis == 0 ==> to == s.available)
  }

  function Resume(f: Feed, s: Follower): nat { if s.continuation.Some? then s.continuation.value else f.start }

  ghost function Apply(f: Feed, s: Follower, x: Act): Follower
    requires Enabled(f, s, x)
  {
    match x
    case Append => s.(available := s.available + 1)
    case Ask => s.(asks := s.asks + [Resume(f, s)])
    case Subscribe(j) =>
      s.(asks := s.asks[..j] + s.asks[j + 1..], subs := s.subs + [Subscription(s.asks[j], true)])
    case Lapse(i) => s.(subs := s.subs[i := s.subs[i].(live := false)])
    case Deliver(i, to, continuation, millis) =>
      s.(directory := LoadAll(s.directory, f.records[s.subs[i].pos..to]), continuation := continuation,
         finished := s.finished || millis == 0, subs := s.subs[i := s.subs[i].(pos := to)], reached := to)
  }

  // The snapshot is loaded; `q` records were on the stream when its scan began.
  function Loaded(m: Mirror, available: nat, q: nat): Follower { Follower(m, None, false, [], [], available, q) }

  ghost predicate Run(f: Feed, tr: seq<Follower>, xs: seq<Act>) {
    && |tr| == |xs| + 1
    && forall i :: 0 <= i < |xs| ==> Enabled(f, tr[i], xs[i]) && tr[i + 1] == Apply(f, tr[i], xs[i])
  }

  // A delivery that leaves out nothing for good.
  ghost predicate Complete(f: Feed, s: Follower, x: Act)
    requires Enabled(f, s, x)
  {
    x.Deliver? ==> s.reached <= |f.records| && Repeated(f.records, s.reached, s.subs[x.i].pos)
  }

  // In view of all records, the directory is right up to where delivery has got.
  ghost predicate Following(f: Feed, s: Follower) {
    f.Valid() && s.reached <= |f.records| && RightFrom(f.first, f.records, s.reached, s.directory)
  }

  lemma StepFollows(f: Feed, s: Follower, x: Act)
    requires Following(f, s) && Enabled(f, s, x) && Complete(f, s, x)
    ensures Following(f, Apply(f, s, x))
  {
    hide RightFrom, Repeated, LoadAll;
    if x.Deliver? { DeliverRight(f.first, f.records, s.reached, s.subs[x.i].pos, x.to, s.directory); }
  }

  // ----- one subscription at a time

  // At most one subscription is alive, and it has not got past what was delivered.
  ghost predicate Single(s: Follower) {
    && (s.continuation.Some? ==> s.continuation.value == s.reached)
    && (forall i, j :: 0 <= i < |s.subs| && 0 <= j < |s.subs| && s.subs[i].live && s.subs[j].live ==> i == j)
    && (forall i :: 0 <= i < |s.subs| && s.subs[i].live ==> s.subs[i].pos <= s.reached)
  }

  ghost predicate NoneLive(s: Follower) { forall i :: 0 <= i < |s.subs| ==> !s.subs[i].live }

  // A new subscription takes over, and from no later than what was delivered last.
  ghost predicate Orderly(s: Follower, x: Act) {
    x.Subscribe? && x.j < |s.asks| ==> NoneLive(s) && s.asks[x.j] <= s.reached
  }

  lemma StepOrderly(f: Feed, s: Follower, x: Act)
    requires Following(f, s) && Single(s) && Enabled(f, s, x) && Orderly(s, x)
    ensures Complete(f, s, x) && Single(Apply(f, s, x))
  {
    hide RightFrom, LoadAll;
    if x.Deliver? {
      var xs, q, a := f.records, s.reached, s.subs[x.i].pos;
      assert a <= q;
      assert q <= a ==> xs[q..a] == [];
    }
  }

  lemma {:induction false} RunFollows(f: Feed, tr: seq<Follower>, xs: seq<Act>, n: nat)
    requires Run(f, tr, xs) && n < |tr| && Following(f, tr[0]) && Single(tr[0])
    requires forall i :: 0 <= i < |xs| ==> Orderly(tr[i], xs[i])
    ensures Following(f, tr[n]) && Single(tr[n])
  {
    hide RightFrom, Apply, Enabled;
    if n > 0 {
      RunFollows(f, tr, xs, n - 1);
      assert tr[n] == Apply(f, tr[n - 1], xs[n - 1]);
      StepOrderly(f, tr[n - 1], xs[n - 1]);
      StepFollows(f, tr[n - 1], xs[n - 1]);
    }
  }

  // The subscriber asks for one position at a time, and not before the live subscription has
  // delivered something; a request that gets through ends the subscription before it.
  ghost predicate Prompt(s: Follower, x: Act) {
    && (x.Ask? ==> s.asks == [] && forall i :: 0 <= i < |s.subs| && s.subs[i].live ==> s.subs[i].pos == s.reached)
    && (x.Subscribe? ==> NoneLive(s))
  }

  ghost predicate Waiting(f: Feed, s: Follower) {
    && f.start <= s.reached && |s.asks| <= 1 && (s.asks != [] ==> s.asks[0] <= s.reached)
    && (s.asks != [] ==> forall i :: 0 <= i < |s.subs| && s.subs[i].live ==> s.subs[i].pos == s.reached)
    && (forall i :: 0 <= i < |s.subs| ==> f.start <= s.subs[i].pos) && (s.asks != [] ==> f.start <= s.asks[0])
  }

  lemma StepPrompt(f: Feed, s: Follower, x: Act)
    requires Single(s) && Waiting(f, s) && Enabled(f, s, x) && Prompt(s, x)
    ensures Orderly(s, x) && Single(Apply(f, s, x)) && Waiting(f, Apply(f, s, x))
  {
    hide LoadAll;
  }

  /** Although events may arrive between reading the continuation and taking over, a prompt subscriber
      is orderly: every subscription starts at or before what was delivered last. */
  lemma PromptOrderly(f: Feed, tr: seq<Follower>, xs: seq<Act>, n: nat)
    requires Run(f, tr, xs) && n < |xs| && Single(tr[0]) && Waiting(f, tr[0])
    requires forall i :: 0 <= i < |xs| ==> Prompt(tr[i], xs[i])
    ensures Orderly(tr[n], xs[n])
  {
    PromptKeeps(f, tr, xs, n);
    StepPrompt(f, tr[n], xs[n]);
  }

  lemma {:induction false} PromptKeeps(f: Feed, tr: seq<Follower>, xs: seq<Act>, n: nat)
    requires Run(f, tr, xs) && n < |tr| && Single(tr[0]) && Waiting(f, tr[0])
    requires forall i :: 0 <= i < |xs| ==> Prompt(tr[i], xs[i])
    ensures Single(tr[n]) && Waiting(f, tr[n])
  {
    hide Apply, Enabled, Prompt;
    if n > 0 {
      PromptKeeps(f, tr, xs, n - 1);
      assert tr[n] == Apply(f, tr[n - 1], xs[n - 1]);
      StepPrompt(f, tr[n - 1], xs[n - 1]);
    }
  }

  // ----- from table to directory

  // The account table over time, the passes of the filter before and after the scan begins, and
  // the scan itself, from change p to change n.
  datatype World = World(
    ts: seq<Table>, who: seq<Uuid>, before: seq<Pass>, after: seq<Pass>, p: nat, n: nat, seen: map<Uuid, nat>, snapshot: Mirror)

  // How many changes have happened and been relayed for good.
  function Changes(w: World): nat { Settled(0, w.before + w.after) }

  ghost predicate ValidWorld(w: World, f: Feed) {
    && History(w.ts, w.who) && Mirrors(w.ts[0], f.first)
    && Chained(w.ts, w.who, 0, w.before) && Chained(w.ts, w.who, 0, w.before + w.after)
    && Changes(w) == Tried(0, 0, w.before + w.after) <= |w.who|
    && Tried(0, 0, w.before) <= w.p && w.n <= Changes(w) && Scan(w.ts, w.p, w.n, w.seen) && Snapshot(w.ts, w.seen, w.snapshot)
    && f.records == RelayStream(w.ts, w.who, 0, w.before + w.after)
    && f.start <= |RelayStream(w.ts, w.who, 0, w.before)|
  }

  ghost function Scanned(w: World, available: nat): Follower
    requires |w.ts| == |w.who| + 1 && Chained(w.ts, w.who, 0, w.before)
  {
    Loaded(w.snapshot, available, |RelayStream(w.ts, w.who, 0, w.before)|)
  }

  lemma ScannedFollows(w: World, f: Feed, available: nat)
    requires ValidWorld(w, f)
    ensures Following(f, Scanned(w, available)) && Single(Scanned(w, available)) && Waiting(f, Scanned(w, available))
  {
    hide RightFrom, LoadAll, Mirrors, RelayStream, Stream, Snapshot, Chained, Tried, Settled;
    ScanRight(f.first, w.ts, w.who, w.before, w.after, w.p, w.n, w.seen, w.snapshot);
  }

  /** The whole procedure, in every run: changes relayed with any failures and retries, a scan that saw
      each account at some moment while they went on, its accounts loaded in any order, then the
      stream followed from no later than the scan's beginning through any events, lapses and
      renewals.  At every moment the directory is right about all numbers that the records behind
      the recorded continuation do not mention; whenever all is relayed and delivered, and so right
      after an event that is zero milliseconds behind, it holds exactly the discoverable accounts. */
  lemma SnapshotThenReplay(w: World, f: Feed, tr: seq<Follower>, xs: seq<Act>, k: nat)
    requires ValidWorld(w, f) && Run(f, tr, xs) && tr[0] == Scanned(w, tr[0].available) && k < |tr|
    requires forall i :: 0 <= i < |xs| ==> Orderly(tr[i], xs[i])
    ensures tr[k].reached <= |f.records| && f.Valid()
    ensures tr[k].continuation.Some? ==>
      tr[k].continuation.value == tr[k].reached && RightFrom(f.first, f.records, tr[k].reached, tr[k].directory)
    ensures tr[k].reached == |f.records| ==> Mirrors(w.ts[Changes(w)], tr[k].directory)
    ensures k > 0 && xs[k - 1].Deliver? && xs[k - 1].millisBehindLatest == 0 && tr[k].available == |f.records| ==>
      tr[k].finished && Mirrors(w.ts[Changes(w)], tr[k].directory)
  {
    hide RightFrom, Stream, Mirrors, LoadAll, RelayStream, Snapshot, Chained, Tried, Settled;
    ScannedFollows(w, f, tr[0].available);
    RunFollows(f, tr, xs, k);
    var s := tr[k];
    if s.reached == |f.records| {
      RightAtEnd(f.first, f.records, s.directory);
      RelaySettles(f.first, w.ts, w.who, w.before + w.after);
    }
    if k > 0 { assert s == Apply(f, tr[k - 1], xs[k - 1]) && Enabled(f, tr[k - 1], xs[k - 1]); }
  }

  /** The populator says that it is done exactly after the first event that is zero milliseconds behind. */
  lemma {:induction false} FinishedIff(f: Feed, tr: seq<Follower>, xs: seq<Act>, k: nat)
    requires Run(f, tr, xs) && !tr[0].finished && k < |tr|
    ensures tr[k].finished <==> exists i :: 0 <= i < k && xs[i].Deliver? && xs[i].millisBehindLatest == 0
  {
    if k > 0 {
      FinishedIff(f, tr, xs, k - 1);
      assert Enabled(f, tr[k - 1], xs[k - 1]) && tr[k] == Apply(f, tr[k - 1], xs[k - 1]);
      hide LoadAll, Run;
    }
  }

  /** So it is for every subscriber that is prompt, without looking into the stream. */
  lemma PromptReplay(w: World, f: Feed, tr: seq<Follower>, xs: seq<Act>, k: nat)
    requires ValidWorld(w, f) && Run(f, tr, xs) && tr[0] == Scanned(w, tr[0].available) && k < |tr|
    requires forall i :: 0 <= i < |xs| ==> Prompt(tr[i], xs[i])
    ensures tr[k].reached <= |f.records| && (tr[k].reached == |f.records| ==> Mirrors(w.ts[Changes(w)], tr[k].directory))
  {
    ScannedFollows(w, f, tr[0].available);
    hide *;
    forall i | 0 <= i < |xs| ensures Orderly(tr[i], xs[i]) { PromptOrderly(f, tr, xs, i); }
    SnapshotThenReplay(w, f, tr, xs, k);
  }

  // ----- out of order

  // An account gets a number and an access key, then another key; another account appears.  One
  // pass of the filter relays it all; the scan was over before.
  const FIRST := Account(Some(1), true, Some(5), Some(6))
  const SECOND := FIRST.(uak := Some(8))
  const OTHER := Account(Some(2), true, Some(3), None)

  const WORLD := World(
    [map[], map[7 := FIRST], map[7 := SECOND], map[7 := SECOND, 9 := OTHER]], [7, 7, 9],
    [], [Pass(0, [Try(1, true), Try(1, true), Try(1, true)])], 0, 0, map[], map[])

  const FEED := Feed(map[], [Update(7, FIRST), Update(7, SECOND), Update(9, OTHER)], 0)

  lemma OneUpdate(t: Table, u: Uuid, t': Table)
    requires u in t' && Directory.Relayed(t'[u]) && (u in t ==> t[u] != t'[u] && t[u].e164 == t'[u].e164)
    ensures Updates(t, u, t') == [Update(u, t'[u])]
  {
    assert [t'[u]][1..] == [];
    assert Emitted(u, []) == [];
  }

  lemma WorldValid()
    ensures ValidWorld(WORLD, FEED) && Changes(WORLD) == 3
    ensures |RelayStream(WORLD.ts, WORLD.who, 0, WORLD.before)| == 0
  {
    TablesValid();
    AllSent();
    hide Mirrors, Sent, ValidTries, FirstFailed, History;
    assert WORLD.before + WORLD.after == WORLD.after && WORLD.after[1..] == [];
  }

  // The one pass relays all three changes.
  lemma AllSent()
    ensures var tries := WORLD.after[0].tries;
      && ValidTries(WORLD.ts, WORLD.who, 0, tries) && Sent(WORLD.ts, WORLD.who, 0, tries) == FEED.records
      && FirstFailed(0, tries) == 3
  {
    var ts, who, tries := WORLD.ts, WORLD.who, WORLD.after[0].tries;
    OneUpdate(ts[0], 7, ts[1]);
    OneUpdate(ts[1], 7, ts[2]);
    OneUpdate(ts[2], 9, ts[3]);
    hide Updates;
    var none: seq<Try> := [];
    assert tries[1..] == [Try(1, true), Try(1, true)] && tries[1..][1..] == [Try(1, true)] && tries[1..][1..][1..] == none;
    assert ValidTries(ts, who, 3, none) && ValidTries(ts, who, 2, tries[1..][1..]) && ValidTries(ts, who, 1, tries[1..]);
    assert Sent(ts, who, 3, none) == [] && Sent(ts, who, 2, tries[1..][1..]) == [Update(9, OTHER)];
    assert Sent(ts, who, 1, tries[1..]) == [Update(7, SECOND), Update(9, OTHER)];
    assert FirstFailed(3, none) == 3 && FirstFailed(2, tries[1..][1..]) == 3 && FirstFailed(1, tries[1..]) == 3;
  }

  lemma TablesValid()
    ensures History(WORLD.ts, WORLD.who) && Mirrors(WORLD.ts[0], map[])
  {
    var ts := WORLD.ts;
    assert ts[0] - {7} == map[] == ts[1] - {7};
    assert ts[1] - {7} == ts[2] - {7};
    assert ts[2] - {9} == map[7 := SECOND] == ts[3] - {9};
  }

  // The records 0 and 1, then 0 again, then 2 leave the first number with its first key.
  lemma WrongKey()
    ensures FEED.Valid()
    ensures var xs := FEED.records;
      !Mirrors(WORLD.ts[3], LoadAll(LoadAll(LoadAll(map[], xs[0..2]), xs[0..1]), xs[2..3]))
  {
    var xs := FEED.records;
    var m1, m2 := Load(map[], xs[0]), Load(Load(map[], xs[0]), xs[1]);
    LoadOne(map[], xs[0]);
    LoadOne(m1, xs[1]);
    LoadOne(m2, xs[0]);
    LoadOne(Load(m2, xs[0]), xs[2]);
    LoadAllJoin(map[], [xs[0]], [xs[1]]);
    assert [xs[0]] + [xs[1]] == xs[0..2] && xs[2..3] == [xs[2]] && xs[0..1] == [xs[0]];
    assert Load(Load(m2, xs[0]), xs[2])[1].uak == Some(6) && WORLD.ts[3][7].uak == Some(8);
  }

  // One after the other: no request gets through while a subscription is alive.
  ghost predicate TakesTurns(tr: seq<Follower>, xs: seq<Act>) {
    |tr| == |xs| + 1 && forall i :: 0 <= i < |xs| && xs[i].Subscribe? ==> NoneLive(tr[i])
  }

  // One more step.
  lemma Then(tr: seq<Follower>, xs: seq<Act>, x: Act, s: Follower) returns (tr': seq<Follower>, xs': seq<Act>)
    requires Run(FEED, tr, xs) && Enabled(FEED, tr[|xs|], x) && s == Apply(FEED, tr[|xs|], x)
    ensures Run(FEED, tr', xs') && tr' == tr + [s] && xs' == xs + [x] && |tr| == |xs| + 1
    ensures TakesTurns(tr, xs) && (x.Subscribe? ==> NoneLive(tr[|xs|])) ==> TakesTurns(tr', xs')
  {
    hide Apply, Enabled, NoneLive;
    tr', xs' := tr + [s], xs + [x];
  }

  /** With two subscriptions alive it does go wrong: both begin at the start, the first delivers two
      records, the second repeats one, the first goes on; the populator is told that it is zero
      milliseconds behind, and an access key is out of date. */
  lemma OverlapGoesWrong() returns (tr: seq<Follower>, xs: seq<Act>)
    ensures ValidWorld(WORLD, FEED) && Run(FEED, tr, xs) && tr[0] == Scanned(WORLD, 3)
    ensures tr[|xs|].finished && tr[|xs|].reached == |FEED.records| && !Mirrors(WORLD.ts[Changes(WORLD)], tr[|xs|].directory)
  {
    WorldValid();
    WrongKey();
    hide LoadAll, Mirrors, ValidWorld, RelayStream, Chained, Changes, Run, TakesTurns, NoneLive;
    var m1 := LoadAll(map[], FEED.records[0..2]);
    var m2 := LoadAll(m1, FEED.records[0..1]);
    var m3 := LoadAll(m2, FEED.records[2..3]);
    var a, b, c, d := Subscription(0, true), Subscription(2, true), Subscription(1, true), Subscription(3, true);
    tr, xs := TwoLive();
    tr, xs := Then(tr, xs, Deliver(0, 2, Some(2), 1), Follower(m1, Some(2), false, [], [b, a], 3, 2));
    tr, xs := Then(tr, xs, Deliver(1, 1, Some(1), 1), Follower(m2, Some(1), false, [], [b, c], 3, 1));
    tr, xs := Then(tr, xs, Deliver(0, 3, Some(3), 0), Follower(m3, Some(3), true, [], [d, c], 3, 3));
  }

  lemma TwoLive() returns (tr: seq<Follower>, xs: seq<Act>)
    requires FEED.Valid()
    ensures Run(FEED, tr, xs) && tr[0] == Loaded(map[], 3, 0)
    ensures tr[|xs|] == Loaded(map[], 3, 0).(subs := [Subscription(0, true), Subscription(0, true)])
  {
    hide LoadAll, Run, TakesTurns, NoneLive;
    var a, s0 := Subscription(0, true), Loaded(map[], 3, 0);
    tr, xs := [s0], [];
    NoStep(s0);
    tr, xs := Then(tr, xs, Ask, s0.(asks := [0]));
    tr, xs := Then(tr, xs, Subscribe(0), s0.(subs := [a]));
    tr, xs := Then(tr, xs, Ask, s0.(asks := [0], subs := [a]));
    tr, xs := Then(tr, xs, Subscribe(0), s0.(subs := [a, a]));
  }

  lemma NoStep(s: Follower)
    ensures Run(FEED, [s], []) && TakesTurns([s], [])
  {
  }

  /** Nor does it help that only one is alive at a time, if a request is made while a new subscription
      has not delivered anything yet: it may then begin behind records that come again. */
  lemma StaleRequestGoesWrong() returns (tr: seq<Follower>, xs: seq<Act>)
    ensures ValidWorld(WORLD, FEED) && Run(FEED, tr, xs) && tr[0] == Scanned(WORLD, 3) && TakesTurns(tr, xs)
    ensures tr[|xs|].finished && tr[|xs|].reached == |FEED.records| && !Mirrors(WORLD.ts[Changes(WORLD)], tr[|xs|].directory)
  {
    WorldValid();
    WrongKey();
    hide LoadAll, Mirrors, ValidWorld, RelayStream, Chained, Changes, Run, TakesTurns;
    var m1 := LoadAll(map[], FEED.records[0..2]);
    var m2 := LoadAll(m1, FEED.records[0..1]);
    var m3 := LoadAll(m2, FEED.records[2..3]);
    tr, xs := FirstTurn(m1);
    var x, y, z := Subscription(2, false), Subscription(0, true), Subscription(1, false);
    tr, xs := Then(tr, xs, Subscribe(0), Follower(m1, Some(2), false, [], [x, y], 3, 2));
    tr, xs := Then(tr, xs, Ask, Follower(m1, Some(2), false, [2], [x, y], 3, 2));
    tr, xs := SecondTurn(tr, xs, m1, m2);
    tr, xs := Then(tr, xs, Subscribe(0), Follower(m2, Some(1), false, [], [x, z, Subscription(2, true)], 3, 1));
    tr, xs := Then(tr, xs, Deliver(2, 3, Some(3), 0), Follower(m3, Some(3), true, [], [x, z, Subscription(3, true)], 3, 3));
  }

  // The first subscription delivers two records while a request for the start is on its way.
  lemma FirstTurn(m1: Mirror) returns (tr: seq<Follower>, xs: seq<Act>)
    requires FEED.Valid() && m1 == LoadAll(map[], FEED.records[0..2])
    ensures Run(FEED, tr, xs) && tr[0] == Loaded(map[], 3, 0) && TakesTurns(tr, xs)
    ensures tr[|xs|] == Follower(m1, Some(2), false, [0], [Subscription(2, false)], 3, 2)
  {
    hide LoadAll, Run, TakesTurns;
    var a, b := Subscription(0, true), Subscription(2, true);
    var s0 := Loaded(map[], 3, 0);
    tr, xs := [s0], [];
    NoStep(s0);
    tr, xs := Then(tr, xs, Ask, s0.(asks := [0]));
    tr, xs := Then(tr, xs, Subscribe(0), s0.(subs := [a]));
    tr, xs := Then(tr, xs, Ask, s0.(asks := [0], subs := [a]));
    tr, xs := Then(tr, xs, Deliver(0, 2, Some(2), 1), Follower(m1, Some(2), false, [0], [b], 3, 2));
    tr, xs := Then(tr, xs, Lapse(0), Follower(m1, Some(2), false, [0], [Subscription(2, false)], 3, 2));
  }

  // The second delivers the first record again and is over.
  lemma SecondTurn(tr0: seq<Follower>, xs0: seq<Act>, m1: Mirror, m2: Mirror) returns (tr: seq<Follower>, xs: seq<Act>)
    requires Run(FEED, tr0, xs0) && TakesTurns(tr0, xs0) && FEED.Valid() && m2 == LoadAll(m1, FEED.records[0..1])
    requires tr0[|xs0|] == Follower(m1, Some(2), false, [2], [Subscription(2, false), Subscription(0, true)], 3, 2)
    ensures Run(FEED, tr, xs) && tr[0] == tr0[0] && TakesTurns(tr, xs)
    ensures tr[|xs|] == Follower(m2, Some(1), false, [2], [Subscription(2, false), Subscription(1, false)], 3, 1)
  {
    hide LoadAll, Run, TakesTurns;
    var x := Subscription(2, false);
    tr, xs := Then(tr0, xs0, Deliver(1, 1, Some(1), 1), Follower(m2, Some(1), false, [2], [x, Subscription(1, true)], 3, 1));
    tr, xs := Then(tr, xs, Lapse(1), Follower(m2, Some(1), false, [2], [x, Subscription(1, false)], 3, 1));
  }

  // ----- the populator as the source runs it

  // A stream record carries an update, or something that does not parse.
  datatype Record = Parsed(update: Update) | Garbled

  function Readable(rs: seq<Record>): seq<Update> {
    if rs == [] then []
    else Readable(rs[..|rs| - 1]) + (match rs[|rs| - 1] case Parsed(x) => [x] case Garbled => [])
  }

  datatype StartingPosition = AfterSequenceNumber(n: nat) | AtTimestamp(t: int)

  // Where Kinesis begins: behind the record named, or with the first one not before the time.
  function Locate(f: Feed, p: StartingPosition): nat { if p.AfterSequenceNumber? then p.n else f.start }

  // The stream's side: requests on their way, the subscriptions, the records so far.
  datatype Kinesis = Kinesis(asks: seq<StartingPosition>, subs: seq<Subscription>, available: nat)

  ghost predicate Serves(f: Feed, k: Kinesis, s: Follower) {
    && |k.asks| == |s.asks| && (forall i :: 0 <= i < |s.asks| ==> Locate(f, k.asks[i]) == s.asks[i])
    && k.subs == s.subs && k.available == s.available
  }

  lemma NoneReadable()
    ensures Readable([]) == []
  {
  }

  lemma ReadableStep(rs: seq<Record>, i: nat)
    requires i < |rs|
    ensures Readable(rs[..i + 1]) ==
      Readable(rs[..i]) + match rs[i] case Parsed(x) => [x] case Garbled => []
  {
    assert rs[..i + 1][..i] == rs[..i];
  }

  lemma LoadStep(m: Mirror, xs: seq<Update>, j: nat)
    requires j < |xs| && AllRelayed(xs)
    ensures LoadAll(m, xs[..j + 1]) == Load(LoadAll(m, xs[..j]), xs[j])
  {
    hide Load;
    assert xs[..j + 1][..j] == xs[..j];
  }

  function AsRecords(xs: seq<Update>): seq<Record> { seq(|xs|, i requires 0 <= i < |xs| => Parsed(xs[i])) }

  lemma {:induction false} ReadableBack(xs: seq<Update>)
    ensures Readable(AsRecords(xs)) == xs
  {
    if xs != [] {
      var n := |xs| - 1;
      ReadableBack(xs[..n]);
      assert AsRecords(xs)[..n] == AsRecords(xs[..n]);
      assert xs == xs[..n] + [xs[n]];
    }
  }

  class Populator {
    var directory: Mirror
    var continuationSequenceNumber: Option<nat>
    var finishedInitialAccountPopulation: bool
    const populateStartTime: int

    /** Ready to follow the stream, with the snapshot loaded. */
    constructor (snapshot: Mirror, startTime: int)
      ensures directory == snapshot && continuationSequenceNumber == None && !finishedInitialAccountPopulation
      ensures populateStartTime == startTime
    {
      directory, continuationSequenceNumber := snapshot, None;
      finishedInitialAccountPopulation := false;
      populateStartTime := startTime;
    }

    // What the populator keeps is what the follower of the stream has.
    ghost predicate Agrees(s: Follower)
      reads this
    {
      directory == s.directory && continuationSequenceNumber == s.continuation && finishedInitialAccountPopulation == s.finished
    }

    /** subscribeToShard: wherever the stream starts for the position asked for, the subscription
        resumes where the follower has to. */
    method StartingPoint(ghost f: Feed, ghost s: Follower) returns (p: StartingPosition)
      requires Agrees(s)
      ensures Locate(f, p) == Resume(f, s) && (p.AtTimestamp? ==> p.t == populateStartTime)
    {
      if continuationSequenceNumber.Some? {
        p := AfterSequenceNumber(continuationSequenceNumber.value);
      } else {
        p := AtTimestamp(populateStartTime);
      }
    }

    /** handleSubscribeToShardEvent: loads the readable records in order, drops the others, and
        remembers where to go on. */
    method HandleEvent(records: seq<Record>, continuation: Option<nat>, millisBehindLatest: nat)
      requires AllRelayed(Readable(records))
      modifies this
      ensures directory == LoadAll(old(directory), Readable(records))
      ensures continuationSequenceNumber == continuation
      ensures finishedInitialAccountPopulation == (old(finishedInitialAccountPopulation) || millisBehindLatest == 0)
    {
      hide LoadAll, Load, Readable;
      NoneReadable();
      var entries: seq<Update> := [];
      for i := 0 to |records|
        invariant entries == Readable(records[..i])
        invariant unchanged(this)
      {
        ReadableStep(records, i);
        match records[i]
        case Parsed(x) => entries := entries + [x];
        case Garbled =>
      }
      assert records[..|records|] == records;
      var j := 0;
      assert entries[..0] == [];
      LoadNothing(directory);
      while j < |entries|
        invariant 0 <= j <= |entries| && AllRelayed(entries[..j])
        invariant directory == LoadAll(old(directory), entries[..j])
        invariant finishedInitialAccountPopulation == old(finishedInitialAccountPopulation)
      {
        assert Relayed(entries[j].account);
        LoadStep(old(directory), entries, j);
        directory := Load(directory, entries[j]);
        j := j + 1;
      }
      assert entries[..|entries|] == entries;
      continuationSequenceNumber := continuation;
      if millisBehindLatest == 0 { finishedInitialAccountPopulation := true; }
    }
  }

  /** One act of stream and populator together is one step of the follower. */
  method Perform(pop: Populator, f: Feed, kin: Kinesis, x: Act, ghost s: Follower) returns (k: Kinesis)
    requires Enabled(f, s, x) && pop.Agrees(s) && Serves(f, kin, s)
    modifies pop
    ensures pop.Agrees(Apply(f, s, x)) && Serves(f, k, Apply(f, s, x))
  {
    hide LoadAll;
    match x
    case Append => k := kin.(available := kin.available + 1);
    case Ask =>
      var p := pop.StartingPoint(f, s);
      k := kin.(asks := kin.asks + [p]);
    case Subscribe(j) =>
      k := kin.(asks := kin.asks[..j] + kin.asks[j + 1..], subs := kin.subs + [Subscription(Locate(f, kin.asks[j]), true)]);
    case Lapse(i) => k := kin.(subs := kin.subs[i := kin.subs[i].(live := false)]);
    case Deliver(i, to, continuation, millis) =>
      var part := f.records[kin.subs[i].pos..to];
      ReadableBack(part);
      pop.HandleEvent(AsRecords(part), continuation, millis);
      k := kin.(subs := kin.subs[i := kin.subs[i].(pos := to)]);
  }

  // Acts that can follow one another, in order.
  ghost predicate Feasible(f: Feed, s: Follower, acts: seq<Act>)
    decreases |acts|
  {
    acts != [] ==> Enabled(f, s, acts[0]) && Orderly(s, acts[0]) && Feasible(f, Apply(f, s, acts[0]), acts[1..])
  }

  ghost function Final(f: Feed, s: Follower, acts: seq<Act>): Follower
    requires Feasible(f, s, acts)
    decreases |acts|
  {
    if acts == [] then s else Final(f, Apply(f, s, acts[0]), acts[1..])
  }

  /** The populator itself, from the loaded snapshot through any acts of the stream: it keeps what the
      follower has, and when all is delivered it holds exactly the discoverable accounts. */
  method Follow(f: Feed, startTime: int, ghost w: World, snapshot: Mirror, available: nat, acts: seq<Act>)
    returns (pop: Populator)
    requires ValidWorld(w, f) && snapshot == w.snapshot && Feasible(f, Scanned(w, available), acts)
    ensures var s := Final(f, Scanned(w, available), acts);
      pop.Agrees(s) && (s.reached == |f.records| ==> Mirrors(w.ts[Changes(w)], pop.directory))
  {
    hide RightFrom, Mirrors, LoadAll, Apply, Enabled, Orderly;
    pop := new Populator(snapshot, startTime);
    ghost var s := Scanned(w, available);
    ghost var tr := [s];
    var kin := Kinesis([], [], available);
    var i := 0;
    assert acts[0..] == acts;
    while i < |acts|
      invariant 0 <= i <= |acts| && |tr| == i + 1 && tr[i] == s && tr[0] == Scanned(w, available)
      invariant pop.Agrees(s) && Serves(f, kin, s) && fresh(pop)
      invariant Feasible(f, s, acts[i..]) && Final(f, s, acts[i..]) == Final(f, Scanned(w, available), acts)
      invariant forall j :: 0 <= j < i ==>
        Enabled(f, tr[j], acts[j]) && tr[j + 1] == Apply(f, tr[j], acts[j]) && Orderly(tr[j], acts[j])
    {
      assert acts[i..][0] == acts[i] && acts[i..][1..] == acts[i + 1..];
      kin := Perform(pop, f, kin, acts[i], s);
      s := Apply(f, s, acts[i]);
      tr := tr + [s];
      i := i + 1;
    }
    assert acts[i..] == [];
    hide ValidWorld, Scanned;
    SnapshotThenReplay(w, f, tr, acts, i);
  }
}
