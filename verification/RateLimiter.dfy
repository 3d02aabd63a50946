/** The token rate limiter of CosmosTokenRateLimiter.java for one user: prepare, validate and
    garbage collection running concurrently over a store whose batches are atomic and whose
    bucket is replaced only under a matching etag. */
module RateLimiter {
  import opened Options
  import opened RateLimits
  import Words

  const MAX_COSMOS_BATCH_SIZE: nat := 100

  type Tid = nat
  type TokenId = nat

  datatype Token = Token(id: TokenId, cost: nat, ts: Instant)
  datatype Bucket = Bucket(amount: real, ts: Instant, gcts: Instant)

  // ----- garbage collection

  /** calculateGcPermits: whole leak intervals since gcts, never negative. */
  function GcPermits(c: Config, b: Bucket, now: Instant): nat
    requires c.Valid()
  {
    var s := Seconds(b.gcts, now);
    if s < 0 then 0 else LeakCount(c, s) * c.leakRateScalar
  }

  // A negative span gives no permits, whichever way its quotient rounds.
  function LeakCount(c: Config, s: nat): nat
    requires c.Valid()
  {
    Words.DivNonNeg(s, c.leakRateSeconds);
    s / c.leakRateSeconds
  }

  function TotalCost(ts: seq<Token>): nat {
    if ts == [] then 0 else ts[0].cost + TotalCost(ts[1..])
  }

  lemma {:induction false} TotalCostAppend(ts: seq<Token>, t: Token)
    ensures TotalCost(ts + [t]) == TotalCost(ts) + t.cost
  {
    if ts != [] {
      TotalCostAppend(ts[1..], t);
      assert (ts + [t])[1..] == ts[1..] + [t];
    } else {
      assert (ts + [t])[1..] == [];
    }
  }

  // The greedy selection, oldest first: a token is taken unless it does not fit when its turn comes.
  function Select(ts: seq<Token>, permits: nat, room: nat): seq<Token> {
    if ts == [] || room == 0 then []
    else if ts[0].cost <= permits then [ts[0]] + Select(ts[1..], permits - ts[0].cost, room - 1)
    else Select(ts[1..], permits, room)
  }

  // None of the first n tokens was left out that would still fit.
  ghost predicate NoneFits(ts: seq<Token>, n: nat, chosen: seq<Token>, use: nat, permits: nat)
    requires n <= |ts|
  {
    forall i :: 0 <= i < n ==> ts[i] in chosen || use + ts[i].cost > permits
  }

  lemma NoneFitsStep(ts: seq<Token>, n: nat, chosen: seq<Token>, use: nat, permits: nat)
    requires n < |ts| && NoneFits(ts, n, chosen, use, permits)
    ensures use + ts[n].cost <= permits ==> NoneFits(ts, n + 1, chosen + [ts[n]], use + ts[n].cost, permits)
    ensures use + ts[n].cost > permits ==> NoneFits(ts, n + 1, chosen, use, permits)
  {
  }

  /** The selection loop of garbageCollect over the candidates: as many as fit the permits and the
      batch, and none left out that would still fit. */
  method SelectForGc(tokens: seq<Token>, permits: nat) returns (chosen: seq<Token>, use: nat)
    ensures chosen == Select(tokens, permits, MAX_COSMOS_BATCH_SIZE - 1)
    ensures use == TotalCost(chosen) <= permits && |chosen| < MAX_COSMOS_BATCH_SIZE
    ensures forall i :: 0 <= i < |tokens| ==> tokens[i] in chosen || |chosen| == 99 || use + tokens[i].cost > permits
  {
    hide Select, TotalCost, NoneFits;
    chosen, use := [], 0;
    NothingCosts();
    var i: nat := 0;
    assert NoneFits(tokens, 0, chosen, use, permits) by { NothingLeft(tokens, permits); }
    ghost var left := Select(tokens, permits, 99);
    assert tokens[0..] == tokens && [] + left == left;
    while i < |tokens| && |chosen| < MAX_COSMOS_BATCH_SIZE - 1
      invariant i <= |tokens| && use == TotalCost(chosen) <= permits && |chosen| <= 99
      invariant left == Select(tokens[i..], permits - use, 99 - |chosen|)
      invariant chosen + left == Select(tokens, permits, 99)
      invariant NoneFits(tokens, i, chosen, use, permits)
    {
      NoneFitsStep(tokens, i, chosen, use, permits);
      SelectStep(tokens, i, permits - use, 99 - |chosen|);
      if use + tokens[i].cost <= permits {
        TotalCostAppend(chosen, tokens[i]);
        left := Select(tokens[i + 1..], permits - use - tokens[i].cost, 98 - |chosen|);
        assert chosen + ([tokens[i]] + left) == (chosen + [tokens[i]]) + left;
        use := use + tokens[i].cost;
        chosen := chosen + [tokens[i]];
      }
      i := i + 1;
    }
    SelectNone(tokens, i, permits - use, 99 - |chosen|);
    assert chosen + [] == chosen;
    if i == |tokens| { NoneFitsAll(tokens, chosen, use, permits); }
  }

  lemma NothingLeft(ts: seq<Token>, permits: nat)
    ensures NoneFits(ts, 0, [], 0, permits)
  {
  }

  lemma NoneFitsAll(ts: seq<Token>, chosen: seq<Token>, use: nat, permits: nat)
    requires NoneFits(ts, |ts|, chosen, use, permits)
    ensures forall i :: 0 <= i < |ts| ==> ts[i] in chosen || use + ts[i].cost > permits
  {
  }

  lemma NothingCosts()
    ensures TotalCost([]) == 0
  {
  }

  lemma SelectStep(ts: seq<Token>, i: nat, permits: nat, room: nat)
    requires i < |ts| && room > 0
    ensures Select(ts[i..], permits, room) ==
      if ts[i].cost <= permits then [ts[i]] + Select(ts[i + 1..], permits - ts[i].cost, room - 1)
      else Select(ts[i + 1..], permits, room)
  {
    assert ts[i..][1..] == ts[i + 1..];
  }

  lemma SelectNone(ts: seq<Token>, i: nat, permits: nat, room: nat)
    requires i <= |ts| && (i == |ts| || room == 0)
    ensures Select(ts[i..], permits, room) == []
  {
  }

  function Ids(ts: seq<Token>): set<TokenId> { set i | 0 <= i < |ts| :: ts[i].id }

  // No identifier twice.
  ghost predicate Apart(ts: seq<Token>) { forall i, j :: 0 <= i < j < |ts| ==> ts[i].id != ts[j].id }

  // What is chosen is worth no more than the permits and comes from the candidates, each once.
  lemma {:induction false} SelectSound(ts: seq<Token>, permits: nat, room: nat)
    requires Apart(ts)
    ensures var sel := Select(ts, permits, room);
      TotalCost(sel) <= permits && |sel| <= room && Apart(sel) && forall x :: x in sel ==> x in ts
  {
    if ts != [] && room != 0 {
      var fits := ts[0].cost <= permits;
      var rest := Select(ts[1..], if fits then permits - ts[0].cost else permits, if fits then room - 1 else room);
      SelectSound(ts[1..], if fits then permits - ts[0].cost else permits, if fits then room - 1 else room);
      assert Select(ts, permits, room) == if fits then [ts[0]] + rest else rest;
      hide Select;
      if fits {
        assert ([ts[0]] + rest)[1..] == rest;
        forall j | 0 <= j < |rest| ensures rest[j].id != ts[0].id { assert rest[j] in ts[1..]; }
      }
    }
  }

  // The filter of tryGarbageCollect: not the predecessor, not the bucket itself.
  datatype Item = TheBucket | Stored(token: Token)

  predicate Eligible(x: Item, previous: Option<TokenId>) { x.Stored? && previous != Some(x.token.id) }

  function Filtered(xs: seq<Item>, previous: Option<TokenId>): seq<Token> {
    if xs == [] then []
    else (if Eligible(xs[0], previous) then [xs[0].token] else []) + Filtered(xs[1..], previous)
  }

  // Oldest first; a stable sort.
  function Insert(ts: seq<Token>, x: Token): seq<Token> {
    if ts == [] || x.ts <= ts[0].ts then [x] + ts else [ts[0]] + Insert(ts[1..], x)
  }

  function ByAge(ts: seq<Token>): seq<Token> {
    if ts == [] then [] else Insert(ByAge(ts[1..]), ts[0])
  }

  ghost predicate OldestFirst(ts: seq<Token>) { forall i, j :: 0 <= i < j < |ts| ==> ts[i].ts <= ts[j].ts }

  lemma {:induction false} InsertOrders(ts: seq<Token>, x: Token)
    requires OldestFirst(ts)
    ensures OldestFirst(Insert(ts, x))
  {
    if ts != [] && ts[0].ts < x.ts {
      InsertOrders(ts[1..], x);
      InsertKeeps(ts[1..], x);
      var r := Insert(ts[1..], x);
      forall j | 0 <= j < |r| ensures ts[0].ts <= r[j].ts { assert r[j] in r; }
    }
  }

  lemma {:induction false} ByAgeOrders(ts: seq<Token>)
    ensures OldestFirst(ByAge(ts))
  {
    if ts != [] {
      ByAgeOrders(ts[1..]);
      InsertOrders(ByAge(ts[1..]), ts[0]);
    }
  }

  lemma {:induction false} InsertKeeps(ts: seq<Token>, x: Token)
    ensures |Insert(ts, x)| == |ts| + 1
    ensures forall y :: y in Insert(ts, x) <==> y == x || y in ts
    ensures Apart(ts) && (forall i :: 0 <= i < |ts| ==> ts[i].id != x.id) ==> Apart(Insert(ts, x))
  {
    if ts != [] && ts[0].ts < x.ts {
      InsertKeeps(ts[1..], x);
      var r := Insert(ts[1..], x);
      forall j | 0 <= j < |r| && Apart(ts) && (forall i :: 0 <= i < |ts| ==> ts[i].id != x.id)
        ensures r[j].id != ts[0].id
      {
        assert r[j] in r;
      }
    }
  }

  lemma {:induction false} ByAgeKeeps(ts: seq<Token>)
    ensures |ByAge(ts)| == |ts| && (forall y :: y in ByAge(ts) <==> y in ts) && (Apart(ts) ==> Apart(ByAge(ts)))
  {
    if ts != [] {
      ByAgeKeeps(ts[1..]);
      InsertKeeps(ByAge(ts[1..]), ts[0]);
      var r := ByAge(ts[1..]);
      forall i | 0 <= i < |r| && Apart(ts) ensures r[i].id != ts[0].id { assert r[i] in r; }
    }
  }

  lemma {:induction false} FilteredIn(xs: seq<Item>, previous: Option<TokenId>)
    requires forall i, j :: 0 <= i < j < |xs| && xs[i].Stored? && xs[j].Stored? ==> xs[i].token.id != xs[j].token.id
    ensures forall y :: y in Filtered(xs, previous) <==> Stored(y) in xs && previous != Some(y.id)
    ensures Apart(Filtered(xs, previous))
  {
    if xs != [] {
      FilteredIn(xs[1..], previous);
      var r := Filtered(xs[1..], previous);
      if Eligible(xs[0], previous) {
        forall j | 0 <= j < |r| ensures r[j].id != xs[0].token.id {
          assert r[j] in r;
          var i :| 0 <= i < |xs[1..]| && xs[1..][i] == Stored(r[j]);
          assert xs[i + 1] == Stored(r[j]);
        }
      }
      forall y ensures y in Filtered(xs, previous) <==> Stored(y) in xs && previous != Some(y.id) {
        assert Stored(y) in xs <==> Stored(y) == xs[0] || Stored(y) in xs[1..];
      }
    }
  }

  // ----- the store and the threads

  // What the ledger says happened to the bucket: a creation, a drop after its time to live, or the
  // charge for a token; `since` is the stamp it had before.
  datatype Commit = Commit(ts: Instant, charge: nat, amount: real, paid: Option<TokenId>, since: Instant)

  // `version` is the bucket's etag.  The rest is history: identifiers drawn, token records ever
  // stored, the ledger, whether a bucket was ever dropped, whether the present one took the place
  // of a dropped one and was not charged since, and whether a charge to such a bucket was late.
  datatype Store = Store(
    bucket: Option<Bucket>, version: nat, tokens: map<TokenId, Token>,
    drawn: set<TokenId>, made: map<TokenId, Token>, commits: seq<Commit>,
    dropped: bool, renewed: bool, late: bool)

  // One prepare call: the predecessor token, the new one, the amount asked for, the time it began.
  datatype Job = Job(previous: Option<TokenId>, token: TokenId, delta: nat, now: Instant)

  datatype Pc =
    | Idle
    // validate: the cost is read, the batch is built
    | HasCost(id: TokenId, cost: nat)
    | Charging(id: TokenId, cost: nat, seen: nat, from: Bucket, to: Bucket)
    // prepare: the bucket is read, a collection is planned, the cost is open, checked, approved
    | HasBucket(job: Job, seen: nat, from: Bucket)
    | Collecting(job: Job, seen: nat, from: Bucket, chosen: seq<Token>, gcts: Instant)
    | Costing(job: Job, from: Bucket)
    | Checking(job: Job, total: nat, from: Bucket)
    | Storing(job: Job, total: nat)

  datatype World = World(store: Store, pc: map<Tid, Pc>)

  datatype Action =
    | ReadCost(id: TokenId) | BuildCharge(now: Instant) | CommitCharge
    | ReadBucket(job: Job) | PlanGc(listing: seq<Item>) | SkipGc | CommitGc
    | ReadOldCost | CheckLimit(now: Instant) | StoreToken
    | Expire(id: TokenId) | Drop(now: Instant)

  // A listing of the user's partition: the bucket and every token record, in any order.
  ghost predicate Lists(s: Store, xs: seq<Item>) {
    && (forall i :: 0 <= i < |xs| && xs[i].Stored? ==>
          xs[i].token.id in s.tokens && s.tokens[xs[i].token.id] == xs[i].token)
    && (forall id :: id in s.tokens ==> s.tokens[id].id == id && Stored(s.tokens[id]) in xs)
    && (forall i, j :: 0 <= i < j < |xs| && xs[i].Stored? && xs[j].Stored? ==> xs[i].token.id != xs[j].token.id)
  }

  // What garbageCollect deletes: nothing if nothing is worth it, else the selection.
  function Collected(listing: seq<Item>, previous: Option<TokenId>, permits: nat): seq<Token> {
    var chosen := Select(ByAge(Filtered(listing, previous)), permits, MAX_COSMOS_BATCH_SIZE - 1);
    if TotalCost(chosen) == 0 then [] else chosen
  }

  // advanceGcts: forward by the seconds it takes to leak this many permits.
  function AdvanceGcts(c: Config, gcts: Instant, permits: nat): Instant
    requires c.Valid()
  {
    gcts + CeilDiv(permits, c.leakRateScalar) * 1_000_000_000
  }

  // Where a collection moves gcts: to the present when all candidates go, else forward by what it used.
  function GcStamp(c: Config, b: Bucket, candidates: nat, chosen: seq<Token>, now: Instant): Instant
    requires c.Valid()
  {
    if |chosen| == candidates then now else AdvanceGcts(c, b.gcts, TotalCost(chosen))
  }

  /** garbageCollect up to its batch, from a listing of the whole partition. */
  method PlanCollection(c: Config, b: Bucket, previous: Option<TokenId>, now: Instant, listing: seq<Item>)
    returns (chosen: seq<Token>, gcts: Instant)
    requires c.Valid()
    ensures chosen == Collected(listing, previous, GcPermits(c, b, now)) && |chosen| < MAX_COSMOS_BATCH_SIZE
    ensures gcts == if chosen == [] then b.gcts else GcStamp(c, b, |Filtered(listing, previous)|, chosen, now)
  {
    hide GcPermits, AdvanceGcts, ByAge, Filtered, Select, TotalCost;
    NothingCosts();
    var permits := GcPermits(c, b, now);
    gcts := b.gcts;
    if permits == 0 {
      NoPermits(ByAge(Filtered(listing, previous)), 99);
      return [], gcts;
    }
    var tokens := FilterPartition(listing, previous);
    ByAgeKeeps(tokens);
    var use;
    chosen, use := SelectForGc(ByAge(tokens), permits);
    if use == 0 {
      return [], gcts;
    }
    gcts := if |chosen| == |tokens| then now else AdvanceGcts(c, b.gcts, use);
  }

  method FilterPartition(listing: seq<Item>, previous: Option<TokenId>) returns (tokens: seq<Token>)
    ensures tokens == Filtered(listing, previous)
  {
    hide Filtered;
    tokens := [];
    var i := 0;
    FilteredNone(previous);
    assert listing[..0] == [];
    while i < |listing|
      invariant 0 <= i <= |listing| && tokens == Filtered(listing[..i], previous)
    {
      FilteredAppend(listing[..i], listing[i], previous);
      assert listing[..i + 1] == listing[..i] + [listing[i]];
      if Eligible(listing[i], previous) {
        tokens := tokens + [listing[i].token];
      }
      i := i + 1;
    }
    assert listing[..i] == listing;
  }

  lemma FilteredNone(previous: Option<TokenId>)
    ensures Filtered([], previous) == []
  {
  }

  lemma {:induction false} FilteredAppend(xs: seq<Item>, x: Item, previous: Option<TokenId>)
    ensures Filtered(xs + [x], previous) == Filtered(xs, previous) + (if Eligible(x, previous) then [x.token] else [])
  {
    if xs == [] {
      assert (xs + [x])[1..] == [];
    } else {
      FilteredAppend(xs[1..], x, previous);
      assert (xs + [x])[1..] == xs[1..] + [x];
    }
  }

  lemma {:induction false} NoPermits(ts: seq<Token>, room: nat)
    ensures TotalCost(Select(ts, 0, room)) == 0
  {
    if ts != [] && room != 0 { NoPermits(ts[1..], if ts[0].cost == 0 then room - 1 else room); }
  }

  // The candidates of a collection: every stored token but the predecessor.
  function Candidates(s: Store, previous: Option<TokenId>): set<TokenId> {
    set id | id in s.tokens && previous != Some(id)
  }

  /** Whatever order the partition is listed in: what is collected are stored records, each once,
      never the predecessor, worth no more than the permits; and gcts moves to the present exactly
      when no candidate stays. */
  lemma CollectionSound(s: Store, listing: seq<Item>, previous: Option<TokenId>, permits: nat)
    requires Lists(s, listing)
    ensures var chosen := Collected(listing, previous, permits);
      && TotalCost(chosen) <= permits && Apart(chosen)
      && (forall i :: 0 <= i < |chosen| ==>
            chosen[i].id in s.tokens && s.tokens[chosen[i].id] == chosen[i] && previous != Some(chosen[i].id))
      && (|chosen| == |Filtered(listing, previous)| <==> Ids(chosen) == Candidates(s, previous))
  {
    hide TotalCost, Select, ByAge;
    var tokens, chosen := Filtered(listing, previous), Collected(listing, previous, permits);
    FilteredIn(listing, previous);
    ByAgeKeeps(tokens);
    SelectSound(ByAge(tokens), permits, 99);
    NothingCosts();
    forall i | 0 <= i < |chosen|
      ensures chosen[i] in tokens && chosen[i].id in s.tokens && s.tokens[chosen[i].id] == chosen[i]
      ensures previous != Some(chosen[i].id)
    {
      assert chosen[i] in ByAge(tokens);
      var j :| 0 <= j < |listing| && listing[j] == Stored(chosen[i]);
    }
    FilteredIds(s, listing, previous);
    SameSize(chosen, tokens);
  }

  lemma FilteredIds(s: Store, listing: seq<Item>, previous: Option<TokenId>)
    requires Lists(s, listing)
    ensures Ids(Filtered(listing, previous)) == Candidates(s, previous)
  {
    var tokens := Filtered(listing, previous);
    FilteredIn(listing, previous);
    hide Filtered;
    forall id | id in Candidates(s, previous) ensures id in Ids(tokens) {
      assert s.tokens[id] in tokens;
    }
    forall id | id in Ids(tokens) ensures id in Candidates(s, previous) {
      var i :| 0 <= i < |tokens| && tokens[i].id == id;
      assert tokens[i] in tokens;
      var j :| 0 <= j < |listing| && listing[j] == Stored(tokens[i]);
    }
  }

  lemma {:induction false} IdsCount(ts: seq<Token>)
    requires Apart(ts)
    ensures |Ids(ts)| == |ts|
  {
    if ts == [] {
      assert Ids(ts) == {};
    } else {
      var n := |ts| - 1;
      ApartInit(ts);
      IdsCount(ts[..n]);
      IdsInit(ts);
      hide Ids, Apart;
      assert |Ids(ts[..n]) + {ts[n].id}| == n + 1;
    }
  }

  lemma ApartInit(ts: seq<Token>)
    requires Apart(ts) && ts != []
    ensures Apart(ts[..|ts| - 1]) && ts[|ts| - 1].id !in Ids(ts[..|ts| - 1])
  {
  }

  lemma IdsInit(ts: seq<Token>)
    requires ts != []
    ensures Ids(ts) == Ids(ts[..|ts| - 1]) + {ts[|ts| - 1].id}
  {
    var n := |ts| - 1;
    forall i | 0 <= i < n ensures ts[i].id in Ids(ts[..n]) { assert ts[..n][i] == ts[i]; }
    forall id | id in Ids(ts[..n]) ensures id in Ids(ts) {
      var i :| 0 <= i < n && ts[..n][i].id == id;
      assert ts[i].id == id;
    }
  }

  // Part of a list without repetitions is all of it exactly when it is as long.
  lemma SameSize(part: seq<Token>, all: seq<Token>)
    requires Apart(part) && Apart(all) && forall i :: 0 <= i < |part| ==> part[i] in all
    ensures |part| == |all| <==> Ids(part) == Ids(all)
  {
    IdsCount(part);
    IdsCount(all);
    forall id | id in Ids(part) ensures id in Ids(all) {
      var i :| 0 <= i < |part| && part[i].id == id;
      assert part[i] in all;
    }
    assert Ids(all) * Ids(part) == Ids(part);
    assert |Ids(all) - Ids(part)| == |all| - |part|;
  }

  // The tokens not newer than this.
  function UpTo(ts: seq<Token>, at: Instant): seq<Token> {
    if ts == [] then [] else (if ts[0].ts <= at then [ts[0]] else []) + UpTo(ts[1..], at)
  }

  lemma {:induction false} SelectOldest(ts: seq<Token>, permits: nat, room: nat, x: Token)
    requires OldestFirst(ts) && x in ts && x !in Select(ts, permits, room)
    ensures var older := UpTo(Select(ts, permits, room), x.ts);
      |older| == room || TotalCost(older) + x.cost > permits
  {
    if room > 0 {
      var fits := ts[0].cost <= permits;
      var p, r := if fits then permits - ts[0].cost else permits, if fits then room - 1 else room;
      var rest := Select(ts[1..], p, r);
      assert Select(ts, permits, room) == if fits then [ts[0]] + rest else rest;
      assert ([ts[0]] + rest)[1..] == rest;
      if fits || x != ts[0] {
        assert x in ts[1..];
        assert ts[0].ts <= x.ts by { var i :| 0 < i < |ts| && ts[i] == x; }
        SelectOldest(ts[1..], p, r, x);
        hide Select;
        var older := UpTo(rest, x.ts);
        assert ([ts[0]] + older)[1..] == older;
      }
    }
  }

  /** Oldest first: a candidate that is left stays because the batch is full of tokens no newer than
      it, or because those and it together exceed the permits. */
  lemma OldestCollected(s: Store, listing: seq<Item>, previous: Option<TokenId>, permits: nat, id: TokenId)
    requires Lists(s, listing) && id in Candidates(s, previous) && forall x :: x in s.tokens ==> s.tokens[x].cost > 0
    ensures var chosen := Collected(listing, previous, permits);
      var older := UpTo(chosen, s.tokens[id].ts);
      s.tokens[id] in chosen || |older| == 99 || TotalCost(older) + s.tokens[id].cost > permits
  {
    var tokens, x := Filtered(listing, previous), s.tokens[id];
    FilteredIn(listing, previous);
    ByAgeKeeps(tokens);
    ByAgeOrders(tokens);
    var sel := Select(ByAge(tokens), permits, 99);
    assert x in ByAge(tokens);
    if x !in sel { SelectOldest(ByAge(tokens), permits, 99, x); }
    SelectSound(ByAge(tokens), permits, 99);
    hide Select, ByAge, Filtered;
    if sel != [] {
      assert sel[0] in tokens;
      var j :| 0 <= j < |listing| && listing[j] == Stored(sel[0]);
      assert TotalCost(sel) >= sel[0].cost;
    }
  }

  // ----- the steps

  ghost predicate Enabled(c: Config, w: World, t: Tid, a: Action)
    requires c.Valid()
  {
    t in w.pc &&
    match a
    case ReadCost(_) => w.pc[t].Idle?
    case BuildCharge(_) => w.pc[t].HasCost?
    case CommitCharge => w.pc[t].Charging?
    case ReadBucket(job) => w.pc[t].Idle? && job.token !in w.store.drawn   // a fresh random identifier
    case PlanGc(listing) => w.pc[t].HasBucket? && Lists(w.store, listing)
    case SkipGc => w.pc[t].HasBucket?
    case CommitGc => w.pc[t].Collecting?
    case ReadOldCost => w.pc[t].Costing?
    case CheckLimit(_) => w.pc[t].Checking?
    case StoreToken => w.pc[t].Storing?
    case Expire(_) => true
    // the store's own clock: the bucket was not written for its time to live
    case Drop(now) => w.store.bucket.Some? && Seconds(w.store.bucket.value.ts, now) >= Ttl(c)
  }

  // A charge at `now` to a bucket created at `created` in place of one dropped at `dropped` counts
  // every second since the drop.
  predicate Punctual(dropped: Instant, created: Instant, now: Instant) {
    Seconds(dropped, now) >= 0 || Seconds(created, now) <= Seconds(dropped, now)
  }

  // validate's batch: replace the bucket under its etag and delete the token, or nothing.
  function ChargeBatch(s: Store, p: Pc): Store
    requires p.Charging?
  {
    if s.version == p.seen && p.id in s.tokens then
      s.(bucket := Some(p.to), version := s.version + 1, tokens := s.tokens - {p.id},
         commits := s.commits + [Commit(p.to.ts, p.cost, p.to.amount, Some(p.id), p.from.ts)],
         renewed := false,
         late := s.late || (s.renewed && s.commits != [] && !Punctual(s.commits[|s.commits| - 1].ts, p.from.ts, p.to.ts)))
    else s
  }

  // The collection batch: replace the bucket under its etag and delete the chosen, or nothing.
  function GcBatch(s: Store, p: Pc): Store
    requires p.Collecting?
  {
    if s.version == p.seen && Ids(p.chosen) <= s.tokens.Keys then
      s.(bucket := Some(p.from.(gcts := p.gcts)), version := s.version + 1, tokens := s.tokens - Ids(p.chosen))
    else s
  }

  // prepare's first step: read the bucket, or create an empty one.
  function OpenBucket(s: Store, now: Instant): Store {
    if s.bucket.Some? then s
    else s.(bucket := Some(Bucket(0.0, now, now)), version := s.version + 1,
            commits := if s.commits == [] then [Commit(now, 0, 0.0, None, now)] else s.commits,
            renewed := s.commits != [])
  }

  // The store deletes the bucket when its time to live is over.
  function DropBucket(s: Store, now: Instant): Store
    requires s.bucket.Some?
  {
    s.(bucket := None, version := s.version + 1,
       commits := if s.renewed then s.commits else s.commits + [Commit(now, 0, 0.0, None, s.bucket.value.ts)],
       dropped := true, renewed := false)
  }

  // getNewTokenCost: an unspent predecessor's cost is carried over.
  function NewTokenCost(s: Store, job: Job): nat {
    if job.previous.Some? && job.previous.value in s.tokens
    then s.tokens[job.previous.value].cost + job.delta
    else job.delta
  }

  function NextPc(c: Config, s: Store, p: Pc, a: Action): Pc
    requires c.Valid()
  {
    match (a, p)
    case (ReadCost(id), _) => if id in s.tokens then HasCost(id, s.tokens[id].cost) else Idle
    case (BuildCharge(now), HasCost(id, cost)) =>
      if s.bucket.None? then Idle
      else
        var b := s.bucket.value;
        (match BucketUtilization(c, b.ts, now, b.amount, cost as real)
         case Accepted(amount) => Charging(id, cost, s.version, b, Bucket(amount, now, AdvanceGcts(c, b.gcts, cost)))
         case Exceeded(_) => Idle)
    case (ReadBucket(job), _) =>
      var s1 := OpenBucket(s, job.now);
      HasBucket(job, s1.version, s1.bucket.value)
    case (PlanGc(listing), HasBucket(job, seen, from)) =>
      var chosen := Collected(listing, job.previous, GcPermits(c, from, job.now));
      if chosen == [] then Costing(job, from)
      else Collecting(job, seen, from, chosen, GcStamp(c, from, |Filtered(listing, job.previous)|, chosen, job.now))
    case (SkipGc, HasBucket(job, _, from)) => Costing(job, from)
    case (CommitGc, Collecting(job, _, from, _, _)) => Costing(job, from)
    case (ReadOldCost, Costing(job, from)) =>
      var total := NewTokenCost(s, job);
      if total > c.bucketSize || total == 0 then Idle else Checking(job, total, from)
    case (CheckLimit(now), Checking(job, total, from)) =>
      if BucketUtilization(c, from.ts, now, from.amount, total as real).Exceeded? then Idle else Storing(job, total)
    case (Expire(_), _) => p
    case (Drop(_), _) => p
    case _ => Idle
  }

  function NextStore(s: Store, p: Pc, a: Action): Store {
    match (a, p)
    case (CommitCharge, Charging(_, _, _, _, _)) => ChargeBatch(s, p)
    case (CommitGc, Collecting(_, _, _, _, _)) => GcBatch(s, p)
    case (ReadBucket(job), _) => OpenBucket(s, job.now).(drawn := s.drawn + {job.token})
    case (StoreToken, Storing(job, total)) =>
      if job.token in s.tokens then s
      else
        var x := Token(job.token, total, job.now);
        s.(tokens := s.tokens[job.token := x], made := s.made[job.token := x])
    case (Expire(id), _) => s.(tokens := s.tokens - {id})
    case (Drop(now), _) => if s.bucket.Some? then DropBucket(s, now) else s
    case _ => s
  }

  ghost function Apply(c: Config, w: World, t: Tid, a: Action): World
    requires c.Valid() && Enabled(c, w, t, a)
  {
    World(NextStore(w.store, w.pc[t], a), w.pc[t := NextPc(c, w.store, w.pc[t], a)])
  }

  ghost predicate Init(w: World) {
    && w.store == Store(None, 0, map[], {}, map[], [], false, false, false)
    && forall t :: t in w.pc ==> w.pc[t].Idle?
  }

  datatype Event = Event(t: Tid, a: Action)

  ghost predicate Run(c: Config, tr: seq<World>, evs: seq<Event>)
    requires c.Valid()
  {
    && |tr| == |evs| + 1 && Init(tr[0])
    && forall i :: 0 <= i < |evs| ==>
         Enabled(c, tr[i], evs[i].t, evs[i].a) && tr[i + 1] == Apply(c, tr[i], evs[i].t, evs[i].a)
  }

  lemma StepOf(c: Config, tr: seq<World>, evs: seq<Event>, i: nat)
    requires c.Valid() && Run(c, tr, evs) && i < |evs|
    ensures |tr| == |evs| + 1
    ensures Enabled(c, tr[i], evs[i].t, evs[i].a) && tr[i + 1] == Apply(c, tr[i], evs[i].t, evs[i].a)
  {
    hide Enabled, Apply, Init;
  }

  // ----- invariants

  // One entry after another: the charge is covered by the rise of the level plus the leak.
  ghost predicate Follows(c: Config, x: Commit, y: Commit)
    requires c.Valid()
  {
    y.charge as real <= y.amount - x.amount + Leak(c, Seconds(x.ts, y.ts) as real)
  }

  // A time to live that lets a full bucket drain.
  predicate TtlDrains(c: Config)
    requires c.Valid()
  {
    c.bucketSize * c.leakRateSeconds <= c.leakRateScalar * Ttl(c)
  }

  // The last entry of the ledger is about the bucket that is there, or about the drop of the one before.
  ghost predicate UpToDate(s: Store) {
    match s.bucket
    case None => s.commits != [] ==> s.commits[|s.commits| - 1].amount == 0.0
    case Some(b) =>
      && s.commits != []
      && var last := s.commits[|s.commits| - 1];
      last.amount == b.amount && (s.renewed ==> b.amount == 0.0) && (!s.renewed ==> last.ts == b.ts)
  }

  // If a bucket was dropped, it had drained, and what came after it was punctual.
  predicate Covered(c: Config, s: Store)
    requires c.Valid()
  {
    s.dropped ==> TtlDrains(c) && !s.late
  }

  ghost predicate Ledger(c: Config, s: Store)
    requires c.Valid()
  {
    && UpToDate(s)
    && (forall i :: 0 <= i < |s.commits| ==> s.commits[i].charge as real <= s.commits[i].amount <= c.bucketSize as real)
    && (s.renewed || s.late ==> s.dropped) && (s.bucket.None? && s.commits != [] ==> s.dropped)
    && (Covered(c, s) ==> forall i :: 0 <= i < |s.commits| - 1 ==> Follows(c, s.commits[i], s.commits[i + 1]))
  }

  // A token record never changes and is charged only once, at its recorded cost.
  ghost predicate TokensSound(c: Config, s: Store) {
    && s.made.Keys <= s.drawn
    && (forall id :: id in s.made ==> 0 < s.made[id].cost <= c.bucketSize && s.made[id].id == id)
    && (forall id :: id in s.tokens ==> id in s.made && s.tokens[id] == s.made[id])
    && (forall i :: 0 <= i < |s.commits| ==> PaidOnce(s, i))
    && (forall i, j :: 0 <= i < j < |s.commits| && s.commits[i].paid.Some? ==> s.commits[i].paid != s.commits[j].paid)
  }

  // What entry i charges is the cost of a token that is gone, or nothing.
  ghost predicate PaidOnce(s: Store, i: nat)
    requires i < |s.commits|
  {
    match s.commits[i].paid
    case None => s.commits[i].charge == 0
    case Some(id) => id in s.made && id !in s.tokens && s.commits[i].charge == s.made[id].cost
  }

  predicate Pending(p: Pc) {
    p.HasBucket? || p.Collecting? || p.Costing? || p.Checking? || p.Storing?
  }

  // A remembered bucket is the stored one as long as the etag is.
  ghost predicate Snapshot(s: Store, seen: nat, from: Bucket) {
    seen <= s.version && (seen == s.version ==> s.bucket == Some(from))
  }

  // What a thread remembers agrees with the store as far as it still matters.
  ghost predicate ThreadSound(c: Config, s: Store, p: Pc)
    requires c.Valid()
  {
    match p
    case HasCost(id, cost) => id in s.made && s.made[id].cost == cost
    case Charging(id, cost, seen, from, to) =>
      && id in s.made && s.made[id].cost == cost && Snapshot(s, seen, from)
      && Accepts(c, from, to, cost) && from.gcts <= to.gcts && Pays(c, from.gcts, to.gcts, cost)
    case HasBucket(job, seen, from) => Snapshot(s, seen, from)
    case Collecting(job, seen, from, chosen, gcts) =>
      && Snapshot(s, seen, from) && TotalCost(chosen) <= GcPermits(c, from, job.now)
      && from.gcts <= gcts <= job.now && Pays(c, from.gcts, gcts, TotalCost(chosen))
      && (forall i :: 0 <= i < |chosen| ==>
            chosen[i].id in s.made && s.made[chosen[i].id] == chosen[i] && job.previous != Some(chosen[i].id))
    case Checking(job, total, _) => 0 < total <= c.bucketSize && job.delta <= total
    case Storing(job, total) => 0 < total <= c.bucketSize && job.delta <= total
    case _ => true
  }

  // Moving the collection timestamp this far takes at least so many permits away.
  ghost predicate Pays(c: Config, from: Instant, to: Instant, permits: nat) {
    permits * 1_000_000_000 <= c.leakRateScalar * (to - from)
  }

  // The new level is the old one, drained, plus the charge.
  ghost predicate Accepts(c: Config, from: Bucket, to: Bucket, cost: nat)
    requires c.Valid()
  {
    BucketUtilization(c, from.ts, to.ts, from.amount, cost as real) == Accepted(to.amount)
  }

  predicate SameDraw(w: World, t: Tid, u: Tid) {
    && t in w.pc && u in w.pc && Pending(w.pc[t]) && Pending(w.pc[u])
    && w.pc[t].job.token == w.pc[u].job.token
  }

  ghost predicate DrawsSound(w: World) {
    && (forall t :: t in w.pc && Pending(w.pc[t]) ==>
          w.pc[t].job.token in w.store.drawn && w.pc[t].job.token !in w.store.made)
    && (forall t, u :: SameDraw(w, t, u) ==> t == u)
  }

  ghost predicate Inv(c: Config, w: World)
    requires c.Valid()
  {
    && Ledger(c, w.store) && TokensSound(c, w.store) && DrawsSound(w)
    && forall t :: t in w.pc ==> ThreadSound(c, w.store, w.pc[t])
  }

  // Stored records only ever come into being, and the bucket changes only with its version.
  ghost predicate Grows(s: Store, s': Store) {
    && (forall id :: id in s.made ==> id in s'.made && s'.made[id] == s.made[id])
    && s.version <= s'.version && (s.version == s'.version ==> s'.bucket == s.bucket)
  }

  lemma GrowsKeepsThread(c: Config, s: Store, s': Store, p: Pc)
    requires c.Valid() && Grows(s, s') && ThreadSound(c, s, p)
    ensures ThreadSound(c, s', p)
  {
    hide Accepts, TotalCost, GcPermits, Pays;
  }

  lemma StepGrows(c: Config, w: World, t: Tid, a: Action)
    requires c.Valid() && Inv(c, w) && Enabled(c, w, t, a)
    ensures Grows(w.store, Apply(c, w, t, a).store)
  {
    hide Ledger, TokensSound, ThreadSound, NextPc, Punctual;
  }

  // ----- the ledger

  // The next entry after a charge to the bucket the last entry is about.
  lemma ChargeFollows(c: Config, last: Commit, from: Bucket, to: Bucket, cost: nat, id: TokenId)
    requires c.Valid() && Accepts(c, from, to, cost) && last.amount == from.amount && last.ts == from.ts
    ensures Follows(c, last, Commit(to.ts, cost, to.amount, Some(id), from.ts))
  {
    hide Leak;
    AcceptedBounds(c, from.ts, to.ts, from.amount, cost as real);
  }

  /** A charge to a bucket that took the place of a dropped one is covered from the drop on exactly
      if it is punctual. */
  lemma RenewedFollowsIff(c: Config, dropped: Commit, from: Bucket, to: Bucket, cost: nat, id: TokenId)
    requires c.Valid() && Accepts(c, from, to, cost) && dropped.amount == 0.0 && from.amount == 0.0
    ensures Follows(c, dropped, Commit(to.ts, cost, to.amount, Some(id), from.ts)) <==> Punctual(dropped.ts, from.ts, to.ts)
  {
    var a, b := Seconds(dropped.ts, to.ts) as real, Seconds(from.ts, to.ts) as real;
    LeakSign(c, a);
    LeakSign(c, b);
    LeakOrder(c, b, a);
    hide Leak, Seconds;
  }

  lemma LeakSign(c: Config, s: real)
    requires c.Valid()
    ensures Leak(c, s) >= 0.0 <==> s >= 0.0
  {
    LeakOrder(c, 0.0, s);
    LeakAdd(c, 0.0, 0.0);
  }

  // A drop after the time to live: the bucket had drained.
  lemma DropFollows(c: Config, last: Commit, now: Instant, since: Instant)
    requires c.Valid() && TtlDrains(c) && last.amount <= c.bucketSize as real && Seconds(last.ts, now) >= Ttl(c)
    ensures Follows(c, last, Commit(now, 0, 0.0, None, since))
  {
    LeakReaches(c, Ttl(c));
    LeakMono(c, Ttl(c) as real, Seconds(last.ts, now) as real);
    hide Leak, Ttl, Seconds;
  }

  lemma ChargeKeepsLedger(c: Config, s: Store, p: Pc)
    requires c.Valid() && Ledger(c, s) && p.Charging? && ThreadSound(c, s, p)
    ensures Ledger(c, ChargeBatch(s, p))
  {
    hide Leak, Follows, Punctual, Accepts, TtlDrains;
    AcceptsBounds(c, p.from, p.to, p.cost);
    if s.commits != [] {
      var last := s.commits[|s.commits| - 1];
      if s.bucket == Some(p.from) {
        if s.renewed { RenewedFollowsIff(c, last, p.from, p.to, p.cost, p.id); }
        else { ChargeFollows(c, last, p.from, p.to, p.cost, p.id); }
      }
    }
  }

  lemma AcceptsBounds(c: Config, from: Bucket, to: Bucket, cost: nat)
    requires c.Valid() && Accepts(c, from, to, cost)
    ensures cost as real <= to.amount <= c.bucketSize as real
  {
    AcceptedBounds(c, from.ts, to.ts, from.amount, cost as real);
  }

  lemma DropKeepsLedger(c: Config, s: Store, now: Instant)
    requires c.Valid() && Ledger(c, s) && s.bucket.Some? && Seconds(s.bucket.value.ts, now) >= Ttl(c)
    ensures Ledger(c, DropBucket(s, now))
  {
    hide Leak, Follows, Seconds, Ttl, TtlDrains;
    if TtlDrains(c) && !s.renewed { DropFollows(c, s.commits[|s.commits| - 1], now, s.bucket.value.ts); }
  }

  lemma OpenKeepsLedger(c: Config, s: Store, now: Instant)
    requires c.Valid() && Ledger(c, s)
    ensures Ledger(c, OpenBucket(s, now))
  {
    hide Follows, TtlDrains;
  }

  lemma StepKeepsLedger(c: Config, w: World, t: Tid, a: Action)
    requires c.Valid() && Inv(c, w) && Enabled(c, w, t, a)
    ensures Ledger(c, Apply(c, w, t, a).store)
  {
    hide TokensSound, DrawsSound, NextPc, Follows, Punctual, Accepts, TtlDrains, Seconds, Ttl, TotalCost, GcPermits, Lists, Pays;
    assert ThreadSound(c, w.store, w.pc[t]);
    match a
    case CommitCharge => ChargeKeepsLedger(c, w.store, w.pc[t]);
    case ReadBucket(job) => OpenKeepsLedger(c, w.store, job.now);
    case Drop(now) => DropKeepsLedger(c, w.store, now);
    case _ =>
  }

  // ----- tokens, draws, threads

  lemma ChargeKeepsTokens(c: Config, s: Store, p: Pc)
    requires c.Valid() && TokensSound(c, s) && p.Charging? && p.id in s.made && s.made[p.id].cost == p.cost
    ensures TokensSound(c, ChargeBatch(s, p))
  {
    hide Punctual;
    var s' := ChargeBatch(s, p);
    if s'.commits != s.commits {
      var n := |s.commits|;
      forall i | 0 <= i < n
        ensures PaidOnce(s', i) && s.commits[i].paid != Some(p.id)
      {
        assert PaidOnce(s, i) && s'.commits[i] == s.commits[i];
      }
      assert PaidOnce(s', n);
    }
  }

  predicate NothingPaid(cs: seq<Commit>, cs': seq<Commit>) {
    cs' == cs || (|cs'| == |cs| + 1 && cs'[..|cs|] == cs && cs'[|cs|].charge == 0 && cs'[|cs|].paid == None)
  }

  lemma OtherKeepsTokens(c: Config, s: Store, s': Store)
    requires c.Valid() && TokensSound(c, s) && s'.made == s.made && s.drawn <= s'.drawn
    requires s'.tokens.Keys <= s.tokens.Keys && (forall id :: id in s'.tokens ==> s'.tokens[id] == s.tokens[id])
    requires NothingPaid(s.commits, s'.commits)
    ensures TokensSound(c, s')
  {
    forall i, j | 0 <= i < j < |s'.commits| && s'.commits[i].paid.Some?
      ensures s'.commits[i].paid != s'.commits[j].paid
    {
      assert i < |s.commits| && s'.commits[i] == s.commits[i];
      if j < |s.commits| { assert s'.commits[j] == s.commits[j]; }
    }
    forall i | 0 <= i < |s'.commits| ensures PaidOnce(s', i) {
      if i < |s.commits| { assert PaidOnce(s, i) && s'.commits[i] == s.commits[i]; }
    }
  }

  lemma StoreKeepsTokens(c: Config, w: World, t: Tid)
    requires c.Valid() && Inv(c, w) && Enabled(c, w, t, StoreToken)
    ensures TokensSound(c, Apply(c, w, t, StoreToken).store)
  {
    hide Ledger, NextPc;
    var s, s' := w.store, Apply(c, w, t, StoreToken).store;
    assert ThreadSound(c, s, w.pc[t]);
    forall i | 0 <= i < |s.commits| ensures PaidOnce(s', i) { assert PaidOnce(s, i); }
  }

  lemma StepKeepsTokens(c: Config, w: World, t: Tid, a: Action)
    requires c.Valid() && Inv(c, w) && Enabled(c, w, t, a)
    ensures TokensSound(c, Apply(c, w, t, a).store)
  {
    hide Ledger, TokensSound, DrawsSound, NextPc, Lists, Ttl, Punctual, Ids;
    var s := w.store;
    assert ThreadSound(c, s, w.pc[t]);
    match a
    case CommitCharge => ChargeKeepsTokens(c, s, w.pc[t]);
    case StoreToken => StoreKeepsTokens(c, w, t);
    case ReadBucket(job) =>
      OtherKeepsTokens(c, s, NextStore(s, w.pc[t], a));
    case _ => OtherKeepsTokens(c, s, NextStore(s, w.pc[t], a));
  }

  // Whose call a thread is in after a step.
  lemma PendingFrom(c: Config, s: Store, p: Pc, a: Action)
    requires c.Valid()
    ensures var p' := NextPc(c, s, p, a);
      Pending(p') ==> !a.StoreToken? && ((a.ReadBucket? && p'.job == a.job) || (!a.ReadBucket? && Pending(p) && p'.job == p.job))
  {
    hide BucketUtilization, NewTokenCost, AdvanceGcts, GcStamp, GcPermits, TotalCost, Collected, Filtered;
  }

  lemma DrawnFrom(s: Store, p: Pc, a: Action)
    ensures var s' := NextStore(s, p, a);
      && s'.drawn == (if a.ReadBucket? then s.drawn + {a.job.token} else s.drawn)
      && forall id :: id in s'.made ==> id in s.made || (a.StoreToken? && p.Storing? && id == p.job.token)
  {
    hide Punctual, Ids;
  }

  lemma StepKeepsDraws(c: Config, w: World, t: Tid, a: Action)
    requires c.Valid() && Inv(c, w) && Enabled(c, w, t, a)
    ensures DrawsSound(Apply(c, w, t, a))
  {
    PendingFrom(c, w.store, w.pc[t], a);
    DrawnFrom(w.store, w.pc[t], a);
    hide Ledger, TokensSound, ThreadSound, NextPc, NextStore, Lists, Ttl;
    var w' := Apply(c, w, t, a);
    forall u, v | SameDraw(w', u, v)
      ensures u == v
    {
      if !a.ReadBucket? || (u != t && v != t) { assert SameDraw(w, u, v); }
    }
    forall u | u in w'.pc && Pending(w'.pc[u])
      ensures w'.pc[u].job.token in w'.store.drawn && w'.pc[u].job.token !in w'.store.made
    {
      if a.ReadBucket? { FreshDraw(c, w, a.job.token); }
      if a.StoreToken? && u != t { assert !SameDraw(w, u, t); }
    }
  }

  lemma FreshDraw(c: Config, w: World, id: TokenId)
    requires c.Valid() && Inv(c, w) && id !in w.store.drawn
    ensures id !in w.store.made
  {
    hide Ledger, ThreadSound, DrawsSound;
  }

  lemma StepKeepsOwn(c: Config, w: World, t: Tid, a: Action)
    requires c.Valid() && Inv(c, w) && Enabled(c, w, t, a)
    ensures ThreadSound(c, Apply(c, w, t, a).store, Apply(c, w, t, a).pc[t])
  {
    hide Ledger, Leak, AdvanceGcts, GcStamp, GcPermits, TotalCost, DrawsSound, Collected, Filtered, Lists, Ttl, Punctual, Pays;
    assert ThreadSound(c, w.store, w.pc[t]);
    if a.BuildCharge? && w.store.bucket.Some? {
      AdvancePays(c, w.store.bucket.value.gcts, w.pc[t].cost);
    } else if a.PlanGc? {
      PlanKeepsOwn(c, w, t, a);
    }
  }

  lemma PlanKeepsOwn(c: Config, w: World, t: Tid, a: Action)
    requires c.Valid() && Inv(c, w) && Enabled(c, w, t, a) && a.PlanGc?
    ensures ThreadSound(c, w.store, NextPc(c, w.store, w.pc[t], a))
  {
    hide Ledger, AdvanceGcts, GcStamp, GcPermits, DrawsSound, Collected, Filtered, Pays, TotalCost;
    assert ThreadSound(c, w.store, w.pc[t]);
    var job, from := w.pc[t].job, w.pc[t].from;
    var permits := GcPermits(c, from, job.now);
    CollectionSound(w.store, a.listing, job.previous, permits);
    var chosen := Collected(a.listing, job.previous, permits);
    if chosen != [] { StampPays(c, from, |Filtered(a.listing, job.previous)|, chosen, job.now); }
  }

  /** The permits are those of the whole leak intervals that have passed since gcts, none if it is ahead. */
  lemma GcPermitsExact(c: Config, b: Bucket, now: Instant, s: int) returns (n: nat)
    requires c.Valid() && WholeSeconds(b.gcts, now, s)
    ensures GcPermits(c, b, now) == n * c.leakRateScalar
    ensures if s < 0 then n == 0 else n * c.leakRateSeconds <= s < (n + 1) * c.leakRateSeconds
  {
    assert Seconds(b.gcts, now) == s;
    n := if s < 0 then 0 else LeakCount(c, s);
    if s >= 0 { Words.DivMulBounds(s, c.leakRateSeconds); }
  }

  /** advanceGcts takes the fewest whole seconds that leak this many permits, at the scalar a second. */
  lemma AdvanceLeast(c: Config, gcts: Instant, permits: nat) returns (n: nat)
    requires c.Valid()
    ensures AdvanceGcts(c, gcts, permits) == gcts + n * 1_000_000_000
    ensures permits <= n * c.leakRateScalar < permits + c.leakRateScalar
  {
    n := CeilDiv(permits, c.leakRateScalar);
  }

  /** What a collection plans for the timestamp: the present if it clears the partition of all candidates,
      else as little as its cost takes.  Whatever becomes of it, the prepare call goes on. */
  lemma PlanStep(c: Config, w: World, t: Tid, listing: seq<Item>)
    requires c.Valid() && Enabled(c, w, t, PlanGc(listing))
    ensures var p, p' := w.pc[t], Apply(c, w, t, PlanGc(listing)).pc[t];
      var chosen := Collected(listing, p.job.previous, GcPermits(c, p.from, p.job.now));
      if chosen == [] then p' == Costing(p.job, p.from)
      else
        && p'.Collecting? && p' == Collecting(p.job, p.seen, p.from, chosen, p'.gcts)
        && if Ids(chosen) == Candidates(w.store, p.job.previous) then p'.gcts == p.job.now
           else p'.gcts == AdvanceGcts(c, p.from.gcts, TotalCost(chosen))
  {
    var p := w.pc[t];
    CollectionSound(w.store, listing, p.job.previous, GcPermits(c, p.from, p.job.now));
    hide Collected, GcPermits, TotalCost, Filtered, AdvanceGcts, Candidates, Ids, Lists;
  }

  /** A collection that is skipped, refused or done leads on to the cost of the new token. */
  lemma GcGoesOn(c: Config, w: World, t: Tid, a: Action)
    requires c.Valid() && Enabled(c, w, t, a) && (a.SkipGc? || a.CommitGc?)
    ensures Apply(c, w, t, a).pc[t] == Costing(w.pc[t].job, w.pc[t].from)
  {
    hide NextStore;
  }

  lemma AdvancePays(c: Config, gcts: Instant, permits: nat)
    requires c.Valid()
    ensures AdvanceGcts(c, gcts, permits) >= gcts && Pays(c, gcts, AdvanceGcts(c, gcts, permits), permits)
  {
    var n := AdvanceLeast(c, gcts, permits);
    hide AdvanceGcts;
    assert c.leakRateScalar * (n * 1_000_000_000) == (n * c.leakRateScalar) * 1_000_000_000;
  }

  // A collection is worth something, so time has passed since gcts; the stamp moves forward by
  // what is used, and not beyond the present.
  lemma StampPays(c: Config, b: Bucket, candidates: nat, chosen: seq<Token>, now: Instant)
    requires c.Valid() && chosen != [] && chosen[0].cost > 0 && TotalCost(chosen) <= GcPermits(c, b, now)
    ensures var gcts := GcStamp(c, b, candidates, chosen, now);
      b.gcts <= gcts <= now && Pays(c, b.gcts, gcts, TotalCost(chosen))
  {
    var use, k, s := TotalCost(chosen), c.leakRateScalar, Seconds(b.gcts, now);
    assert use >= chosen[0].cost > 0;
    var n := GcPermitsExact(c, b, now, s);
    var m := AdvanceLeast(c, b.gcts, use);
    AdvancePays(c, b.gcts, use);
    hide AdvanceGcts, TotalCost, GcPermits, Pays;
    IntervalsFit(n, m, use, k, c.leakRateSeconds, s);
    PaysNow(c, b.gcts, now, use, n, s);
  }

  lemma IntervalsFit(n: nat, m: nat, use: nat, k: nat, d: nat, s: int)
    requires k > 0 && d > 0 && use <= n * k && m * k < use + k && (s < 0 ==> n == 0) && (s >= 0 ==> n * d <= s) && use > 0
    ensures m <= n <= s
  {
    if n > 0 { Words.MulMonotone(1, d, n); }
    assert (n + 1) * k == n * k + k;
    if m > n { Words.MulMonotone(n + 1, m, k); }
  }

  lemma PaysNow(c: Config, gcts: Instant, now: Instant, use: nat, n: nat, s: int)
    requires use <= n * c.leakRateScalar && n <= s && s * 1_000_000_000 <= now - gcts
    ensures Pays(c, gcts, now, use)
  {
    Words.MulMonotone(n * 1_000_000_000, now - gcts, c.leakRateScalar);
    assert (n * 1_000_000_000) * c.leakRateScalar == (n * c.leakRateScalar) * 1_000_000_000;
  }

  lemma StepKeepsInv(c: Config, w: World, t: Tid, a: Action)
    requires c.Valid() && Inv(c, w) && Enabled(c, w, t, a)
    ensures Inv(c, Apply(c, w, t, a))
  {
    hide Ledger, TokensSound, DrawsSound, ThreadSound, Grows, NextPc, NextStore, Enabled;
    StepGrows(c, w, t, a);
    StepKeepsLedger(c, w, t, a);
    StepKeepsTokens(c, w, t, a);
    StepKeepsDraws(c, w, t, a);
    StepKeepsOwn(c, w, t, a);
    var w' := Apply(c, w, t, a);
    forall u | u in w'.pc
      ensures ThreadSound(c, w'.store, w'.pc[u])
    {
      if u != t { GrowsKeepsThread(c, w.store, w'.store, w.pc[u]); }
    }
  }

  lemma {:induction false} RunKeepsInv(c: Config, tr: seq<World>, evs: seq<Event>, n: nat)
    requires c.Valid() && Run(c, tr, evs) && n < |tr|
    ensures Inv(c, tr[n])
  {
    if n > 0 {
      RunKeepsInv(c, tr, evs, n - 1);
      var e := evs[n - 1];
      assert tr[n] == Apply(c, tr[n - 1], e.t, e.a);
      StepKeepsInv(c, tr[n - 1], e.t, e.a);
    }
  }

  // ----- what holds in every run

  /** In every run the bucket level stays between zero and bucketSize, no stored cost is zero or
      unpayable, and every charge is the cost of a stored token that is gone, a different one each
      time: no token is paid for twice. */
  lemma ChargedOnce(c: Config, tr: seq<World>, evs: seq<Event>, n: nat)
    requires c.Valid() && Run(c, tr, evs) && n < |tr|
    ensures var s := tr[n].store;
      && (s.bucket.Some? ==> 0.0 <= s.bucket.value.amount <= c.bucketSize as real)
      && (forall i :: 0 <= i < |s.commits| ==> PaidOnce(s, i))
      && (forall i, j :: 0 <= i < j < |s.commits| && s.commits[i].paid.Some? ==> s.commits[i].paid != s.commits[j].paid)
      && (forall id :: id in s.made ==> 0 < s.made[id].cost <= c.bucketSize)
  {
    hide Leak, TtlDrains, Follows;
    RunKeepsInv(c, tr, evs, n);
  }

  /** A collection that goes through deletes records worth no more than the permits of the very
      bucket it replaces, at the time its prepare call began; never the predecessor token; and
      leaves level and timestamp of the bucket alone. */
  lemma GcWithinPermits(c: Config, tr: seq<World>, evs: seq<Event>, n: nat, t: Tid)
    requires c.Valid() && Run(c, tr, evs) && n < |tr| && Enabled(c, tr[n], t, CommitGc)
    ensures var s, s', p := tr[n].store, Apply(c, tr[n], t, CommitGc).store, tr[n].pc[t];
      s' != s ==>
        && s.bucket.Some? && s'.bucket.Some?
        && s.tokens.Keys - s'.tokens.Keys == Ids(p.chosen)
        && (forall i :: 0 <= i < |p.chosen| ==> p.chosen[i].id in s.tokens && s.tokens[p.chosen[i].id] == p.chosen[i])
        && TotalCost(p.chosen) <= GcPermits(c, s.bucket.value, p.job.now)
        && (p.job.previous.Some? && p.job.previous.value in s.tokens ==> p.job.previous.value in s'.tokens)
        && s'.bucket.value.amount == s.bucket.value.amount && s'.bucket.value.ts == s.bucket.value.ts
  {
    hide TotalCost, Leak, GcPermits, Ledger, DrawsSound, Pays;
    RunKeepsInv(c, tr, evs, n);
    var s, p := tr[n].store, tr[n].pc[t];
    assert ThreadSound(c, s, p);
    forall i | 0 <= i < |p.chosen| && Ids(p.chosen) <= s.tokens.Keys
      ensures p.chosen[i].id in s.tokens
    {
      assert p.chosen[i].id in Ids(p.chosen);
    }
  }

  /** Spare permits once used up stay used up: no step moves the timestamp of a bucket back. */
  lemma GctsNeverBack(c: Config, tr: seq<World>, evs: seq<Event>, n: nat)
    requires c.Valid() && Run(c, tr, evs) && n + 1 < |tr|
    requires tr[n].store.bucket.Some? && tr[n + 1].store.bucket.Some?
    ensures tr[n].store.bucket.value.gcts <= tr[n + 1].store.bucket.value.gcts
  {
    RunKeepsInv(c, tr, evs, n);
    hide Ledger, TokensSound, DrawsSound, ThreadSound, NextStore, NextPc;
    var w, e := tr[n], evs[n];
    assert tr[n + 1] == Apply(c, w, e.t, e.a);
    StoreGcts(c, w.store, w.pc[e.t], e.a);
  }

  lemma StoreGcts(c: Config, s: Store, p: Pc, a: Action)
    requires c.Valid() && ThreadSound(c, s, p) && s.bucket.Some? && NextStore(s, p, a).bucket.Some?
    ensures s.bucket.value.gcts <= NextStore(s, p, a).bucket.value.gcts
  {
    hide Accepts, TotalCost, GcPermits, Punctual, Ids, Pays;
  }

  // ----- the rate

  function Charged(cs: seq<Commit>): nat {
    if cs == [] then 0 else Charged(cs[..|cs| - 1]) + cs[|cs| - 1].charge
  }

  function Elapsed(x: Commit, y: Commit): real { (y.ts - x.ts) as real / 1000000000.0 }

  lemma SecondsBelow(a: Instant, b: Instant)
    ensures Seconds(a, b) as real <= (b - a) as real / 1000000000.0
  {
    var s := Seconds(a, b);
    assert s * 1_000_000_000 <= b - a;
    assert s as real * 1000000000.0 <= (b - a) as real;
  }

  // Between two commits, both included: what was charged is what leaked plus what is still there.
  lemma {:induction false} ChargedBetween(c: Config, cs: seq<Commit>)
    requires c.Valid() && cs != [] && cs[0].charge as real <= cs[0].amount
    requires forall i :: 0 <= i < |cs| - 1 ==> Follows(c, cs[i], cs[i + 1])
    ensures Charged(cs) as real <= cs[|cs| - 1].amount + Leak(c, Elapsed(cs[0], cs[|cs| - 1]))
  {
    hide Leak;
    var n := |cs| - 1;
    if n == 0 {
      assert Charged(cs[..0]) == 0;
      LeakAdd(c, 0.0, 0.0);
    } else {
      var init := cs[..n];
      ChargedBetween(c, init);
      assert Follows(c, cs[n - 1], cs[n]);
      SecondsBelow(cs[n - 1].ts, cs[n].ts);
      LeakMono(c, Seconds(cs[n - 1].ts, cs[n].ts) as real, Elapsed(cs[n - 1], cs[n]));
      LeakAdd(c, Elapsed(cs[0], cs[n - 1]), Elapsed(cs[n - 1], cs[n]));
      assert Elapsed(cs[0], cs[n - 1]) + Elapsed(cs[n - 1], cs[n]) == Elapsed(cs[0], cs[n]);
    }
  }

  /** The limit itself, also across any number of drops and new buckets: in every run, all that is
      charged from one entry of the ledger to a later one is at most a full bucket plus what leaks
      in the time between their stamps.  If a bucket was dropped this takes a time to live that
      lets a full bucket drain, and no charge to a new bucket that is late. */
  lemma RateHolds(c: Config, tr: seq<World>, evs: seq<Event>, n: nat, i: nat, j: nat)
    requires c.Valid() && Run(c, tr, evs) && n < |tr| && i <= j < |tr[n].store.commits|
    requires Covered(c, tr[n].store)
    ensures var cs := tr[n].store.commits;
      Charged(cs[i..j + 1]) as real <= c.bucketSize as real + Leak(c, Elapsed(cs[i], cs[j]))
  {
    hide Leak, Follows, TtlDrains;
    RunKeepsInv(c, tr, evs, n);
    var cs := tr[n].store.commits;
    var part := cs[i..j + 1];
    forall k | 0 <= k < |part| - 1
      ensures Follows(c, part[k], part[k + 1])
    {
      assert Follows(c, cs[i + k], cs[i + k + 1]);
    }
    ChargedBetween(c, part);
  }
}
