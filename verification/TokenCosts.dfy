/** What a token of the rate limiter costs, in every run: the amount its prepare call asked for, and on top
    of it the cost of the predecessor if that was still unspent when the cost was worked out. */
module TokenCosts {
  import opened Options
  import opened RateLimits
  import opened RateLimiter

  // The cost of a predecessor that is still stored.
  function Unspent(s: Store, previous: Option<TokenId>): nat {
    match previous
    case None => 0
    case Some(id) => if id in s.tokens then s.tokens[id].cost else 0
  }

  // Step m of the run works out the cost of token id for some prepare call.
  ghost predicate Reads(tr: seq<World>, evs: seq<Event>, m: nat, id: TokenId) {
    && m < |evs| < |tr| && evs[m].a == ReadOldCost && evs[m].t in tr[m].pc
    && tr[m].pc[evs[m].t].Costing? && tr[m].pc[evs[m].t].job.token == id
  }

  ghost function JobAt(tr: seq<World>, evs: seq<Event>, m: nat, id: TokenId): Job
    requires Reads(tr, evs, m, id)
  {
    tr[m].pc[evs[m].t].job
  }

  // What it has to come to.
  ghost function Due(tr: seq<World>, evs: seq<Event>, m: nat, id: TokenId): nat
    requires Reads(tr, evs, m, id)
  {
    Unspent(tr[m].store, JobAt(tr, evs, m, id).previous) + JobAt(tr, evs, m, id).delta
  }

  /** One step: the call goes on with what is due, or ends because that is nothing or more than any
      bucket takes.  So a call with an unspent predecessor never ends in a free token. */
  lemma CostStep(c: Config, tr: seq<World>, evs: seq<Event>, m: nat, id: TokenId)
    requires c.Valid() && Run(c, tr, evs) && Reads(tr, evs, m, id)
    ensures var p, total, job := tr[m + 1].pc[evs[m].t], Due(tr, evs, m, id), JobAt(tr, evs, m, id);
      && (p.Idle? <==> total == 0 || total > c.bucketSize)
      && (!p.Idle? ==> p.Checking? && p.job == job && p.total == total)
      && (job.previous.Some? && job.previous.value in tr[m].store.tokens ==> total > 0)
  {
    RunKeepsInv(c, tr, evs, m);
    assert tr[m + 1] == Apply(c, tr[m], evs[m].t, evs[m].a);
    hide Ledger, DrawsSound, ThreadSound, BucketUtilization, AdvanceGcts, Run;
  }

  // ----- every stored cost was due

  ghost predicate WasDue(tr: seq<World>, evs: seq<Event>, n: nat, id: TokenId, total: nat, now: Instant) {
    exists m: nat :: m < n && Reads(tr, evs, m, id) && Due(tr, evs, m, id) == total && JobAt(tr, evs, m, id).now == now
  }

  predicate Priced(p: Pc) { p.Checking? || p.Storing? }

  ghost predicate AllDue(tr: seq<World>, evs: seq<Event>, n: nat)
    requires n < |tr|
  {
    && (forall t :: t in tr[n].pc && Priced(tr[n].pc[t]) ==>
          WasDue(tr, evs, n, tr[n].pc[t].job.token, tr[n].pc[t].total, tr[n].pc[t].job.now))
    && (forall id :: id in tr[n].store.made ==> WasDue(tr, evs, n, id, tr[n].store.made[id].cost, tr[n].store.made[id].ts))
  }

  lemma DueLater(tr: seq<World>, evs: seq<Event>, n: nat, id: TokenId, total: nat, now: Instant)
    requires WasDue(tr, evs, n, id, total, now)
    ensures WasDue(tr, evs, n + 1, id, total, now)
  {
    hide Reads, Due, JobAt;
  }

  // Where a price comes from, in one step.
  lemma PriceFrom(c: Config, s: Store, p: Pc, a: Action)
    requires c.Valid() && Priced(NextPc(c, s, p, a))
    ensures var p' := NextPc(c, s, p, a);
      (a.ReadOldCost? && p.Costing?) || (Priced(p) && p'.job == p.job && p'.total == p.total)
  {
    hide BucketUtilization, NewTokenCost, Collected, GcPermits, GcStamp, Filtered, AdvanceGcts;
  }

  lemma MadeFrom(s: Store, p: Pc, a: Action, id: TokenId)
    requires id in NextStore(s, p, a).made
    ensures (id in s.made && NextStore(s, p, a).made[id] == s.made[id])
      || (p.Storing? && p.job.token == id && NextStore(s, p, a).made[id] == Token(id, p.total, p.job.now))
  {
    hide Punctual, Ids;
  }

  lemma {:induction false} PricesDue(c: Config, tr: seq<World>, evs: seq<Event>, n: nat)
    requires c.Valid() && Run(c, tr, evs) && n < |tr|
    ensures AllDue(tr, evs, n)
  {
    if n > 0 {
      PricesDue(c, tr, evs, n - 1);
      var w, e, w' := tr[n - 1], evs[n - 1], tr[n];
      assert Enabled(c, w, e.t, e.a) && w' == Apply(c, w, e.t, e.a);
      hide Run, NextStore, NextPc, WasDue;
      forall t | t in w'.pc && Priced(w'.pc[t])
        ensures WasDue(tr, evs, n, w'.pc[t].job.token, w'.pc[t].total, w'.pc[t].job.now)
      {
        if t == e.t { PriceFrom(c, w.store, w.pc[t], e.a); }
        if t == e.t && e.a.ReadOldCost? {
          JustRead(c, tr, evs, n - 1);
        } else {
          DueLater(tr, evs, n - 1, w.pc[t].job.token, w.pc[t].total, w.pc[t].job.now);
        }
      }
      forall id | id in w'.store.made
        ensures WasDue(tr, evs, n, id, w'.store.made[id].cost, w'.store.made[id].ts)
      {
        MadeFrom(w.store, w.pc[e.t], e.a, id);
        DueLater(tr, evs, n - 1, id, w'.store.made[id].cost, w'.store.made[id].ts);
      }
    }
  }

  lemma JustRead(c: Config, tr: seq<World>, evs: seq<Event>, m: nat)
    requires c.Valid() && Run(c, tr, evs) && m < |evs| && evs[m].a.ReadOldCost? && Priced(tr[m + 1].pc[evs[m].t])
    ensures var p := tr[m + 1].pc[evs[m].t]; WasDue(tr, evs, m + 1, p.job.token, p.total, p.job.now)
  {
    assert Enabled(c, tr[m], evs[m].t, evs[m].a);
    var id := tr[m].pc[evs[m].t].job.token;
    assert Reads(tr, evs, m, id);
    CostStep(c, tr, evs, m, id);
  }

  // ----- and worked out once

  predicate Unpriced(p: Pc) { p.HasBucket? || p.Collecting? || p.Costing? }

  // Once the cost of a token is worked out, no call is about to do so again.
  ghost predicate Settled(w: World, id: TokenId) {
    id in w.store.drawn && forall t :: t in w.pc && Unpriced(w.pc[t]) ==> w.pc[t].job.token != id
  }

  lemma StepKeepsSettled(c: Config, w: World, t: Tid, a: Action, id: TokenId)
    requires c.Valid() && Enabled(c, w, t, a) && Settled(w, id)
    ensures Settled(Apply(c, w, t, a), id)
  {
    hide BucketUtilization, NewTokenCost, Collected, GcPermits, GcStamp, Filtered, AdvanceGcts, Lists, Ttl, Punctual, Ids;
  }

  lemma ReadSettles(c: Config, w: World, t: Tid)
    requires c.Valid() && Inv(c, w) && Enabled(c, w, t, ReadOldCost)
    ensures Settled(Apply(c, w, t, ReadOldCost), w.pc[t].job.token)
  {
    hide Ledger, TokensSound, ThreadSound, NewTokenCost;
    forall u | u in w.pc && u != t && Unpriced(w.pc[u]) ensures w.pc[u].job.token != w.pc[t].job.token {
      assert !SameDraw(w, t, u);
    }
  }

  lemma ReadsIs(c: Config, tr: seq<World>, evs: seq<Event>, m: nat, id: TokenId)
    requires c.Valid() && Run(c, tr, evs) && Reads(tr, evs, m, id)
    ensures |tr| == |evs| + 1 && m < |evs| && evs[m].a == ReadOldCost
    ensures evs[m].t in tr[m].pc && tr[m].pc[evs[m].t].Costing? && tr[m].pc[evs[m].t].job.token == id
  {
    hide Init, Enabled, Apply;
  }

  lemma {:induction false} StaysSettled(c: Config, tr: seq<World>, evs: seq<Event>, m: nat, n: nat, id: TokenId)
    requires c.Valid() && Run(c, tr, evs) && Reads(tr, evs, m, id) && m < n < |tr|
    ensures Settled(tr[n], id)
  {
    hide *;
    ReadsIs(c, tr, evs, m, id);
    StepOf(c, tr, evs, n - 1);
    if n - 1 == m {
      RunKeepsInv(c, tr, evs, m);
      ReadSettles(c, tr[m], evs[m].t);
    } else {
      StaysSettled(c, tr, evs, m, n - 1, id);
      StepKeepsSettled(c, tr[n - 1], evs[n - 1].t, evs[n - 1].a, id);
    }
  }

  lemma ReadOnce(c: Config, tr: seq<World>, evs: seq<Event>, m: nat, n: nat, id: TokenId)
    requires c.Valid() && Run(c, tr, evs) && Reads(tr, evs, m, id) && Reads(tr, evs, n, id)
    ensures m == n
  {
    if m < n { StaysSettled(c, tr, evs, m, n, id); } else if n < m { StaysSettled(c, tr, evs, n, m, id); }
  }

  /** The cost of every token ever stored is what was due when it was worked out: the amount asked for
      and, on top, the cost of a predecessor stored at that moment.  It is stamped with the time its
      call began. */
  lemma CostIsDue(c: Config, tr: seq<World>, evs: seq<Event>, n: nat, id: TokenId) returns (m: nat)
    requires c.Valid() && Run(c, tr, evs) && n < |tr| && id in tr[n].store.made
    ensures m < n && Reads(tr, evs, m, id) && tr[n].store.made[id] == Token(id, Due(tr, evs, m, id), JobAt(tr, evs, m, id).now)
    ensures forall k: nat :: Reads(tr, evs, k, id) ==> k == m
  {
    PricesDue(c, tr, evs, n);
    RunKeepsInv(c, tr, evs, n);
    var x := tr[n].store.made[id];
    m :| m < n && Reads(tr, evs, m, id) && Due(tr, evs, m, id) == x.cost && JobAt(tr, evs, m, id).now == x.ts;
    hide Run;
    forall k: nat | Reads(tr, evs, k, id) ensures k == m { ReadOnce(c, tr, evs, k, m, id); }
  }

  // ----- chains

  // Tokens in the order they were made, each the predecessor of the next and unspent when its cost
  // was worked out; the first had no such predecessor.
  ghost predicate Chain(tr: seq<World>, evs: seq<Event>, ids: seq<TokenId>, ms: seq<nat>) {
    && |ids| == |ms| > 0
    && (forall i :: 0 <= i < |ids| ==> Reads(tr, evs, ms[i], ids[i]))
    && Unspent(tr[ms[0]].store, JobAt(tr, evs, ms[0], ids[0]).previous) == 0
    && (forall i :: 0 < i < |ids| ==>
          JobAt(tr, evs, ms[i], ids[i]).previous == Some(ids[i - 1]) && ids[i - 1] in tr[ms[i]].store.tokens)
  }

  // All that was asked for along a chain.
  ghost function Asked(tr: seq<World>, evs: seq<Event>, ids: seq<TokenId>, ms: seq<nat>): nat
    requires |ids| == |ms| && forall i :: 0 <= i < |ids| ==> Reads(tr, evs, ms[i], ids[i])
  {
    if ids == [] then 0
    else
      var n := |ids| - 1;
      Asked(tr, evs, ids[..n], ms[..n]) + JobAt(tr, evs, ms[n], ids[n]).delta
  }

  /** Nothing asked for gets lost along a chain of unspent tokens: the last one costs all of it. */
  lemma {:induction false} ChainCost(c: Config, tr: seq<World>, evs: seq<Event>, n: nat, ids: seq<TokenId>, ms: seq<nat>)
    requires c.Valid() && Run(c, tr, evs) && n < |tr| && Chain(tr, evs, ids, ms) && ids[|ids| - 1] in tr[n].store.made
    ensures tr[n].store.made[ids[|ids| - 1]].cost == Asked(tr, evs, ids, ms)
    decreases |ids|
  {
    var k := |ids| - 1;
    var m := CostIsDue(c, tr, evs, n, ids[k]);
    assert ms[k] == m;
    if k == 0 {
      assert ids[..0] == [];
    } else {
      var p := ids[k - 1];
      RunKeepsInv(c, tr, evs, m);
      assert p in tr[m].store.tokens && tr[m].store.tokens[p] == tr[m].store.made[p];
      hide Run, Inv;
      ChainCost(c, tr, evs, m, ids[..k], ms[..k]);
    }
  }
}
