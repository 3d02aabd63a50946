/** What the level of the rate limiter's bucket is, in every run: the largest amount of charges not yet
    leaked, counted from any entry of the ledger on.  So a charge is refused only for the sake of
    charges that were made. */
module BucketLevels {
  import opened Options
  import opened RateLimits
  import opened RateLimiter

  // What leaks before an entry, from the stamp the bucket had.
  function LeakBefore(c: Config, x: Commit): real
    requires c.Valid()
  {
    Leak(c, Seconds(x.since, x.ts) as real)
  }

  // The charges of some entries in a row, less what leaks from the first to the last.
  function Net(c: Config, cs: seq<Commit>): real
    requires c.Valid()
  {
    if cs == [] then 0.0
    else if |cs| == 1 then cs[0].charge as real
    else
      var n := |cs| - 1;
      Net(c, cs[..n]) - LeakBefore(c, cs[n]) + cs[n].charge as real
  }

  // From entry i to entry j.
  function NetFrom(c: Config, cs: seq<Commit>, i: nat, j: nat): real
    requires c.Valid() && i <= j < |cs|
  {
    Net(c, cs[i..j + 1])
  }

  // A charge comes on top of what has not leaked; a drop comes after the time to live.
  ghost predicate Levels(c: Config, x: Commit, y: Commit)
    requires c.Valid()
  {
    if y.paid.Some? then
      && (x.amount >= LeakBefore(c, y) ==> y.amount == x.amount - LeakBefore(c, y) + y.charge as real)
      && (x.amount <= LeakBefore(c, y) ==> y.amount == y.charge as real)
    else y.charge == 0 && y.amount == 0.0 && x.amount <= c.bucketSize as real && Seconds(y.since, y.ts) >= Ttl(c)
  }

  ghost predicate Levelled(c: Config, cs: seq<Commit>)
    requires c.Valid()
  {
    && (cs != [] ==> cs[0].charge == 0 && cs[0].amount == 0.0)
    && forall i :: 0 <= i < |cs| - 1 ==> Levels(c, cs[i], cs[i + 1])
  }

  lemma ChargeLevels(c: Config, x: Commit, from: Bucket, to: Bucket, cost: nat, id: TokenId)
    requires c.Valid() && Accepts(c, from, to, cost) && x.amount == from.amount
    ensures Levels(c, x, Commit(to.ts, cost, to.amount, Some(id), from.ts))
  {
    var s := Seconds(from.ts, to.ts);
    LevelExact(c, from.ts, to.ts, from.amount, cost as real, s);
    LeakTimes(c, s as real);
    var k, d, l := c.leakRateScalar as real, c.leakRateSeconds as real, Leak(c, s as real);
    hide Leak, Accepts;
    ScaleOrder(l, from.amount, d);
    ScaleOrder(from.amount, l, d);
    if from.amount >= l { CancelScale(to.amount - cost as real, from.amount - l, d); }
  }

  lemma CancelScale(x: real, y: real, d: real)
    requires d > 0.0 && x * d == y * d
    ensures x == y
  {
    ScaleOrder(x, y, d);
    ScaleOrder(y, x, d);
  }

  lemma StepKeepsLevels(c: Config, w: World, t: Tid, a: Action)
    requires c.Valid() && Inv(c, w) && Levelled(c, w.store.commits) && Enabled(c, w, t, a)
    ensures Levelled(c, Apply(c, w, t, a).store.commits)
  {
    var s, p := w.store, w.pc[t];
    assert Ledger(c, s) && ThreadSound(c, s, p);
    hide TokensSound, DrawsSound, NextPc, Follows, Punctual, Accepts, TtlDrains, Seconds, Ttl;
    hide TotalCost, GcPermits, Lists, Levels, Covered;
    if a.CommitCharge? && s.version == p.seen && p.id in s.tokens {
      ChargeLevels(c, s.commits[|s.commits| - 1], p.from, p.to, p.cost, p.id);
    } else if a.Drop? && !s.renewed {
      DropLevels(c, s, a.now);
    }
  }

  lemma DropLevels(c: Config, s: Store, now: Instant)
    requires c.Valid() && Ledger(c, s) && s.bucket.Some? && Seconds(s.bucket.value.ts, now) >= Ttl(c)
    ensures s.commits != [] && Levels(c, s.commits[|s.commits| - 1], Commit(now, 0, 0.0, None, s.bucket.value.ts))
  {
    hide Follows, Ttl, Seconds, TtlDrains;
  }

  lemma {:induction false} RunKeepsLevels(c: Config, tr: seq<World>, evs: seq<Event>, n: nat)
    requires c.Valid() && Run(c, tr, evs) && n < |tr|
    ensures Inv(c, tr[n]) && Levelled(c, tr[n].store.commits)
  {
    assert |tr| == |evs| + 1;
    RunKeepsInv(c, tr, evs, n);
    if n > 0 {
      hide *;
      RunKeepsLevels(c, tr, evs, n - 1);
      StepOf(c, tr, evs, n - 1);
      StepKeepsLevels(c, tr[n - 1], evs[n - 1].t, evs[n - 1].a);
    }
  }

  // The level is reached by the charges of some entries in a row.
  lemma {:induction false} SomeReach(c: Config, cs: seq<Commit>) returns (i: nat)
    requires c.Valid() && cs != [] && Levelled(c, cs)
    ensures i < |cs| && cs[|cs| - 1].amount <= Net(c, cs[i..])
  {
    hide LeakBefore;
    var n := |cs| - 1;
    i := n;
    assert cs[n..] == [cs[n]];
    if n > 0 {
      assert Levels(c, cs[n - 1], cs[n]);
      hide Ttl;
      if cs[n].paid.Some? && cs[n - 1].amount > LeakBefore(c, cs[n]) {
        assert Levelled(c, cs[..n]);
        i := SomeReach(c, cs[..n]);
        assert cs[i..][..n - i] == cs[..n][i..] && cs[i..][n - i] == cs[n];
      }
    }
  }

  // And exceeded by none, when what is dropped had drained.
  lemma {:induction false} NoneExceed(c: Config, cs: seq<Commit>, i: nat)
    requires c.Valid() && i < |cs| && Levelled(c, cs) && (TtlDrains(c) || forall j :: 0 < j < |cs| ==> cs[j].paid.Some?)
    ensures Net(c, cs[i..]) <= cs[|cs| - 1].amount
  {
    hide LeakBefore, TtlDrains;
    var n := |cs| - 1;
    if i == n {
      assert cs[n..] == [cs[n]];
      OwnCharge(c, cs);
    } else {
      assert Levelled(c, cs[..n]);
      NoneExceed(c, cs[..n], i);
      assert cs[i..][..n - i] == cs[..n][i..] && cs[i..][n - i] == cs[n];
      assert Levels(c, cs[n - 1], cs[n]);
      if cs[n].paid.None? { DroppedDrained(c, cs[n - 1], cs[n]); }
    }
  }

  lemma OwnCharge(c: Config, cs: seq<Commit>)
    requires c.Valid() && cs != [] && Levelled(c, cs)
    ensures cs[|cs| - 1].charge as real <= cs[|cs| - 1].amount
  {
    hide LeakBefore;
    var n := |cs| - 1;
    if n > 0 { assert Levels(c, cs[n - 1], cs[n]); }
  }

  lemma DroppedDrained(c: Config, x: Commit, y: Commit)
    requires c.Valid() && TtlDrains(c) && y.paid.None? && Levels(c, x, y)
    ensures x.amount <= LeakBefore(c, y)
  {
    LeakReaches(c, Ttl(c));
    LeakMono(c, Ttl(c) as real, Seconds(y.since, y.ts) as real);
    hide Leak, Ttl, Seconds;
  }

  // What was dropped, if anything, had drained.
  predicate Drains(c: Config, s: Store)
    requires c.Valid()
  {
    s.dropped ==> TtlDrains(c)
  }

  /** In every run: the level after an entry is the largest of what is charged from some entry on, less
      what leaks from there; at most that, whatever is dropped, and exactly that if buckets are
      dropped only after they have drained. */
  lemma LevelIsPeak(c: Config, tr: seq<World>, evs: seq<Event>, n: nat, j: nat) returns (i: nat)
    requires c.Valid() && Run(c, tr, evs) && n < |tr| && j < |tr[n].store.commits|
    ensures var cs := tr[n].store.commits;
      && i <= j && cs[j].amount <= NetFrom(c, cs, i, j)
      && (Drains(c, tr[n].store) ==> forall k :: 0 <= k <= j ==> NetFrom(c, cs, k, j) <= cs[j].amount)
  {
    RunKeepsLevels(c, tr, evs, n);
    PaidUnlessDropped(c, tr, evs, n);
    hide Inv, Levels, TtlDrains, Net;
    var cs := tr[n].store.commits[..j + 1];
    i := SomeReach(c, cs);
    assert cs[i..] == tr[n].store.commits[i..j + 1];
    if Drains(c, tr[n].store) {
      forall k | 0 <= k <= j
        ensures NetFrom(c, tr[n].store.commits, k, j) <= cs[j].amount
      {
        assert cs[k..] == tr[n].store.commits[k..j + 1];
        NoneExceed(c, cs, k);
      }
    }
  }

  // Without a drop every entry but the first is a charge.
  ghost predicate OnlyCharges(s: Store) {
    s.dropped || ((s.bucket.None? ==> s.commits == []) && forall j :: 0 < j < |s.commits| ==> s.commits[j].paid.Some?)
  }

  lemma StepOnlyCharges(c: Config, w: World, t: Tid, a: Action)
    requires c.Valid() && Enabled(c, w, t, a) && OnlyCharges(w.store)
    ensures OnlyCharges(Apply(c, w, t, a).store)
  {
    hide NextPc, Punctual, Ids, Ttl, Lists;
  }

  lemma {:induction false} PaidUnlessDropped(c: Config, tr: seq<World>, evs: seq<Event>, n: nat)
    requires c.Valid() && Run(c, tr, evs) && n < |tr|
    ensures OnlyCharges(tr[n].store)
  {
    assert |tr| == |evs| + 1;
    if n > 0 {
      hide *;
      PaidUnlessDropped(c, tr, evs, n - 1);
      StepOf(c, tr, evs, n - 1);
      StepOnlyCharges(c, tr[n - 1], evs[n - 1].t, evs[n - 1].a);
    }
  }

  /** A charge that is built is refused exactly if, from some entry of the ledger on, the charges less
      the leak up to now leave no room for it; "only if" holds whatever is dropped. */
  lemma RefusedIff(c: Config, tr: seq<World>, evs: seq<Event>, n: nat, t: Tid, now: Instant)
    requires c.Valid() && Run(c, tr, evs) && n < |tr| && Enabled(c, tr[n], t, BuildCharge(now)) && tr[n].store.bucket.Some?
    ensures var s, cost := tr[n].store, tr[n].pc[t].cost as real;
      var leaked := Leak(c, Seconds(s.bucket.value.ts, now) as real);
      var refused, last := Apply(c, tr[n], t, BuildCharge(now)).pc[t].Idle?, |s.commits| - 1;
      && s.commits != []
      && (refused ==> exists i :: 0 <= i <= last && NetFrom(c, s.commits, i, last) - leaked + cost > c.bucketSize as real)
      && (Drains(c, s) ==> forall i ::
            0 <= i <= last && NetFrom(c, s.commits, i, last) - leaked + cost > c.bucketSize as real ==> refused)
  {
    var s, b := tr[n].store, tr[n].store.bucket.value;
    var cost, secs := tr[n].pc[t].cost, Seconds(b.ts, now);
    CostPayable(c, tr, evs, n, t);
    var i := LevelIsPeak(c, tr, evs, n, |s.commits| - 1);
    LevelDecides(c, b, now, cost);
    hide NetFrom, Leak, Seconds, BucketUtilization, AdvanceGcts, Run;
  }

  /** A prepare call goes on to store its token exactly if the bucket it read would take the cost at that moment. */
  lemma PrepareIff(c: Config, tr: seq<World>, evs: seq<Event>, n: nat, t: Tid, now: Instant)
    requires c.Valid() && Run(c, tr, evs) && n < |tr| && Enabled(c, tr[n], t, CheckLimit(now))
    ensures var p, p' := tr[n].pc[t], Apply(c, tr[n], t, CheckLimit(now)).pc[t];
      var fits := p.from.amount - Leak(c, Seconds(p.from.ts, now) as real) + p.total as real <= c.bucketSize as real;
      p' == if fits then Storing(p.job, p.total) else Idle
  {
    RunKeepsInv(c, tr, evs, n);
    assert ThreadSound(c, tr[n].store, tr[n].pc[t]);
    hide Run, Inv, Leak, Seconds, BucketUtilization;
    LevelDecides(c, tr[n].pc[t].from, now, tr[n].pc[t].total);
  }

  lemma CostPayable(c: Config, tr: seq<World>, evs: seq<Event>, n: nat, t: Tid)
    requires c.Valid() && Run(c, tr, evs) && n < |tr| && t in tr[n].pc && tr[n].pc[t].HasCost?
    ensures tr[n].pc[t].cost <= c.bucketSize
    ensures var s := tr[n].store;
      s.bucket.Some? ==> s.commits != [] && s.commits[|s.commits| - 1].amount == s.bucket.value.amount
  {
    RunKeepsInv(c, tr, evs, n);
    assert ThreadSound(c, tr[n].store, tr[n].pc[t]);
    hide Follows, TtlDrains, DrawsSound, Run;
  }

  lemma LevelDecides(c: Config, b: Bucket, now: Instant, cost: nat)
    requires c.Valid() && cost <= c.bucketSize
    ensures BucketUtilization(c, b.ts, now, b.amount, cost as real).Exceeded? <==>
      b.amount - Leak(c, Seconds(b.ts, now) as real) + cost as real > c.bucketSize as real
  {
    var s := Seconds(b.ts, now);
    LevelExact(c, b.ts, now, b.amount, cost as real, s);
    LeakTimes(c, s as real);
    var d, l, size := c.leakRateSeconds as real, Leak(c, s as real), c.bucketSize as real;
    hide Leak, BucketUtilization;
    ScaleOrder(l, b.amount, d);
    ScaleOrder(b.amount, l, d);
    ScaleOrder(b.amount - l, size - cost as real, d);
  }
}
