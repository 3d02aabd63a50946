/** The permits that garbage collection uses up: over the life of a bucket, charges and collections
    together are worth no more than the scalar for every second that passes. */
module SparePermits {
  import opened RateLimits
  import opened RateLimiter
  import Words

  // What a step charges or collects; a batch that goes through changes the etag.
  function SpentBy(s: Store, p: Pc, a: Action): nat {
    if NextStore(s, p, a).version == s.version then 0
    else
      match (a, p)
      case (CommitCharge, Charging(_, cost, _, _, _)) => cost
      case (CommitGc, Collecting(_, _, _, chosen, _)) => TotalCost(chosen)
      case _ => 0
  }

  ghost function Spent(tr: seq<World>, evs: seq<Event>, i: nat): nat
    requires i < |evs| < |tr|
  {
    if evs[i].t in tr[i].pc then SpentBy(tr[i].store, tr[i].pc[evs[i].t], evs[i].a) else 0
  }

  ghost function SpentBetween(tr: seq<World>, evs: seq<Event>, m: nat, n: nat): nat
    requires m <= n <= |evs| < |tr|
  {
    if m == n then 0 else SpentBetween(tr, evs, m, n - 1) + Spent(tr, evs, n - 1)
  }

  // The collection timestamp, while there is a bucket.
  function Gcts(w: World): Instant { if w.store.bucket.Some? then w.store.bucket.value.gcts else 0 }

  // The same bucket all along.
  ghost predicate Lives(tr: seq<World>, m: nat, n: nat) {
    m <= n < |tr| && forall i :: m <= i <= n ==> tr[i].store.bucket.Some?
  }

  lemma StillLives(tr: seq<World>, m: nat, n: nat)
    requires Lives(tr, m, n)
    ensures m <= n < |tr| && (m < n ==> Lives(tr, m, n - 1) && Lives(tr, n - 1, n))
  {
  }

  lemma StorePays(c: Config, s: Store, p: Pc, a: Action)
    requires c.Valid() && ThreadSound(c, s, p) && s.bucket.Some? && NextStore(s, p, a).bucket.Some?
    ensures Pays(c, s.bucket.value.gcts, NextStore(s, p, a).bucket.value.gcts, SpentBy(s, p, a))
  {
    PaysNothing(c, s.bucket.value.gcts);
    hide Accepts, TotalCost, GcPermits, Punctual, Ids, Pays;
  }

  lemma PaysNothing(c: Config, at: Instant)
    ensures Pays(c, at, at, 0)
  {
  }

  lemma StepPays(c: Config, tr: seq<World>, evs: seq<Event>, i: nat)
    requires c.Valid() && Run(c, tr, evs) && i < |evs| && Lives(tr, i, i + 1)
    ensures Pays(c, Gcts(tr[i]), Gcts(tr[i + 1]), Spent(tr, evs, i))
  {
    RunKeepsInv(c, tr, evs, i);
    StepOf(c, tr, evs, i);
    var w, e := tr[i], evs[i];
    assert ThreadSound(c, w.store, w.pc[e.t]);
    hide Run, Inv, ThreadSound, NextStore, NextPc, Enabled, SpentBy, Pays;
    StorePays(c, w.store, w.pc[e.t], e.a);
  }

  lemma PaysJoin(c: Config, x: Instant, y: Instant, z: Instant, m: nat, n: nat)
    requires Pays(c, x, y, m) && Pays(c, y, z, n)
    ensures Pays(c, x, z, m + n)
  {
    assert c.leakRateScalar * (z - x) == c.leakRateScalar * (y - x) + c.leakRateScalar * (z - y);
  }

  lemma PaysLater(c: Config, x: Instant, y: Instant, z: Instant, m: nat)
    requires Pays(c, x, y, m) && y <= z
    ensures Pays(c, x, z, m)
  {
    Words.MulMonotone(y - x, z - x, c.leakRateScalar);
  }

  /** What is charged and collected moves the collection timestamp of its bucket by at least the time
      that it takes, at the scalar a second. */
  lemma {:induction false} TimestampPays(c: Config, tr: seq<World>, evs: seq<Event>, m: nat, n: nat)
    requires c.Valid() && Run(c, tr, evs) && |tr| == |evs| + 1 && Lives(tr, m, n)
    ensures Pays(c, Gcts(tr[m]), Gcts(tr[n]), SpentBetween(tr, evs, m, n))
  {
    hide *;
    StillLives(tr, m, n);
    SpentStep(tr, evs, m, n);
    if m == n {
      PaysNothing(c, Gcts(tr[m]));
    } else {
      TimestampPays(c, tr, evs, m, n - 1);
      StepPays(c, tr, evs, n - 1);
      PaysJoin(c, Gcts(tr[m]), Gcts(tr[n - 1]), Gcts(tr[n]), SpentBetween(tr, evs, m, n - 1), Spent(tr, evs, n - 1));
    }
  }

  lemma SpentStep(tr: seq<World>, evs: seq<Event>, m: nat, n: nat)
    requires m <= n <= |evs| < |tr|
    ensures SpentBetween(tr, evs, m, n) == if m == n then 0 else SpentBetween(tr, evs, m, n - 1) + Spent(tr, evs, n - 1)
  {
    hide Spent;
  }

  /** So a collection never uses permits twice, nor permits that charges have used: all that was
      charged and collected since any earlier moment, this collection included, is worth no more
      than the scalar a second, from the collection timestamp then to the time its call began. */
  lemma CollectedWithinTime(c: Config, tr: seq<World>, evs: seq<Event>, m: nat, n: nat)
    requires c.Valid() && Run(c, tr, evs) && |tr| == |evs| + 1 && Lives(tr, m, n + 1) && n < |evs| && evs[n].a == CommitGc
    requires tr[n + 1].store.version != tr[n].store.version
    ensures evs[n].t in tr[n].pc && tr[n].pc[evs[n].t].Collecting?
    ensures Pays(c, Gcts(tr[m]), tr[n].pc[evs[n].t].job.now, SpentBetween(tr, evs, m, n + 1))
  {
    TimestampPays(c, tr, evs, m, n + 1);
    NotBeyondNow(c, tr, evs, n);
    hide Run, SpentBetween, Pays;
    PaysLater(c, Gcts(tr[m]), Gcts(tr[n + 1]), tr[n].pc[evs[n].t].job.now,
              SpentBetween(tr, evs, m, n + 1));
  }

  lemma NotBeyondNow(c: Config, tr: seq<World>, evs: seq<Event>, n: nat)
    requires c.Valid() && Run(c, tr, evs) && n < |evs| && evs[n].a == CommitGc
    requires tr[n + 1].store.version != tr[n].store.version
    ensures evs[n].t in tr[n].pc && tr[n].pc[evs[n].t].Collecting? && tr[n + 1].store.bucket.Some?
    ensures Gcts(tr[n + 1]) <= tr[n].pc[evs[n].t].job.now
  {
    RunKeepsInv(c, tr, evs, n);
    StepOf(c, tr, evs, n);
    assert ThreadSound(c, tr[n].store, tr[n].pc[evs[n].t]);
    hide Run, Ledger, TokensSound, DrawsSound, NextPc, TotalCost, GcPermits, Ids, Pays;
  }

  /** A bucket whose permits have all been used has none left at that moment if and only if less than a
      leak interval is left over: advancing the timestamp ignores the leak duration, so with
      intervals over a second it can have some. */
  lemma UsedUpIff(c: Config, b: Bucket, now: Instant, s: int) returns (n: nat)
    requires c.Valid() && WholeSeconds(b.gcts, now, s) && s >= 0
    ensures n * c.leakRateSeconds <= s < (n + 1) * c.leakRateSeconds
    ensures var later := b.(gcts := AdvanceGcts(c, b.gcts, GcPermits(c, b, now)));
      GcPermits(c, later, now) == 0 <==> s - n < c.leakRateSeconds
  {
    var k, d := c.leakRateScalar, c.leakRateSeconds;
    n := GcPermitsExact(c, b, now, s);
    var permits := GcPermits(c, b, now);
    var m := AdvanceLeast(c, b.gcts, permits);
    var later := b.(gcts := AdvanceGcts(c, b.gcts, permits));
    hide GcPermits, AdvanceGcts;
    assert m == n by { SameMultiple(m, n, k); }
    assert n <= s by { Words.MulMonotone(1, d, n); }
    var q := GcPermitsExact(c, later, now, s - n);
    if q > 0 { Words.MulMonotone(1, q, d); Words.MulMonotone(1, q, k); }
  }

  lemma SameMultiple(m: nat, n: nat, k: nat)
    requires k > 0 && n * k <= m * k < n * k + k
    ensures m == n
  {
    assert (n + 1) * k == n * k + k && (m + 1) * k == m * k + k;
    if m > n { Words.MulMonotone(n + 1, m, k); }
    if m < n { Words.MulMonotone(m + 1, n, k); }
  }
}
