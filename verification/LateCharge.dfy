/** A run of the rate limiter in which a charge is late: a full bucket is charged at 0 s and dropped at
    10 s, a prepare call that had read its clock at 1 s creates a new one, and a second full charge
    is stamped 1 s as well. */
module LateCharge {
  import opened Options
  import opened RateLimits
  import opened RateLimiter

  const LIMITS := Config(10, 1, 1)
  const SECOND := 1_000_000_000

  ghost predicate Ends(tr: seq<World>, evs: seq<Event>, s: Store, p: Pc) {
    Run(LIMITS, tr, evs) && tr[|evs|] == World(s, map[0 := p])
  }

  lemma Then(tr: seq<World>, evs: seq<Event>, s: Store, p: Pc, a: Action, s': Store, p': Pc)
    returns (tr': seq<World>, evs': seq<Event>)
    requires Ends(tr, evs, s, p) && Enabled(LIMITS, World(s, map[0 := p]), 0, a)
    requires s' == NextStore(s, p, a) && p' == NextPc(LIMITS, s, p, a)
    ensures Ends(tr', evs', s', p')
  {
    hide NextStore, NextPc, Enabled;
    var w := World(s', map[0 := p']);
    assert Apply(LIMITS, tr[|evs|], 0, a) == w;
    tr', evs' := tr + [w], evs + [Event(0, a)];
  }

  // An empty bucket takes a full charge at the time of its stamp.
  lemma FullCharge(ts: Instant)
    ensures BucketUtilization(LIMITS, ts, ts, 0.0, 10.0) == Accepted(10.0)
  {
    assert Seconds(ts, ts) == 0;
  }

  lemma AdvanceTen(gcts: Instant)
    ensures AdvanceGcts(LIMITS, gcts, 10) == gcts + 10 * SECOND
  {
    assert CeilDiv(10, 1) == 10;
  }

  // A prepare call for ten, at 0 s, on a bucket that is empty.
  lemma Prepare(tr0: seq<World>, evs0: seq<Event>, s: Store, id: TokenId) returns (tr: seq<World>, evs: seq<Event>)
    requires Ends(tr0, evs0, s, Idle) && s.bucket == Some(Bucket(0.0, 0, 0)) && id !in s.drawn && id !in s.tokens
    ensures var x := Token(id, 10, 0);
      Ends(tr, evs, s.(drawn := s.drawn + {id}, tokens := s.tokens[id := x], made := s.made[id := x]), Idle)
  {
    tr, evs := Ask(tr0, evs0, s, id);
    hide Ends, BucketUtilization, GcPermits, Collected, AdvanceGcts, ChargeBatch, GcBatch, Ttl, DropBucket, OpenBucket, NewTokenCost;
    FullCharge(0);
    var job, b := Job(None, id, 10, 0), Bucket(0.0, 0, 0);
    var s1, x := s.(drawn := s.drawn + {id}), Token(id, 10, 0);
    tr, evs := Then(tr, evs, s1, Checking(job, 10, b), CheckLimit(0), s1, Storing(job, 10));
    tr, evs := Then(tr, evs, s1, Storing(job, 10), StoreToken,
                    s1.(tokens := s1.tokens[id := x], made := s1.made[id := x]), Idle);
  }

  // Up to the check of the limit.
  lemma Ask(tr0: seq<World>, evs0: seq<Event>, s: Store, id: TokenId) returns (tr: seq<World>, evs: seq<Event>)
    requires Ends(tr0, evs0, s, Idle) && s.bucket == Some(Bucket(0.0, 0, 0)) && id !in s.drawn
    ensures Ends(tr, evs, s.(drawn := s.drawn + {id}), Checking(Job(None, id, 10, 0), 10, Bucket(0.0, 0, 0)))
  {
    hide Ends, BucketUtilization, GcPermits, Collected, AdvanceGcts, ChargeBatch, GcBatch, Ttl, DropBucket;
    var job, b := Job(None, id, 10, 0), Bucket(0.0, 0, 0);
    var s1 := s.(drawn := s.drawn + {id});
    tr, evs := Then(tr0, evs0, s, Idle, ReadBucket(job), s1, HasBucket(job, s.version, b));
    tr, evs := Then(tr, evs, s1, HasBucket(job, s.version, b), SkipGc, s1, Costing(job, b));
    tr, evs := Then(tr, evs, s1, Costing(job, b), ReadOldCost, s1, Checking(job, 10, b));
  }

  // A validate call whose clock says what the stamp of the empty bucket says.
  lemma Charge(tr0: seq<World>, evs0: seq<Event>, s: Store, b: Bucket, id: TokenId) returns (tr: seq<World>, evs: seq<Event>)
    requires Ends(tr0, evs0, s, Idle) && s.bucket == Some(b) && b.amount == 0.0 && id in s.tokens && s.tokens[id].cost == 10
    ensures var to := Bucket(10.0, b.ts, b.gcts + 10 * SECOND);
      Ends(tr, evs, ChargeBatch(s, Charging(id, 10, s.version, b, to)), Idle)
  {
    hide Ends, BucketUtilization, AdvanceGcts, ChargeBatch;
    FullCharge(b.ts);
    AdvanceTen(b.gcts);
    var to := Bucket(10.0, b.ts, b.gcts + 10 * SECOND);
    var p := Charging(id, 10, s.version, b, to);
    tr, evs := Then(tr0, evs0, s, Idle, ReadCost(id), s, HasCost(id, 10));
    tr, evs := Then(tr, evs, s, HasCost(id, 10), BuildCharge(b.ts), s, p);
    tr, evs := Then(tr, evs, s, p, CommitCharge, ChargeBatch(s, p), Idle);
  }

  // Whoever reads the bucket first creates it; the call then asks for nothing.
  lemma Create(tr0: seq<World>, evs0: seq<Event>, s: Store, id: TokenId, now: Instant) returns (tr: seq<World>, evs: seq<Event>)
    requires Ends(tr0, evs0, s, Idle) && s.bucket == None && id !in s.drawn
    ensures Ends(tr, evs, OpenBucket(s, now).(drawn := s.drawn + {id}), Idle)
  {
    hide Ends;
    var job, b := Job(None, id, 0, now), Bucket(0.0, now, now);
    var s1 := OpenBucket(s, now).(drawn := s.drawn + {id});
    tr, evs := Then(tr0, evs0, s, Idle, ReadBucket(job), s1, HasBucket(job, s1.version, b));
    tr, evs := Then(tr, evs, s1, HasBucket(job, s1.version, b), SkipGc, s1, Costing(job, b));
    tr, evs := Then(tr, evs, s1, Costing(job, b), ReadOldCost, s1, Idle);
  }

  lemma Nothing() returns (tr: seq<World>, evs: seq<Event>)
    ensures Ends(tr, evs, Store(None, 0, map[], {}, map[], [], false, false, false), Idle)
  {
    tr, evs := [World(Store(None, 0, map[], {}, map[], [], false, false, false), map[0 := Idle])], [];
  }

  const CREATED := Commit(0, 0, 0.0, None, 0)
  const PAID := Commit(0, 10, 10.0, Some(1), 0)
  const DROPPED := Commit(10 * SECOND, 0, 0.0, None, 0)
  const LATE := Commit(SECOND, 10, 10.0, Some(2), SECOND)

  // Two tokens are prepared, one is paid for, and the bucket is dropped.
  lemma UntilDrop() returns (tr: seq<World>, evs: seq<Event>, s: Store)
    ensures Ends(tr, evs, s, Idle) && s.bucket == None && s.commits == [CREATED, PAID, DROPPED] && s.dropped && !s.renewed
    ensures 4 !in s.drawn && 2 in s.tokens && s.tokens[2].cost == 10 && s.version == 3
  {
    hide Ends;
    tr, evs := Nothing();
    var none := Store(None, 0, map[], {}, map[], [], false, false, false);
    tr, evs := Create(tr, evs, none, 3, 0);
    var s1 := OpenBucket(none, 0).(drawn := {3});
    assert none.drawn + {3} == {3};
    tr, evs := Prepare(tr, evs, s1, 1);
    var x, y := Token(1, 10, 0), Token(2, 10, 0);
    var s2 := s1.(drawn := s1.drawn + {1}, tokens := s1.tokens[1 := x], made := s1.made[1 := x]);
    tr, evs := Prepare(tr, evs, s2, 2);
    var s3 := s2.(drawn := s2.drawn + {2}, tokens := s2.tokens[2 := y], made := s2.made[2 := y]);
    tr, evs := Charge(tr, evs, s3, Bucket(0.0, 0, 0), 1);
    var s4 := ChargeBatch(s3, Charging(1, 10, s3.version, Bucket(0.0, 0, 0), Bucket(10.0, 0, 10 * SECOND)));
    TenSeconds();
    s := DropBucket(s4, 10 * SECOND);
    tr, evs := Then(tr, evs, s4, Idle, Drop(10 * SECOND), s, Idle);
  }

  lemma TenSeconds()
    ensures Ttl(LIMITS) == 10 && Seconds(0, 10 * SECOND) == 10 && TtlDrains(LIMITS)
  {
    assert CeilDiv(10, 1) == 10;
  }

  /** A late charge does exceed the limit: there is a run whose ledger is a creation, a full charge at
      0 s, the drop at 10 s after a time to live that drains a full bucket, and a second full charge
      at 1 s; the two charges together are more than a bucket and what leaks between their stamps. */
  lemma LateExceeds() returns (tr: seq<World>, evs: seq<Event>)
    ensures Run(LIMITS, tr, evs) && TtlDrains(LIMITS) && tr[|evs|].store.late
    ensures tr[|evs|].store.commits == [CREATED, PAID, DROPPED, LATE]
    ensures var cs := tr[|evs|].store.commits;
      Charged(cs[1..4]) as real > LIMITS.bucketSize as real + Leak(LIMITS, Elapsed(cs[1], cs[3]))
  {
    var s;
    tr, evs, s := UntilDrop();
    TenSeconds();
    hide Run, TtlDrains, Charged, Leak, Elapsed;
    tr, evs := Create(tr, evs, s, 4, SECOND);
    var s1 := OpenBucket(s, SECOND).(drawn := s.drawn + {4});
    tr, evs := Charge(tr, evs, s1, Bucket(0.0, SECOND, SECOND), 2);
    LateLedger(s);
    var cs := [CREATED, PAID, DROPPED, LATE];
    TwoCharges(cs);
  }

  // The second charge, on the bucket that took the place of the dropped one.
  lemma LateLedger(s: Store)
    requires s.bucket == None && s.commits == [CREATED, PAID, DROPPED] && s.dropped && 2 in s.tokens
    ensures var s1 := OpenBucket(s, SECOND).(drawn := s.drawn + {4});
      var s2 := ChargeBatch(s1, Charging(2, 10, s1.version, Bucket(0.0, SECOND, SECOND), Bucket(10.0, SECOND, SECOND + 10 * SECOND)));
      s2.late && s2.commits == [CREATED, PAID, DROPPED, LATE]
  {
    assert Seconds(10 * SECOND, SECOND) == -9;
  }

  lemma TwoCharges(cs: seq<Commit>)
    requires cs == [CREATED, PAID, DROPPED, LATE]
    ensures Charged(cs[1..4]) == 20 && Leak(LIMITS, Elapsed(cs[1], cs[3])) == 1.0
  {
    OneSecond();
    ThreeCharges(PAID, DROPPED, LATE);
    hide Charged, Leak, Elapsed;
    assert cs[1..4] == [PAID, DROPPED, LATE];
  }

  lemma OneSecond()
    ensures Leak(LIMITS, Elapsed(PAID, LATE)) == 1.0
  {
    hide Leak, Elapsed;
    LeaksOne(LIMITS, PAID, LATE);
  }

  lemma LeaksOne(c: Config, x: Commit, y: Commit)
    requires c.leakRateScalar == 1 && c.leakRateSeconds == 1 && y.ts - x.ts == 1_000_000_000
    ensures Leak(c, Elapsed(x, y)) == 1.0
  {
    assert Elapsed(x, y) == 1.0;
  }

  lemma ThreeCharges(x: Commit, y: Commit, z: Commit)
    ensures Charged([x, y, z]) == x.charge + y.charge + z.charge
  {
    ChargedStep([], x);
    ChargedStep([x], y);
    ChargedStep([x, y], z);
    assert [] + [x] == [x] && [x] + [y] == [x, y] && [x, y] + [z] == [x, y, z];
  }

  lemma ChargedStep(cs: seq<Commit>, x: Commit)
    ensures Charged(cs + [x]) == Charged(cs) + x.charge && Charged([]) == 0
  {
    assert (cs + [x])[..|cs|] == cs;
  }
}
