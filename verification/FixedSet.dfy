/** c/fixedset/fixedset.c: the growing Robin Hood hash set, proved to be a set. */
module FixedSet {
  import opened Words
  import opened RobinHood

  // Positions are sums of a hash and a distance in 64-bit words, and stored distances are 32-bit
  // words.  There is room when no such sum reaches 2^64 for a table of up to `limit` slots.
  ghost predicate Roomy<K(!new)>(hash: K -> nat, limit: nat) {
    limit < 0x1_0000_0000 && forall k :: hash(k) + limit < 0x1_0000_0000_0000_0000
  }

  /** What the room is for: adding one to a position goes to the next slot if and only if the sum does
      not wrap, or the number of slots divides 2^64. */
  lemma NextSlotIff(x: U64, cap: nat)
    requires cap > 0
    ensures Slot(Add(x, 1), cap) == Next(Slot(x, cap), cap) <==>
      x + 1 < 0x1_0000_0000_0000_0000 || Slot(0x1_0000_0000_0000_0000, cap) == 0
  {
    SlotNext(x, cap);
    assert Slot(0, cap) == 0;
    hide Slot, Next;
  }

  function Low32(x: nat): U32 { x % 0x1_0000_0000 }

  /** `hash` stands for the keyed half-SipHash; entries live at `base + slot * entrySize`; `limit` is
      the largest number of slots calloc can provide. */
  class FixedSet<K(!new, ==, 0)> {
    const hash: K -> nat
    const base: nat
    const entrySize: nat
    const limit: nat
    var block: array<Entry<K>>
    var size: nat
    var maxjump: nat

    ghost predicate Shape()
      reads this, block
    {
      && base > 0
      && 32 <= block.Length <= limit && maxjump <= block.Length && Roomy(hash, limit)
      && Table(block[..], hash)
      && size == |KeysOf(block[..])|
      && Bounded(block[..], maxjump)
    }

    // The entries at the last insertion passed the load test, so a slot is always free.
    ghost predicate Valid()
      reads this, block
    {
      Shape() && (size == 0 || CapTest(size - 1) <= block.Length)
    }

    ghost function Keys(): set<K>
      reads this, block
    {
      KeysOf(block[..])
    }

    static function CapTest(size: nat): nat { size + size / 8 }

    function Address(slot: nat): (a: nat)
      requires base > 0
      ensures a > 0
    {
      base + slot * entrySize
    }

    /** fixedset_new */
    constructor (hash: K -> nat, base: nat, entrySize: nat, limit: nat)
      requires base > 0 && limit >= 32 && Roomy(hash, limit)
      ensures Valid() && fresh(block) && Keys() == {}
      ensures this.hash == hash && this.limit == limit && block.Length == 32
    {
      this.hash, this.base, this.entrySize, this.limit := hash, base, entrySize, limit;
      var empty: K := *;
      block := new Entry<K>[32](i => Entry(0, empty));
      size, maxjump := 0, 0;
      new;
      EmptyTable(block[..], hash);
    }

    /** fixedset_find: scans every distance up to maxjump and accumulates position and
        address by exclusive or; what comes out is the one slot that matched, or zeros. */
    method Find(k: K) returns (found: bool, idx: nat, outp: nat)
      requires Shape()
      ensures base > 0 && block.Length > 0
      ensures found <==> k in Keys()
      ensures found ==>
        var s := Slot(idx, block.Length);
        outp == Address(s) && block[s].jump > 0 && block[s].key == k && idx == hash(k) + block[s].jump
      ensures !found ==> idx == 0 && outp == 0
    {
      hide Slot, Table, Bounded, KeysOf, Address, Xor, Add;
      var h := hash(k);
      idx, outp := 0, 0;
      var jump := 1;
      ghost var hit := 0;
      ProbeIffMember(block[..], hash, k, maxjump);
      while jump <= maxjump
        invariant 1 <= jump && 0 <= hit < jump && jump <= maxjump + 1
        invariant hit == 0 ==> idx == 0 && outp == 0 && forall j :: 1 <= j < jump ==> !Probe(block[..], h, k, j)
        invariant hit > 0 ==> Probe(block[..], h, k, hit) && idx == h + hit
        invariant hit > 0 ==> outp == Address(Slot(h + hit, block.Length))
      {
        AddExact(h, jump);
        var s := Slot(Add(h, jump), block.Length);
        var e := block[s];
        var got := e.key == k && e.jump == jump;
        assert got == Probe(block[..], h, k, jump);
        XorZeroSelf(idx);
        XorZeroSelf(outp);
        XorZeroSelf(h + jump);
        XorZeroSelf(Address(s));
        idx := Xor(idx, if got then Add(h, jump) else 0);
        outp := Xor(outp, if got then Address(s) else 0);
        if got { hit := jump; }
        jump := jump + 1;
      }
      found := outp != 0;
    }

    /** fixedset_get */
    method Get(k: K) returns (present: bool)
      requires Valid()
      ensures present <==> k in Keys()
    {
      var found, _, _ := Find(k);
      present := found;
    }

    /** fixedset_upsert.  `rnd` is what rand() returns, used only when the table grows.  Without
        memory to grow, nothing changes. */
    method Upsert(k: K, rnd: nat) returns (ok: bool, replaced: bool)
      requires Valid()
      modifies this, block
      ensures Valid() && (block == old(block) || fresh(block))
      ensures ok ==> Keys() == old(Keys()) + {k} && (replaced <==> k in old(Keys()))
      ensures !ok ==> Keys() == old(Keys()) && block == old(block) && old(CapTest(size)) > block.Length
      ensures !ok ==> limit < 2 * |old(Keys())|
      ensures block.Length >= old(block.Length)
      ensures var n, cap := |old(Keys())|, old(block.Length);
        block.Length == if ok && n + n / 8 > cap then cap + cap / 4 + rnd % (cap / 2) else cap
      ensures |old(Keys())| + |old(Keys())| / 8 <= old(block.Length) ==> ok && block == old(block)
      decreases if CapTest(size) > block.Length then 2 else 0
    {
      if CapTest(size) > block.Length {
        var cap := block.Length;
        var grown := Resize(cap + cap / 4 + rnd % (cap / 2));
        if !grown {
          assert rnd % (cap / 2) < cap / 2;
          return false, false;
        }
      }
      var found, _, _ := Find(k);
      if found {
        return true, true;
      }
      var _ := Insert(k);
      return true, false;
    }

    // The displacing loop of fixedset_upsert, for a key that was not found.
    method Insert(k: K) returns (ghost trips: nat)
      requires Shape() && k !in Keys() && CapTest(size) <= block.Length
      modifies this`size, this`maxjump, block
      ensures Valid() && Keys() == old(Keys()) + {k} && size == old(size) + 1
      ensures Places(old(block[..]), hash(k), k, trips, block[..])
    {
      hide Slot, Table, KeysOf, Bounded, Add, Sub, Holding, Ahead, Max, Trip, Trips;
      var cap := block.Length;
      var h: nat, jump: nat, key := hash(k), 1, k;
      ghost var goal, reach := Keys() + {k}, hash(k) + cap;
      assert reach < 0x1_0000_0000_0000_0000;
      hide Roomy;
      ghost var z := StartHolding(block[..], hash, k, maxjump);
      ghost var start := Hand(block[..], hash(k), 1, k, false);
      trips := 0;
      NoTrip(start);
      while true
        invariant size == old(size) && z < cap && Holding(block[..], hash, h, jump, key, goal, z, maxjump, reach)
        invariant Trips(start, trips) == Hand(block[..], h, jump, key, false)
        decreases Ahead(h + jump, z, cap)
      {
        ghost var t := block[..];
        HoldingNear(t, hash, h, jump, key, goal, z, maxjump, reach);
        OneTrip(start, trips);
        trips := trips + 1;
        AddExact(h, jump);
        var p := Slot(Add(h, jump), cap);
        var e := block[p];
        if e.jump == 0 {
          HoldEnd(t, hash, h, jump, key, goal, z, maxjump, reach);
          block[p] := Entry(Low32(jump), key);
          assert block[..] == t[p := Entry(jump, key)];
          size := size + 1;
          maxjump := Max(maxjump, jump);
          return;
        } else if e.jump < jump {
          HoldDisplace(t, hash, h, jump, key, goal, z, maxjump, reach);
          block[p] := Entry(Low32(jump), key);
          assert block[..] == t[p := Entry(jump, key)];
          maxjump := Max(maxjump, jump);
          SubExact(h + jump, e.jump);
          h, jump, key := Sub(Add(h, jump), e.jump), e.jump, e.key;
        } else {
          HoldPass(t, hash, h, jump, key, goal, z, maxjump, reach);
        }
        jump := jump + 1;
      }
    }

    // fixedset_resize: a fresh block, then every entry inserted again; or no memory and no change.
    method Resize(newcap: nat) returns (ok: bool)
      requires Valid() && newcap >= block.Length + 2
      modifies this
      ensures ok <==> newcap <= limit
      ensures Valid() && Keys() == old(Keys())
      ensures ok ==> fresh(block) && block.Length == newcap && CapTest(size) <= block.Length
      ensures !ok ==> unchanged(this)
      decreases 1
    {
      hide Table, KeysOf, Bounded, Roomy;
      if newcap > limit {
        return false;
      }
      var was := block;
      ghost var t := was[..];
      TableDistinct(t, hash);
      var empty: K := *;
      block := new Entry<K>[newcap](i => Entry(0, empty));
      size, maxjump := 0, 0;
      EmptyTable(block[..], hash);
      EmptyTable(t[..0], hash);
      var i := 0;
      while i < was.Length
        invariant 0 <= i <= was.Length && was[..] == t
        invariant Valid() && fresh(block) && block.Length == newcap
        invariant Keys() == KeysOf(t[..i])
      {
        PrefixKeys(t, i);
        SubsetCard(KeysOf(t[..i + 1]), KeysOf(t));
        if was[i].jump != 0 {
          assert CapTest(size) <= block.Length;
          var _, _ := Upsert(was[i].key, 0);
        }
        i := i + 1;
      }
      assert t[..i] == t;
      return true;
    }

    /** fixedset_remove: backward shift instead of a tombstone. */
    method Remove(k: K) returns (removed: bool)
      requires Valid()
      modifies this`size, block
      ensures Valid() && Keys() == old(Keys()) - {k}
      ensures removed <==> k in old(Keys())
    {
      hide Slot, Next, Dist, Table, Removing, KeysOf, Bounded, Add;
      var found, idx, _ := Find(k);
      if !found {
        return false;
      }
      var cap := block.Length;
      var e: nat := Slot(idx, cap);
      ghost var goal := Keys() - {k};
      ghost var z := StartRemove(block[..], hash, e, maxjump);
      ghost var d := Dist(e, z, cap);
      SlotNext(idx, cap);
      size := size - 1;
      var i: nat := 1;
      while true
        invariant e < cap && Slot(idx + i, cap) == Next(e, cap) && z < cap && i + Dist(e, z, cap) == d + 1
        invariant size == old(size) - 1
        invariant Removing(block[..], hash, e, goal, z, maxjump)
        decreases Dist(e, z, cap)
      {
        RemovingAhead(block[..], hash, e, goal, z, maxjump);
        AddExact(idx, i);
        var n := Slot(Add(idx, i), cap);
        if block[n].jump < 2 { break; }
        ghost var t := block[..];
        RemoveShift(t, hash, e, goal, z, maxjump);
        block[e] := Entry(block[n].jump - 1, block[n].key);
        assert block[..] == t[e := Entry(t[n].jump - 1, t[n].key)];
        SlotNext(idx + i, cap);
        e := n;
        i := i + 1;
      }
      ghost var t := block[..];
      RemoveEnd(t, hash, e, goal, z, maxjump);
      block[e] := block[e].(jump := 0);
      assert block[..] == t[e := t[e].(jump := 0)];
      return true;
    }

    /** fixedset_clear: every slot empty; maxjump keeps its old value. */
    method Clear()
      requires Valid()
      modifies this`size, block
      ensures Valid() && Keys() == {}
    {
      var empty: K := *;
      forall i | 0 <= i < block.Length { block[i] := Entry(0, empty); }
      size := 0;
      EmptyTable(block[..], hash);
    }
  }

  lemma EmptyTable<K(!new)>(t: seq<Entry<K>>, h: K -> nat)
    requires forall i :: 0 <= i < |t| ==> t[i].jump == 0
    ensures |t| > 0 ==> Table(t, h)
    ensures KeysOf(t) == {} && forall m: nat {:trigger Bounded(t, m)} :: Bounded(t, m)
  {
    assert forall i: nat :: !Occupied(t, i);
  }

  lemma TableDistinct<K(!new)>(t: seq<Entry<K>>, h: K -> nat)
    requires Table(t, h)
    ensures Distinct(t)
  {
  }

  // What the displacing loop works on: the table, and the key in hand with its hash and distance.
  datatype Hand<K> = Hand(t: seq<Entry<K>>, h: nat, jump: nat, key: K, placed: bool)

  // One trip through it, in 64-bit words.
  function Trip<K>(s: Hand<K>): (r: Hand<K>)
    requires |s.t| > 0
    ensures |r.t| == |s.t|
  {
    var x := Add(s.h, s.jump);
    var p := Slot(x, |s.t|);
    var e := s.t[p];
    if s.placed then s
    else if e.jump == 0 then s.(t := s.t[p := Entry(Low32(s.jump), s.key)], placed := true)
    else if e.jump < s.jump then Hand(s.t[p := Entry(Low32(s.jump), s.key)], Sub(x, e.jump), e.jump + 1, e.key, false)
    else s.(jump := s.jump + 1)
  }

  function Trips<K>(s: Hand<K>, n: nat): (r: Hand<K>)
    requires |s.t| > 0
    ensures |r.t| == |s.t|
  {
    if n == 0 then s else Trip(Trips(s, n - 1))
  }

  // The loop places k and ends with table t' after n trips.
  ghost predicate Places<K>(t: seq<Entry<K>>, h: nat, k: K, n: nat, t': seq<Entry<K>>) {
    |t| > 0 && var s := Trips(Hand(t, h, 1, k, false), n); s.placed && s.t == t'
  }

  lemma NoTrip<K>(s: Hand<K>)
    requires |s.t| > 0
    ensures Trips(s, 0) == s
  {
  }

  lemma OneTrip<K>(s: Hand<K>, n: nat)
    requires |s.t| > 0 && !Trips(s, n).placed
    ensures var r := Trips(s, n);
      var x := Add(r.h, r.jump);
      var p := Slot(x, |s.t|);
      var e := r.t[p];
      && (e.jump == 0 ==> Trips(s, n + 1) == r.(t := r.t[p := Entry(Low32(r.jump), r.key)], placed := true))
      && (0 < e.jump < r.jump ==>
            Trips(s, n + 1) == Hand(r.t[p := Entry(Low32(r.jump), r.key)], Sub(x, e.jump), e.jump + 1, e.key, false))
      && (e.jump >= r.jump > 0 ==> Trips(s, n + 1) == r.(jump := r.jump + 1))
  {
    hide Add, Sub, Slot, Low32;
  }

  // How far the free slot z is from position x.
  ghost function Ahead(x: nat, z: nat, cap: nat): nat
    requires z < cap
  {
    Dist(Slot(x, cap), z, cap)
  }

  // The insertion holds `key` at distance `jump` from its hash; z is free, and no position up to it
  // is beyond `reach`.
  ghost predicate Holding<K(!new)>(
    t: seq<Entry<K>>, hash: K -> nat, h: nat, jump: nat, key: K, goal: set<K>, z: nat, maxjump: nat, reach: nat)
  {
    && z < |t| && maxjump <= |t| && 0 < jump <= |t| && h + jump + Ahead(h + jump, z, |t|) <= reach
    && Carrying(t, hash, Slot(h + jump, |t|), key, jump, goal, z, maxjump)
  }

  lemma StartHolding<K(!new)>(t: seq<Entry<K>>, hash: K -> nat, k: K, maxjump: nat) returns (z: nat)
    requires Table(t, hash) && Bounded(t, maxjump) && maxjump <= |t| && |KeysOf(t)| < |t| && k !in KeysOf(t)
    ensures z < |t| && Holding(t, hash, hash(k), 1, k, KeysOf(t) + {k}, z, maxjump, hash(k) + |t|)
  {
    hide Slot, Table, Carrying, KeysOf, Bounded;
    z := StartCarry(t, hash, k, maxjump);
  }

  lemma HoldingNear<K(!new)>(
    t: seq<Entry<K>>, hash: K -> nat, h: nat, jump: nat, key: K, goal: set<K>, z: nat, maxjump: nat, reach: nat)
    requires Holding(t, hash, h, jump, key, goal, z, maxjump, reach)
    ensures h + jump <= reach && 0 < jump <= |t| && z < |t|
  {
    hide Slot, Dist, Carrying;
  }

  lemma HoldEnd<K(!new)>(
    t: seq<Entry<K>>, hash: K -> nat, h: nat, jump: nat, key: K, goal: set<K>, z: nat, maxjump: nat, reach: nat)
    requires Holding(t, hash, h, jump, key, goal, z, maxjump, reach) && t[Slot(h + jump, |t|)].jump == 0
    ensures var t' := t[Slot(h + jump, |t|) := Entry(jump, key)];
      Table(t', hash) && KeysOf(t') == goal && Bounded(t', Max(maxjump, jump)) && Max(maxjump, jump) <= |t|
  {
    hide Slot, Dist, Carrying, Table, KeysOf, Bounded;
    CarryEnd(t, hash, Slot(h + jump, |t|), key, jump, goal, z, maxjump);
  }

  lemma HoldDisplace<K(!new)>(
    t: seq<Entry<K>>, hash: K -> nat, h: nat, jump: nat, key: K, goal: set<K>, z: nat, maxjump: nat, reach: nat)
    requires Holding(t, hash, h, jump, key, goal, z, maxjump, reach) && 0 < t[Slot(h + jump, |t|)].jump < jump
    ensures var p := Slot(h + jump, |t|);
      var h', j' := h + jump - t[p].jump, t[p].jump + 1;
      && Holding(t[p := Entry(jump, key)], hash, h', j', t[p].key, goal, z, Max(maxjump, jump), reach)
      && Ahead(h' + j', z, |t|) < Ahead(h + jump, z, |t|)
  {
    hide Slot, Next, Dist, Carrying;
    var p := Slot(h + jump, |t|);
    SlotNext(h + jump, |t|);
    CarryDisplace(t, hash, p, key, jump, goal, z, maxjump);
    CarriedNear(t[p := Entry(jump, key)], hash, Next(p, |t|), t[p].key, t[p].jump + 1, goal, z, Max(maxjump, jump));
  }

  lemma HoldPass<K(!new)>(
    t: seq<Entry<K>>, hash: K -> nat, h: nat, jump: nat, key: K, goal: set<K>, z: nat, maxjump: nat, reach: nat)
    requires Holding(t, hash, h, jump, key, goal, z, maxjump, reach) && t[Slot(h + jump, |t|)].jump >= jump
    ensures Holding(t, hash, h, jump + 1, key, goal, z, maxjump, reach)
    ensures Ahead(h + jump + 1, z, |t|) < Ahead(h + jump, z, |t|)
  {
    hide Slot, Next, Dist, Carrying;
    var p := Slot(h + jump, |t|);
    SlotNext(h + jump, |t|);
    CarryPass(t, hash, p, key, jump, goal, z, maxjump);
    CarriedNear(t, hash, Next(p, |t|), key, jump + 1, goal, z, maxjump);
  }

  lemma StartCarry<K(!new)>(t: seq<Entry<K>>, h: K -> nat, k: K, maxjump: nat) returns (z: nat)
    requires Table(t, h) && Bounded(t, maxjump) && |KeysOf(t)| < |t| && k !in KeysOf(t)
    ensures z < |t| && Carrying(t, h, Slot(h(k) + 1, |t|), k, 1, KeysOf(t) + {k}, z, maxjump)
  {
    z := FindEmpty(t);
  }

  lemma StartRemove<K(!new)>(t: seq<Entry<K>>, h: K -> nat, e: nat, maxjump: nat) returns (z: nat)
    requires Table(t, h) && Bounded(t, maxjump) && |KeysOf(t)| < |t| && Occupied(t, e)
    ensures z < |t| && Removing(t, h, e, KeysOf(t) - {t[e].key}, z, maxjump)
    ensures t[e].jump + Dist(e, z, |t|) <= |t|
  {
    z := FindEmpty(t);
    StartHole(t, h, e);
    RunWithin(t, z, e);
  }

  lemma RemovingAhead<K(!new)>(t: seq<Entry<K>>, h: K -> nat, e: nat, goal: set<K>, z: nat, maxjump: nat)
    requires Removing(t, h, e, goal, z, maxjump)
    ensures e < |t| && z < |t| && Dist(e, z, |t|) > 0
  {
  }

  lemma PrefixKeys<K>(t: seq<Entry<K>>, i: nat)
    requires i < |t| && Distinct(t)
    ensures KeysOf(t[..i + 1]) == KeysOf(t[..i]) + (if t[i].jump > 0 then {t[i].key} else {})
    ensures KeysOf(t[..i + 1]) <= KeysOf(t)
    ensures t[i].jump > 0 ==> t[i].key !in KeysOf(t[..i])
  {
    var a, b := t[..i], t[..i + 1];
    assert forall j: nat :: Occupied(b, j) == (j <= i && Occupied(t, j));
    assert forall j: nat :: Occupied(a, j) == (j < i && Occupied(t, j));
    assert KeysOf(b) == KeysOf(a) + (if t[i].jump > 0 then {t[i].key} else {}) by {
      forall x | x in KeysOf(a) ensures x in KeysOf(b) {
        var j: nat :| j < |a| && Occupied(a, j) && a[j].key == x;
        assert Occupied(b, j);
      }
      assert t[i].jump > 0 ==> Occupied(b, i);
      forall x | x in KeysOf(b) ensures x in KeysOf(a) || (t[i].jump > 0 && x == t[i].key) {
        var j: nat :| j < |b| && Occupied(b, j) && b[j].key == x;
        if j < i { assert Occupied(a, j); }
      }
    }
    forall x | x in KeysOf(b) ensures x in KeysOf(t) {
      var j: nat :| j < |b| && Occupied(b, j) && b[j].key == x;
      assert Occupied(t, j);
    }
    forall x | x in KeysOf(a) ensures t[i].jump > 0 ==> x != t[i].key {
      var j: nat :| j < |a| && Occupied(a, j) && a[j].key == x;
      assert t[i].jump > 0 ==> Occupied(t, i);
    }
  }

  // ----- positions that wrap

  // No probe of fixedset_find, at whatever distance, hits k.
  ghost predicate Missed<K>(t: seq<Entry<K>>, h: nat, k: K) {
    |t| > 0 && forall j: nat :: j > 0 ==> t[Slot(Add(h, j), |t|)] != Entry(j, k)
  }

  const FAR: nat := 0x1_0000_0000_0000_0000 - 3

  /** What happens without the room: three keys that a table of 40 slots does not have are inserted,
      the third displaces the second across 2^64, and then no lookup finds the second, though it is
      still in the table.  (40 slots come from growing once; 2^64 % 40 is 16.) */
  lemma LostMember() returns (t0: seq<Entry<char>>, t1: seq<Entry<char>>, t2: seq<Entry<char>>, t3: seq<Entry<char>>)
    ensures |t0| == 40 && KeysOf(t0) == {}
    ensures Missed(t0, 13, 'a') && Places(t0, 13, 'a', 1, t1)
    ensures Missed(t1, 14, 'b') && Places(t1, 14, 'b', 1, t2)
    ensures Missed(t2, FAR, 'c') && Places(t2, FAR, 'c', 3, t3)
    ensures Missed(t3, 14, 'b') && 'b' in KeysOf(t3)
  {
    t0 := seq(40, _ => Entry(0, ' '));
    t1 := t0[14 := Entry(1, 'a')];
    t2 := t1[15 := Entry(1, 'b')];
    var t := t2[15 := Entry(2, 'c')];
    t3 := t[0 := Entry(2, 'b')];
    EmptyTable(t0, k => 0);
    FirstTrip(t0, 13, 'a');
    FirstTrip(t1, 14, 'b');
    ThreeTrips(t2);
    assert Occupied(t3, 0);
  }

  lemma FirstTrip(t: seq<Entry<char>>, h: nat, k: char)
    requires |t| == 40 && h + 1 < 40 && t[h + 1].jump == 0
    ensures Places(t, h, k, 1, t[h + 1 := Entry(1, k)])
  {
    var s := Hand(t, h, 1, k, false);
    NoTrip(s);
    OneTrip(s, 0);
  }

  lemma ThreeTrips(t: seq<Entry<char>>)
    requires |t| == 40 && t[14] == Entry(1, 'a') && t[15] == Entry(1, 'b') && t[0].jump == 0
    ensures Places(t, FAR, 'c', 3, t[15 := Entry(2, 'c')][0 := Entry(2, 'b')])
  {
    hide Trips;
    var s := Hand(t, FAR, 1, 'c', false);
    NoTrip(s);
    OneTrip(s, 0);
    assert Trips(s, 1) == s.(jump := 2);
    OneTrip(s, 1);
    assert Trips(s, 2) == Hand(t[15 := Entry(2, 'c')], 0x1_0000_0000_0000_0000 - 2, 2, 'b', false);
    OneTrip(s, 2);
  }

  // ----- whole lifetimes

  datatype Op<K> = Upsert(k: K, rnd: nat) | Remove(k: K) | Get(k: K) | Clear | Size
  datatype Answer = Flag(b: bool) | Count(n: nat) | Done | NoMemory

  // What a mathematical set would do and say.
  function SetAfter<K>(s: set<K>, op: Op<K>): set<K> {
    match op
    case Upsert(k, _) => s + {k}
    case Remove(k) => s - {k}
    case Clear => {}
    case _ => s
  }

  function SetAnswer<K>(s: set<K>, op: Op<K>): Answer {
    match op
    case Upsert(k, _) => Flag(k in s)
    case Remove(k) => Flag(k in s)
    case Get(k) => Flag(k in s)
    case Clear => Done
    case Size => Count(|s|)
  }

  // A mathematical set would give these answers, except that an insertion into one that fills more
  // than half of the largest table may find no memory and do nothing.
  ghost predicate AsSet<K>(s: set<K>, limit: nat, ops: seq<Op<K>>, answers: seq<Answer>)
    decreases |ops|
  {
    && |answers| == |ops|
    && (ops != [] ==>
          if answers[0] == NoMemory then ops[0].Upsert? && limit < 2 * |s| && AsSet(s, limit, ops[1..], answers[1..])
          else answers[0] == SetAnswer(s, ops[0]) && AsSet(SetAfter(s, ops[0]), limit, ops[1..], answers[1..]))
  }

  method Perform<K(!new, ==, 0)>(h: FixedSet<K>, op: Op<K>) returns (a: Answer)
    requires h.Valid()
    modifies h, h.block
    ensures h.Valid() && (h.block == old(h.block) || fresh(h.block))
    ensures a == NoMemory ==> op.Upsert? && h.Keys() == old(h.Keys()) && h.limit < 2 * |h.Keys()|
    ensures a != NoMemory ==> h.Keys() == SetAfter(old(h.Keys()), op) && a == SetAnswer(old(h.Keys()), op)
  {
    match op
    case Upsert(k, rnd) =>
      var ok, r := h.Upsert(k, rnd);
      a := if ok then Flag(r) else NoMemory;
    case Remove(k) =>
      var r := h.Remove(k);
      a := Flag(r);
    case Get(k) =>
      var r := h.Get(k);
      a := Flag(r);
    case Clear =>
      h.Clear();
      a := Done;
    case Size =>
      a := Count(h.size);
  }

  // What the set holds after these operations with these answers.
  ghost function Held<K>(s: set<K>, ops: seq<Op<K>>, answers: seq<Answer>): set<K>
    requires |answers| == |ops|
  {
    if ops == [] then s
    else
      var n := |ops| - 1;
      var before := Held(s, ops[..n], answers[..n]);
      if answers[n] == NoMemory then before else SetAfter(before, ops[n])
  }

  /** For every hash that leaves room for the largest table and every sequence of operations, growth
      included, a new set answers exactly as a mathematical set would; an insertion that finds no
      memory to grow says so and leaves the set as it was. */
  method Lifetime<K(!new, ==, 0)>(hash: K -> nat, limit: nat, ops: seq<Op<K>>) returns (answers: seq<Answer>)
    requires limit >= 32 && Roomy(hash, limit)
    ensures AsSet({}, limit, ops, answers)
  {
    hide *;
    var h := new FixedSet<K>(hash, 4096, 4, limit);
    answers := [];
    var i := 0;
    assert ops[..0] == [];
    NothingDone<K>({}, limit);
    while i < |ops|
      invariant 0 <= i <= |ops| && h.Valid() && fresh(h) && fresh(h.block) && |answers| == i && h.limit == limit
      invariant AsSet({}, limit, ops[..i], answers) && h.Keys() == Held({}, ops[..i], answers)
    {
      var a := Perform(h, ops[i]);
      assert ops[..i + 1] == ops[..i] + [ops[i]];
      OneMore({}, limit, ops[..i], answers, ops[i], a);
      answers := answers + [a];
      i := i + 1;
    }
    assert ops[..i] == ops;
  }

  lemma NothingDone<K>(s: set<K>, limit: nat)
    ensures AsSet(s, limit, [], []) && Held(s, [], []) == s
  {
  }

  lemma {:induction false} OneMore<K>(s: set<K>, limit: nat, ops: seq<Op<K>>, answers: seq<Answer>, op: Op<K>, a: Answer)
    requires AsSet(s, limit, ops, answers)
    requires |answers| == |ops|
    requires if a == NoMemory then op.Upsert? && limit < 2 * |Held(s, ops, answers)| else a == SetAnswer(Held(s, ops, answers), op)
    ensures AsSet(s, limit, ops + [op], answers + [a])
    ensures Held(s, ops + [op], answers + [a]) ==
      if a == NoMemory then Held(s, ops, answers) else SetAfter(Held(s, ops, answers), op)
    decreases |ops|
  {
    assert (ops + [op])[..|ops|] == ops && (answers + [a])[..|ops|] == answers;
    if ops == [] {
      assert (ops + [op])[1..] == [] && (answers + [a])[1..] == [];
      assert ops + [op] == [op] && answers + [a] == [a];
    } else {
      var next := if answers[0] == NoMemory then s else SetAfter(s, ops[0]);
      HeldFromFront(s, ops, answers);
      OneMore(next, limit, ops[1..], answers[1..], op, a);
      assert (ops + [op])[1..] == ops[1..] + [op] && (answers + [a])[1..] == answers[1..] + [a];
    }
  }

  lemma {:induction false} HeldFromFront<K>(s: set<K>, ops: seq<Op<K>>, answers: seq<Answer>)
    requires |answers| == |ops| > 0
    ensures Held(s, ops, answers) ==
      Held(if answers[0] == NoMemory then s else SetAfter(s, ops[0]), ops[1..], answers[1..])
    decreases |ops|
  {
    var n := |ops| - 1;
    if n > 0 {
      HeldFromFront(s, ops[..n], answers[..n]);
      assert ops[..n][1..] == ops[1..][..n - 1] && answers[..n][1..] == answers[1..][..n - 1];
    } else {
      assert ops[..0] == [] && answers[..0] == [] && ops[1..] == [] && answers[1..] == [];
    }
  }
}
