/** The Robin Hood slot table behind c/fixedset/fixedset.c, as a value: what a well-formed
    table is, which set of keys it holds, and what placing, shifting and probing do to it. */
module RobinHood {
  import opened Words

  // A slot is empty when jump is zero; otherwise key sits jump slots after its hash.
  datatype Entry<K> = Entry(jump: nat, key: K)

  function Slot(x: nat, cap: nat): (s: nat)
    requires cap > 0
    ensures s < cap
  {
    x % cap
  }

  function Next(i: nat, cap: nat): (s: nat)
    requires i < cap
    ensures s < cap
  {
    if i + 1 == cap then 0 else i + 1
  }

  function Prev(i: nat, cap: nat): (s: nat)
    requires i < cap
    ensures s < cap && Next(s, cap) == i
  {
    if i == 0 then cap - 1 else i - 1
  }

  // How many steps forward from i to z around the ring.
  function Dist(i: nat, z: nat, cap: nat): (d: nat)
    requires i < cap && z < cap
    ensures d < cap && (d == 0 <==> i == z)
  {
    if i <= z then z - i else z + cap - i
  }

  lemma SlotNext(x: nat, cap: nat)
    requires cap > 0
    ensures Slot(x + 1, cap) == Next(Slot(x, cap), cap)
  {
    var q, r := x / cap, x % cap;
    assert x == q * cap + r;
    if r + 1 == cap {
      assert x + 1 == (q + 1) * cap;
      SlotUnique(x + 1, cap, q + 1, 0);
    } else {
      SlotUnique(x + 1, cap, q, r + 1);
    }
  }

  lemma SlotUnique(x: nat, cap: nat, q: nat, r: nat)
    requires r < cap && x == q * cap + r
    ensures Slot(x, cap) == r
  {
    ModUnique(x, cap, q, r);
  }

  predicate Occupied<K>(t: seq<Entry<K>>, i: nat) {
    i < |t| && t[i].jump > 0
  }

  ghost function KeysOf<K>(t: seq<Entry<K>>): (s: set<K>) {
    set i: nat | i < |t| && Occupied(t, i) :: t[i].key
  }

  // Every entry sits `jump` slots after its hash.
  ghost predicate Homed<K(!new)>(t: seq<Entry<K>>, h: K -> nat) {
    forall i: nat :: Occupied(t, i) ==> Slot(h(t[i].key) + t[i].jump, |t|) == i
  }

  // The Robin Hood order: a jump exceeds its predecessor's by at most one.
  ghost predicate Graded<K>(t: seq<Entry<K>>) {
    forall i: nat :: i < |t| ==> t[i].jump <= t[Prev(i, |t|)].jump + 1
  }

  ghost predicate Distinct<K>(t: seq<Entry<K>>) {
    forall i: nat, j: nat :: Occupied(t, i) && Occupied(t, j) && t[i].key == t[j].key ==> i == j
  }

  ghost predicate Table<K(!new)>(t: seq<Entry<K>>, h: K -> nat) {
    |t| > 0 && Homed(t, h) && Graded(t) && Distinct(t)
  }

  // ----- placing a key, the step of the insert loop

  ghost predicate Fits<K(!new)>(t: seq<Entry<K>>, h: K -> nat, p: nat, k: K, j: nat) {
    && p < |t| && j > 0
    && Slot(h(k) + j, |t|) == p
    && j <= t[Prev(p, |t|)].jump + 1
    && k !in KeysOf(t)
  }

  /** Taking a slot whose entry is empty or nearer to its hash keeps the table well formed;
      what was there is now the key without a place. */
  lemma PlaceKeeps<K(!new)>(t: seq<Entry<K>>, h: K -> nat, p: nat, k: K, j: nat)
    requires Table(t, h) && Fits(t, h, p, k, j) && t[p].jump < j
    ensures var t' := t[p := Entry(j, k)];
      && Table(t', h)
      && (t[p].jump == 0 ==> KeysOf(t') == KeysOf(t) + {k})
      && (t[p].jump > 0 ==> KeysOf(t') == KeysOf(t) - {t[p].key} + {k} && t[p].key in KeysOf(t))
  {
    hide Slot;
    var t' := t[p := Entry(j, k)];
    assert forall i: nat :: i != p ==> Occupied(t', i) == Occupied(t, i);
    assert forall i: nat :: Occupied(t, i) ==> t[i].key in KeysOf(t);
    assert Occupied(t', p) && t'[p].key == k;
    assert Homed(t', h);
    assert Graded(t');
    assert Distinct(t');
    forall x | x in KeysOf(t) && !(t[p].jump > 0 && x == t[p].key)
      ensures x in KeysOf(t')
    {
      var i: nat :| i < |t| && Occupied(t, i) && t[i].key == x;
      assert Occupied(t', i);
    }
    forall x | x in KeysOf(t')
      ensures x == k || (x in KeysOf(t) && !(t[p].jump > 0 && x == t[p].key))
    {
      var i: nat :| i < |t'| && Occupied(t', i) && t'[i].key == x;
      if i != p { assert Occupied(t, i); }
    }
    if t[p].jump > 0 { assert Occupied(t, p); }
  }

  // Walking past an entry that is at least as far from its hash.
  lemma PassKeeps<K(!new)>(t: seq<Entry<K>>, h: K -> nat, p: nat, k: K, j: nat)
    requires |t| > 0 && Fits(t, h, p, k, j) && t[p].jump >= j
    ensures Fits(t, h, Next(p, |t|), k, j + 1)
  {
    hide Slot;
    SlotNext(h(k) + j, |t|);
  }

  // The displaced key continues from the next slot.
  lemma DisplacedFits<K(!new)>(t: seq<Entry<K>>, h: K -> nat, p: nat, k: K, j: nat)
    requires Table(t, h) && Fits(t, h, p, k, j) && 0 < t[p].jump < j
    ensures Fits(t[p := Entry(j, k)], h, Next(p, |t|), t[p].key, t[p].jump + 1)
  {
    hide Slot;
    PlaceKeeps(t, h, p, k, j);
    assert Occupied(t, p);
    SlotNext(h(t[p].key) + t[p].jump, |t|);
    var t' := t[p := Entry(j, k)];
    assert t'[Prev(Next(p, |t|), |t|)].jump == j;
  }

  // ----- deleting by backward shift

  // Everything but slot e: the entry there is already gone, only not yet overwritten.
  ghost function KeysBut<K>(t: seq<Entry<K>>, e: nat): set<K> {
    set i: nat | i < |t| && Occupied(t, i) && i != e :: t[i].key
  }

  ghost predicate Holed<K(!new)>(t: seq<Entry<K>>, h: K -> nat, e: nat) {
    && e < |t| && t[e].jump > 0 && Graded(t)
    && (forall i: nat :: Occupied(t, i) ==> Slot(h(t[i].key) + t[i].jump, |t|) == i)
    && (forall i: nat, j: nat :: Occupied(t, i) && Occupied(t, j) && i != e && j != e && t[i].key == t[j].key ==> i == j)
  }

  lemma StartHole<K(!new)>(t: seq<Entry<K>>, h: K -> nat, e: nat)
    requires Table(t, h) && Occupied(t, e)
    ensures Holed(t, h, e) && KeysBut(t, e) == KeysOf(t) - {t[e].key}
  {
    hide Slot;
    forall x | x in KeysOf(t) && x != t[e].key
      ensures x in KeysBut(t, e)
    {
      var i: nat :| i < |t| && Occupied(t, i) && t[i].key == x;
    }
  }

  lemma ShiftKeeps<K(!new)>(t: seq<Entry<K>>, h: K -> nat, e: nat)
    requires Holed(t, h, e) && |t| > 1 && t[Next(e, |t|)].jump >= 2
    ensures var n := Next(e, |t|);
      var t' := t[e := Entry(t[n].jump - 1, t[n].key)];
      Holed(t', h, n) && KeysBut(t', n) == KeysBut(t, e)
  {
    hide Slot;
    var cap, n := |t|, Next(e, |t|);
    var t' := t[e := Entry(t[n].jump - 1, t[n].key)];
    SlotPrev(h(t[n].key) + t[n].jump - 1, cap);
    assert Occupied(t, n) && Occupied(t, e) && Prev(n, cap) == e;
    assert forall i: nat :: Occupied(t', i) == Occupied(t, i);
    assert Graded(t');
    assert Holed(t', h, n);
    forall x | x in KeysBut(t, e)
      ensures x in KeysBut(t', n)
    {
      var i: nat :| i < |t| && Occupied(t, i) && i != e && t[i].key == x;
      assert Occupied(t', if i == n then e else i) && t'[if i == n then e else i].key == x;
    }
    forall x | x in KeysBut(t', n)
      ensures x in KeysBut(t, e)
    {
      var i: nat :| i < |t'| && Occupied(t', i) && i != n && t'[i].key == x;
      assert Occupied(t, if i == e then n else i) && t[if i == e then n else i].key == x;
    }
  }

  lemma SlotPrev(x: nat, cap: nat)
    requires cap > 0
    ensures Slot(x, cap) == Prev(Slot(x + 1, cap), cap)
  {
    SlotNext(x, cap);
  }

  lemma EndHole<K(!new)>(t: seq<Entry<K>>, h: K -> nat, e: nat)
    requires Holed(t, h, e) && t[Next(e, |t|)].jump < 2
    ensures var t' := t[e := t[e].(jump := 0)];
      Table(t', h) && KeysOf(t') == KeysBut(t, e)
  {
    hide Slot;
    var t' := t[e := t[e].(jump := 0)];
    assert forall i: nat :: Occupied(t', i) == (Occupied(t, i) && i != e);
    assert forall i: nat :: i < |t| && Prev(i, |t|) == e ==> i == Next(e, |t|);
    forall x | x in KeysBut(t, e)
      ensures x in KeysOf(t')
    {
      var i: nat :| i < |t| && Occupied(t, i) && i != e && t[i].key == x;
      assert Occupied(t', i);
    }
    forall x | x in KeysOf(t')
      ensures x in KeysBut(t, e)
    {
      var i: nat :| i < |t'| && Occupied(t', i) && t'[i].key == x;
    }
  }

  // ----- the two loops, one step at a time

  ghost predicate Bounded<K>(t: seq<Entry<K>>, maxjump: nat) {
    forall i: nat :: Occupied(t, i) ==> t[i].jump <= maxjump
  }

  // Insert loop: key still needs a place, at slot p and distance j; goal is the final key set.
  ghost predicate Carrying<K(!new)>(
    t: seq<Entry<K>>, h: K -> nat, p: nat, key: K, j: nat, goal: set<K>, z: nat, maxjump: nat)
  {
    && Table(t, h) && Fits(t, h, p, key, j) && KeysOf(t) + {key} == goal
    && z < |t| && t[z].jump == 0 && Bounded(t, maxjump)
  }

  lemma CarryEnd<K(!new)>(t: seq<Entry<K>>, h: K -> nat, p: nat, key: K, j: nat, goal: set<K>, z: nat, maxjump: nat)
    requires Carrying(t, h, p, key, j, goal, z, maxjump) && t[p].jump == 0
    ensures var t' := t[p := Entry(j, key)];
      Table(t', h) && KeysOf(t') == goal && Bounded(t', Max(maxjump, j))
  {
    hide Table;
    PlaceKeeps(t, h, p, key, j);
    assert forall i: nat :: i != p ==> Occupied(t[p := Entry(j, key)], i) == Occupied(t, i);
  }

  lemma CarryDisplace<K(!new)>(t: seq<Entry<K>>, h: K -> nat, p: nat, key: K, j: nat, goal: set<K>, z: nat, maxjump: nat)
    requires Carrying(t, h, p, key, j, goal, z, maxjump) && 0 < t[p].jump < j
    ensures Carrying(t[p := Entry(j, key)], h, Next(p, |t|), t[p].key, t[p].jump + 1, goal, z, Max(maxjump, j))
    ensures Dist(Next(p, |t|), z, |t|) == Dist(p, z, |t|) - 1
  {
    hide Table, Fits;
    FitsSlot(t, h, p, key, j);
    PlaceKeeps(t, h, p, key, j);
    DisplacedFits(t, h, p, key, j);
    assert forall i: nat :: i != p ==> Occupied(t[p := Entry(j, key)], i) == Occupied(t, i);
  }

  lemma CarryPass<K(!new)>(t: seq<Entry<K>>, h: K -> nat, p: nat, key: K, j: nat, goal: set<K>, z: nat, maxjump: nat)
    requires Carrying(t, h, p, key, j, goal, z, maxjump) && t[p].jump >= j
    ensures Carrying(t, h, Next(p, |t|), key, j + 1, goal, z, maxjump)
    ensures Dist(Next(p, |t|), z, |t|) == Dist(p, z, |t|) - 1
  {
    hide Table;
    PassKeeps(t, h, p, key, j);
  }

  lemma FitsSlot<K(!new)>(t: seq<Entry<K>>, h: K -> nat, p: nat, k: K, j: nat)
    requires Fits(t, h, p, k, j)
    ensures p < |t| && j > 0
  {
  }

  // Delete loop: slot e is to be overwritten; goal is the final key set.
  ghost predicate Removing<K(!new)>(t: seq<Entry<K>>, h: K -> nat, e: nat, goal: set<K>, z: nat, maxjump: nat) {
    && Holed(t, h, e) && KeysBut(t, e) == goal
    && z < |t| && t[z].jump == 0 && Bounded(t, maxjump)
  }

  lemma RemoveShift<K(!new)>(t: seq<Entry<K>>, h: K -> nat, e: nat, goal: set<K>, z: nat, maxjump: nat)
    requires Removing(t, h, e, goal, z, maxjump) && t[Next(e, |t|)].jump >= 2
    ensures var n := Next(e, |t|);
      Removing(t[e := Entry(t[n].jump - 1, t[n].key)], h, n, goal, z, maxjump)
    ensures Dist(Next(e, |t|), z, |t|) == Dist(e, z, |t|) - 1
  {
    ShiftKeeps(t, h, e);
    var n := Next(e, |t|);
    assert Occupied(t, n);
    assert forall i: nat :: Occupied(t[e := Entry(t[n].jump - 1, t[n].key)], i) == Occupied(t, i);
  }

  lemma RemoveEnd<K(!new)>(t: seq<Entry<K>>, h: K -> nat, e: nat, goal: set<K>, z: nat, maxjump: nat)
    requires Removing(t, h, e, goal, z, maxjump) && t[Next(e, |t|)].jump < 2
    ensures var t' := t[e := t[e].(jump := 0)];
      Table(t', h) && KeysOf(t') == goal && Bounded(t', maxjump)
  {
    EndHole(t, h, e);
    assert forall i: nat :: Occupied(t[e := t[e].(jump := 0)], i) == (Occupied(t, i) && i != e);
  }

  // ----- empty slots

  lemma {:induction false} AllOccupiedCount<K>(t: seq<Entry<K>>)
    requires Distinct(t) && forall i: nat :: i < |t| ==> Occupied(t, i)
    ensures |KeysOf(t)| == |t|
  {
    if |t| > 0 {
      var n := |t| - 1;
      var r := t[..n];
      assert forall i: nat :: Occupied(r, i) == (i < n && Occupied(t, i));
      AllOccupiedCount(r);
      assert KeysOf(t) == KeysOf(r) + {t[n].key} by {
        assert Occupied(t, n);
        forall x | x in KeysOf(t) ensures x in KeysOf(r) || x == t[n].key {
          var i: nat :| i < |t| && Occupied(t, i) && t[i].key == x;
          if i < n { assert Occupied(r, i); }
        }
        forall x | x in KeysOf(r) ensures x in KeysOf(t) {
          var i: nat :| i < |r| && Occupied(r, i) && r[i].key == x;
          assert Occupied(t, i);
        }
      }
      forall x | x in KeysOf(r) ensures x != t[n].key {
        var i: nat :| i < |r| && Occupied(r, i) && r[i].key == x;
        assert Occupied(t, i) && Occupied(t, n);
      }
    }
  }

  lemma FindEmpty<K>(t: seq<Entry<K>>) returns (z: nat)
    requires Distinct(t) && |KeysOf(t)| < |t|
    ensures z < |t| && t[z].jump == 0
  {
    if forall i: nat :: i < |t| ==> Occupied(t, i) { AllOccupiedCount(t); }
    z :| z < |t| && !Occupied(t, z);
  }

  // The keys on the unbroken run of entries that ends at i, counted back towards the empty slot z.
  lemma {:induction false} RunKeys<K>(t: seq<Entry<K>>, z: nat, i: nat) returns (ks: set<K>)
    requires Graded(t) && Distinct(t) && z < |t| && t[z].jump == 0 && i < |t|
    ensures |ks| >= t[i].jump
    ensures forall x :: x in ks ==>
      exists y: nat :: y < |t| && Occupied(t, y) && t[y].key == x && Dist(z, y, |t|) <= Dist(z, i, |t|)
    decreases Dist(z, i, |t|)
  {
    if t[i].jump == 0 {
      ks := {};
    } else {
      var p := Prev(i, |t|);
      var rest := RunKeys(t, z, p);
      assert t[i].jump <= t[p].jump + 1;
      assert Occupied(t, i) && Dist(z, p, |t|) < Dist(z, i, |t|);
      ks := rest + {t[i].key};
    }
  }

  lemma {:induction false} SubsetCard<K>(a: set<K>, b: set<K>)
    requires a <= b
    ensures |a| <= |b|
  {
    if a != {} {
      var x :| x in a;
      SubsetCard(a - {x}, b - {x});
    }
  }

  /** No entry is further from its hash than there are entries. */
  lemma JumpAtMostSize<K>(t: seq<Entry<K>>, i: nat)
    requires Graded(t) && Distinct(t) && |KeysOf(t)| < |t| && i < |t|
    ensures t[i].jump <= |KeysOf(t)|
  {
    var z := FindEmpty(t);
    var ks := RunKeys(t, z, i);
    SubsetCard(ks, KeysOf(t));
  }

  // The entries from a key's hash up to its slot and on to the next empty slot are one run, shorter
  // than the table.
  lemma {:induction false} RunWithin<K>(t: seq<Entry<K>>, z: nat, i: nat)
    requires Graded(t) && z < |t| && t[z].jump == 0 && Occupied(t, i)
    ensures t[i].jump + Dist(i, z, |t|) <= |t| && Dist(i, z, |t|) > 0
    decreases t[i].jump
  {
    if t[i].jump > 1 {
      var p := Prev(i, |t|);
      assert t[i].jump <= t[p].jump + 1;
      RunBack(t, z, p, t[i].jump - 1);
    }
  }

  lemma {:induction false} RunBack<K>(t: seq<Entry<K>>, z: nat, i: nat, j: nat)
    requires Graded(t) && z < |t| && t[z].jump == 0 && i < |t| && 0 < j <= t[i].jump
    ensures j + Dist(i, z, |t|) <= |t|
    decreases j
  {
    if j > 1 {
      var p := Prev(i, |t|);
      assert t[i].jump <= t[p].jump + 1;
      RunBack(t, z, p, j - 1);
    }
  }

  // A key still looking for a place is not further from its hash than there are slots.
  lemma CarriedNear<K(!new)>(t: seq<Entry<K>>, h: K -> nat, p: nat, key: K, j: nat, goal: set<K>, z: nat, maxjump: nat)
    requires Carrying(t, h, p, key, j, goal, z, maxjump)
    ensures p < |t| && z < |t| && 0 < j <= |t|
  {
    hide Slot;
    var q := Prev(p, |t|);
    if t[q].jump > 0 {
      assert Occupied(t, q);
      RunWithin(t, z, q);
    }
  }

  // ----- what probing finds

  predicate Probe<K(==)>(t: seq<Entry<K>>, hash: nat, k: K, j: nat)
    requires |t| > 0
  {
    t[Slot(hash + j, |t|)].key == k && t[Slot(hash + j, |t|)].jump == j
  }

  /** A present key is met by exactly one probe, an absent key by none. */
  lemma ProbeIffMember<K(!new)>(t: seq<Entry<K>>, h: K -> nat, k: K, maxjump: nat)
    requires Table(t, h) && Bounded(t, maxjump)
    ensures k in KeysOf(t) <==> exists j :: 1 <= j <= maxjump && Probe(t, h(k), k, j)
    ensures forall i: nat, j: nat :: 0 < i && 0 < j && Probe(t, h(k), k, i) && Probe(t, h(k), k, j) ==> i == j
  {
    hide Slot;
    if k in KeysOf(t) {
      var i: nat :| i < |t| && Occupied(t, i) && t[i].key == k;
      assert Probe(t, h(k), k, t[i].jump);
    }
    forall j: nat | 0 < j && Probe(t, h(k), k, j)
      ensures k in KeysOf(t)
    {
      assert Occupied(t, Slot(h(k) + j, |t|));
    }
    forall i: nat, j: nat | 0 < i && 0 < j && Probe(t, h(k), k, i) && Probe(t, h(k), k, j)
      ensures i == j
    {
      assert Occupied(t, Slot(h(k) + i, |t|)) && Occupied(t, Slot(h(k) + j, |t|));
    }
  }
}
