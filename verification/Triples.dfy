/** The masked response builder of c/aci_pni_uak_helpers/aci_pni_uak_helpers.c. */
module Triples {
  import opened Words
  import FixedSet

  datatype Pair = Pair(aci0: U64, aci1: U64, uak0: U64, uak1: U64)
  datatype UserRecord = UserRecord(e164: U64, aci0: U64, aci1: U64, pni0: U64, pni1: U64, uak0: U64, uak1: U64)
  datatype Triple = Triple(e164: nat, pni0: nat, pni1: nat, aci0: nat, aci1: nat)

  const NOTHING := Triple(0, 0, 0, 0, 0)

  /** What a client is to learn about one record: nothing if it is missing or deleted; the ACI
      only to someone who already had it together with its non-zero access key. */
  ghost function Answer(known: set<Pair>, r: UserRecord): Triple {
    if r.e164 == 0xFFFF_FFFF_FFFF_FFFF || (r.aci0 == 0 && r.aci1 == 0) then NOTHING
    else if (r.uak0 != 0 || r.uak1 != 0) && Pair(r.aci0, r.aci1, r.uak0, r.uak1) in known
    then Triple(r.e164, r.pni0, r.pni1, r.aci0, r.aci1)
    else Triple(r.e164, r.pni0, r.pni1, 0, 0)
  }

  function ZeroOrMax(x: nat): U64 { if x == 0 then 0 else 0xFFFF_FFFF_FFFF_FFFF }

  function Not(x: U64): U64 { 0xFFFF_FFFF_FFFF_FFFF - x }

  function GotMask(r: UserRecord): nat {
    And(ZeroOrMax(Not(r.e164)), Or(ZeroOrMax(r.aci0), ZeroOrMax(r.aci1)))
  }

  // The mask is all ones or all zeros, and says whether the record counts.
  lemma GotMaskMeans(r: UserRecord)
    ensures GotMask(r) ==
      if r.e164 == 0xFFFF_FFFF_FFFF_FFFF || (r.aci0 == 0 && r.aci1 == 0) then 0 else 0xFFFF_FFFF_FFFF_FFFF
  {
    hide And, Or;
    OrMasks(r.aci0 != 0, r.aci1 != 0);
    AndOnes(0);
    AndOnes(0xFFFF_FFFF_FFFF_FFFF);
  }

  lemma OrMasks(a: bool, b: bool)
    ensures var x, y := if a then 0xFFFF_FFFF_FFFF_FFFF else 0, if b then 0xFFFF_FFFF_FFFF_FFFF else 0;
      Or(x, y) == if a || b then 0xFFFF_FFFF_FFFF_FFFF else 0
  {
    if a && b { OrSelf(0xFFFF_FFFF_FFFF_FFFF); }
  }

  lemma {:induction false} OrSelf(a: nat)
    ensures Or(a, a) == a
  {
    if a != 0 { OrSelf(a / 2); }
  }

  ghost function Listed(pairs: seq<Pair>): set<Pair> { set i | 0 <= i < |pairs| :: pairs[i] }

  lemma ListedNext(pairs: seq<Pair>, i: nat)
    requires i < |pairs|
    ensures Listed(pairs[..i + 1]) == Listed(pairs[..i]) + {pairs[i]}
  {
    forall x | x in Listed(pairs[..i + 1]) ensures x in Listed(pairs[..i]) || x == pairs[i] {
      var j :| 0 <= j < i + 1 && pairs[..i + 1][j] == x;
      if j < i { assert pairs[..i][j] == x; }
    }
    forall x | x in Listed(pairs[..i]) ensures x in Listed(pairs[..i + 1]) {
      var j :| 0 <= j < i && pairs[..i][j] == x;
      assert pairs[..i + 1][j] == x;
    }
    assert pairs[..i + 1][i] == pairs[i];
  }

  /** load_aci_uak_pairs: all pairs, or an error when the index cannot grow.  rand() may return
      anything, and something else each time. */
  method LoadPairs(index: FixedSet.FixedSet<Pair>, pairs: seq<Pair>) returns (ok: bool)
    requires index.Valid()
    modifies index, index.block
    ensures index.Valid() && (index.block == old(index.block) || fresh(index.block))
    ensures ok ==> index.Keys() == old(index.Keys()) + Listed(pairs)
    ensures !ok ==> old(index.Keys()) <= index.Keys() <= old(index.Keys()) + Listed(pairs)
    ensures !ok ==> index.limit < 2 * (|old(index.Keys())| + |pairs|)
  {
    hide *;
    var i: nat := 0;
    assert Listed(pairs[..0]) == {} by { ListedNone(pairs[..0]); }
    while i < |pairs|
      invariant i <= |pairs| && index.Valid() && |Listed(pairs[..i])| <= i
      invariant index.block == old(index.block) || fresh(index.block)
      invariant index.Keys() == old(index.Keys()) + Listed(pairs[..i])
    {
      ListedNext(pairs, i);
      var rnd: nat := *;
      var done, _ := index.Upsert(pairs[i], rnd);
      if !done {
        ListedPart(pairs, i);
        return false;
      }
      i := i + 1;
    }
    assert pairs[..i] == pairs;
    return true;
  }

  lemma ListedIn(pairs: seq<Pair>)
    ensures forall x :: x in Listed(pairs) <==> x in pairs
  {
  }

  lemma ListedPart(pairs: seq<Pair>, i: nat)
    requires i <= |pairs|
    ensures Listed(pairs[..i]) <= Listed(pairs)
  {
    forall x | x in Listed(pairs[..i]) ensures x in Listed(pairs) {
      var j :| 0 <= j < i && pairs[..i][j] == x;
      assert pairs[j] == x;
    }
  }

  lemma ListedNone(pairs: seq<Pair>)
    requires pairs == []
    ensures Listed(pairs) == {}
  {
  }

  /** One turn of create_e164_pni_aci_triples, all by masks. */
  method MakeTriple(index: FixedSet.FixedSet<Pair>, i: U64, r: UserRecord) returns (t: Triple)
    requires index.Valid()
    ensures t == Answer(index.Keys(), r)
  {
    hide And, Or;
    var got := GotMask(r);
    GotMaskMeans(r);
    MaskWords(r, i);
    var uak0 := Or(And(r.uak0, got), And(i, Not(got)));
    var present := index.Get(Pair(r.aci0, r.aci1, uak0, r.uak1));
    var addAci := present && Or(uak0, r.uak1) != 0;
    OrZero(uak0, r.uak1);
    var aciAnd := if addAci then 0xFFFF_FFFF_FFFF_FFFF else 0;
    AndOnes(aciAnd);
    t := Triple(And(got, r.e164), And(got, r.pni0), And(got, r.pni1),
                And(And(got, aciAnd), r.aci0), And(And(got, aciAnd), r.aci1));
  }

  lemma OrZero(a: nat, b: nat)
    ensures Or(a, b) == 0 <==> a == 0 && b == 0
  {
  }

  // Masking each word used, with all ones or all zeros.
  lemma MaskWords(r: UserRecord, i: U64)
    ensures Or(And(r.uak0, 0xFFFF_FFFF_FFFF_FFFF), And(i, 0)) == r.uak0
    ensures Or(And(r.uak0, 0), And(i, 0xFFFF_FFFF_FFFF_FFFF)) == i
    ensures And(0xFFFF_FFFF_FFFF_FFFF, r.e164) == r.e164 && And(0, r.e164) == 0
    ensures And(0xFFFF_FFFF_FFFF_FFFF, r.pni0) == r.pni0 && And(0, r.pni0) == 0
    ensures And(0xFFFF_FFFF_FFFF_FFFF, r.pni1) == r.pni1 && And(0, r.pni1) == 0
    ensures And(0xFFFF_FFFF_FFFF_FFFF, r.aci0) == r.aci0 && And(0, r.aci0) == 0
    ensures And(0xFFFF_FFFF_FFFF_FFFF, r.aci1) == r.aci1 && And(0, r.aci1) == 0
  {
    hide And;
    AndOnes(r.uak0);
    AndOnes(i);
    AndZero(r.uak0);
    AndZero(i);
    AndOnes(r.e164);
    AndOnes(r.pni0);
    AndOnes(r.pni1);
    AndOnes(r.aci0);
    AndOnes(r.aci1);
  }

  /** create_e164_pni_aci_triples */
  method CreateTriples(index: FixedSet.FixedSet<Pair>, response: seq<UserRecord>) returns (out: seq<Triple>)
    requires index.Valid() && |response| < 0x1_0000_0000_0000_0000
    ensures |out| == |response|
    ensures forall i :: 0 <= i < |out| ==> out[i] == Answer(index.Keys(), response[i])
  {
    out := [];
    var i := 0;
    while i < |response|
      invariant 0 <= i <= |response| && |out| == i
      invariant forall j :: 0 <= j < i ==> out[j] == Answer(index.Keys(), response[j])
    {
      var t := MakeTriple(index, i, response[i]);
      out := out + [t];
      i := i + 1;
    }
  }

  /** From the client's pair list and the table's records to the answers: the plain rule, or an
      error when there is no memory for the pairs. */
  method Respond(hash: Pair -> nat, limit: nat, pairs: seq<Pair>, response: seq<UserRecord>)
    returns (ok: bool, out: seq<Triple>)
    requires |response| < 0x1_0000_0000_0000_0000 && limit >= 32 && FixedSet.Roomy(hash, limit)
    ensures ok ==> |out| == |response| && forall i :: 0 <= i < |out| ==> out[i] == Answer(Listed(pairs), response[i])
    ensures ok ==> forall i :: 0 <= i < |out| ==> var t, r := out[i], response[i];
      if r.e164 == 0xFFFF_FFFF_FFFF_FFFF || (r.aci0 == 0 && r.aci1 == 0)
      then t.e164 == 0 && t.pni0 == 0 && t.pni1 == 0 && t.aci0 == 0 && t.aci1 == 0
      else
        && t.e164 == r.e164 && t.pni0 == r.pni0 && t.pni1 == r.pni1
        && if (r.uak0 != 0 || r.uak1 != 0) && Pair(r.aci0, r.aci1, r.uak0, r.uak1) in pairs
           then t.aci0 == r.aci0 && t.aci1 == r.aci1
           else t.aci0 == 0 && t.aci1 == 0
    ensures !ok ==> out == [] && limit < 2 * |pairs|
  {
    var index := new FixedSet.FixedSet<Pair>(hash, 4096, 36, limit);
    ok := LoadPairs(index, pairs);
    out := [];
    if ok {
      assert index.Keys() == Listed(pairs);
      ListedIn(pairs);
      out := CreateTriples(index, response);
    }
  }
}
