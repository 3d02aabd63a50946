/** Directory replication: the change filter of FilterCdsUpdatesHandler.java, the snapshot of
    DynamoDbAccountPopulator.java, and what it takes for records on the stream to bring a directory to
    the account table they follow. */
module Directory {
  import opened Options

  type E164 = nat
  type Uuid = nat

  datatype Account = Account(e164: Option<E164>, canonicallyDiscoverable: bool, pni: Option<nat>, uak: Option<nat>)
  datatype Entry = Entry(aci: Uuid, pni: nat, uak: Option<nat>)

  type Table = map<Uuid, Account>
  type Mirror = map<E164, Entry>

  // An account image is absent, or present with its attributes.
  function Image(t: Table, u: Uuid): Option<Account> { if u in t then Some(t[u]) else None }

  // Phone numbers are unique, and an account has a PNI exactly when it has a number.
  ghost predicate ValidTable(t: Table) {
    && (forall u :: u in t ==> (t[u].e164.Some? <==> t[u].pni.Some?))
    && (forall u, v :: u in t && v in t && t[u].e164.Some? && t[u].e164 == t[v].e164 ==> u == v)
  }

  function EntryOf(u: Uuid, a: Account): Entry
    requires a.pni.Some?
  {
    Entry(u, a.pni.value, a.uak)
  }

  // ----- the filter

  datatype Update = Update(uuid: Uuid, account: Account)

  function ForceNotInCds(a: Account): Account { a.(canonicallyDiscoverable := false) }

  /** dbUpdatesFor; a stream record has at least one of the two images. */
  function DbUpdatesFor(before: Option<Account>, after: Option<Account>): seq<Account> {
    match (before, after)
    case (None, None) => []
    case (None, Some(n)) => [n]
    case (Some(o), None) => [ForceNotInCds(o)]
    case (Some(o), Some(n)) =>
      if o.e164 != n.e164 then [ForceNotInCds(o), n]
      else if o != n then [n]
      else []
  }

  predicate Relayed(a: Account) { a.e164.Some? && a.pni.Some? }

  // What a list of accounts puts on the stream.
  function Emitted(u: Uuid, accounts: seq<Account>): seq<Update> {
    if accounts == [] then []
    else (if Relayed(accounts[0]) then [Update(u, accounts[0])] else []) + Emitted(u, accounts[1..])
  }

  lemma {:induction false} EmittedAppend(u: Uuid, a: seq<Account>, x: Account)
    ensures Emitted(u, a + [x]) == Emitted(u, a) + (if Relayed(x) then [Update(u, x)] else [])
  {
    if a == [] {
      assert (a + [x])[1..] == [];
    } else {
      EmittedAppend(u, a[1..], x);
      assert (a + [x])[1..] == a[1..] + [x];
    }
  }

  /** processRecord: puts the relevant updates of one change on the stream, in order.  The put after
      `puts` successful ones fails, if there is one; it may have `landed` all the same. */
  method ProcessRecord(u: Uuid, before: Option<Account>, after: Option<Account>, puts: nat, landed: bool)
    returns (stream: seq<Update>, ok: bool)
    ensures var all := Emitted(u, DbUpdatesFor(before, after));
      && (ok <==> |all| <= puts) && (ok ==> stream == all)
      && (!ok ==> stream == all[..if landed then puts + 1 else puts])
  {
    var updates := DbUpdatesFor(before, after);
    ghost var all := Emitted(u, updates);
    stream := [];
    var i := 0;
    assert updates[..0] == [];
    while i < |updates|
      invariant 0 <= i <= |updates| && |stream| <= puts
      invariant stream == Emitted(u, updates[..i]) && Emitted(u, updates[..i]) <= all
    {
      EmittedAppend(u, updates[..i], updates[i]);
      assert updates[..i + 1] == updates[..i] + [updates[i]];
      EmittedPrefix(u, updates, i + 1);
      if !(updates[i].e164.None? || updates[i].pni.None?) {
        if |stream| == puts {
          assert all[..puts] == stream && all[..puts + 1] == stream + [Update(u, updates[i])];
          return if landed then stream + [Update(u, updates[i])] else stream, false;
        }
        stream := stream + [Update(u, updates[i])];
      }
      i := i + 1;
    }
    assert updates[..i] == updates;
    ok := true;
  }

  lemma {:induction false} EmittedPrefix(u: Uuid, accounts: seq<Account>, n: nat)
    requires n <= |accounts|
    ensures Emitted(u, accounts[..n]) <= Emitted(u, accounts)
    decreases |accounts| - n
  {
    if n == |accounts| {
      assert accounts[..n] == accounts;
    } else {
      EmittedPrefix(u, accounts, n + 1);
      EmittedAppend(u, accounts[..n], accounts[n]);
      assert accounts[..n + 1] == accounts[..n] + [accounts[n]];
    }
  }

  // ----- the mirror

  // One directory entry: an insertion or, for an account that is not discoverable, a deletion.
  function Load(m: Mirror, x: Update): Mirror
    requires Relayed(x.account)
  {
    if x.account.canonicallyDiscoverable then m[x.account.e164.value := EntryOf(x.uuid, x.account)]
    else m - {x.account.e164.value}
  }

  predicate AllRelayed(xs: seq<Update>) { forall i :: 0 <= i < |xs| ==> Relayed(xs[i].account) }

  function LoadAll(m: Mirror, xs: seq<Update>): Mirror
    requires AllRelayed(xs)
  {
    if xs == [] then m else Load(LoadAll(m, xs[..|xs| - 1]), xs[|xs| - 1])
  }

  lemma {:induction false} EmittedRelayed(u: Uuid, accounts: seq<Account>)
    ensures AllRelayed(Emitted(u, accounts))
  {
    if accounts != [] { EmittedRelayed(u, accounts[1..]); }
  }

  // The entry under number e shows this account: discoverable, with that PNI and that access key.
  predicate Shows(e: E164, x: Entry, a: Account) { a == Account(Some(e), true, Some(x.pni), x.uak) }

  // The directory a table stands for: its discoverable accounts by number, and nothing else.
  ghost predicate Mirrors(t: Table, m: Mirror) {
    && (forall u :: u in t && t[u].canonicallyDiscoverable && t[u].e164.Some? ==>
          t[u].e164.value in m && m[t[u].e164.value].aci == u)
    && (forall e :: e in m ==> m[e].aci in t && Shows(e, m[e], t[m[e].aci]))
  }

  /** Every valid table has a directory. */
  lemma {:induction false} MirrorOf(t: Table) returns (m: Mirror)
    requires ValidTable(t)
    ensures Mirrors(t, m)
    decreases |t|
  {
    if t == map[] {
      m := map[];
    } else {
      var u :| u in t;
      var rest := t - {u};
      assert rest.Keys == t.Keys - {u} && |rest| < |t|;
      var m0 := MirrorOf(rest);
      assert t == rest[u := t[u]];
      AddAccount(rest, u, t[u], m0);
      m := LoadIf(m0, u, t[u]);
    }
  }

  // A change of one account.
  ghost predicate Change(t: Table, u: Uuid, t': Table) {
    t - {u} == t' - {u}
  }

  function Updates(t: Table, u: Uuid, t': Table): (xs: seq<Update>)
    ensures AllRelayed(xs)
  {
    EmittedRelayed(u, DbUpdatesFor(Image(t, u), Image(t', u)));
    Emitted(u, DbUpdatesFor(Image(t, u), Image(t', u)))
  }

  /** The filter is exact: loading what it emits for a change turns the directory of the old
      table into the directory of the new one. */
  lemma FilterExact(t: Table, u: Uuid, t': Table, m: Mirror)
    requires ValidTable(t) && ValidTable(t') && Change(t, u, t') && Mirrors(t, m)
    ensures Mirrors(t', LoadAll(m, Updates(t, u, t')))
  {
    var before, after := Image(t, u), Image(t', u);
    UpdatesAsSwap(u, before, after, m);
    hide LoadAll, Emitted, DbUpdatesFor;
    if before == after {
      SameTable(t, u, t');
    } else {
      RemoveAccount(t, u, m);
      if after.Some? {
        SwapTable(t, u, t');
        AddAccount(t - {u}, u, after.value, Without(m, before));
      } else {
        assert t' == t' - {u};
      }
    }
  }

  // No account is listed under two numbers.
  ghost predicate ListedOnce(m: Mirror) {
    forall e, e' :: e in m && e' in m && m[e].aci == m[e'].aci ==> e == e'
  }

  /** Nor is it on the way: after each single update of a change no account is listed under two numbers,
      as the old number goes before the new one comes. */
  lemma NeverTwice(t: Table, u: Uuid, t': Table, m: Mirror, j: nat)
    requires ValidTable(t) && ValidTable(t') && Change(t, u, t') && Mirrors(t, m) && j <= |Updates(t, u, t')|
    ensures ListedOnce(LoadAll(m, Updates(t, u, t')[..j]))
  {
    var xs := Updates(t, u, t');
    if j == |xs| {
      assert xs[..j] == xs;
      FilterExact(t, u, t', m);
      assert Mirrors(t', LoadAll(m, xs));
    } else if j == 0 {
      assert xs[..0] == [];
    } else {
      TwoUpdates(t, u, t');
      assert xs[..1][..0] == [];
      assert LoadAll(m, xs[..1]) == m - {t[u].e164.value};
    }
  }

  lemma TwoUpdates(t: Table, u: Uuid, t': Table)
    requires |Updates(t, u, t')| > 1
    ensures |Updates(t, u, t')| == 2 && u in t && Relayed(t[u]) && Updates(t, u, t')[0] == Update(u, ForceNotInCds(t[u]))
  {
    var accounts := DbUpdatesFor(Image(t, u), Image(t', u));
    hide Emitted;
    if |accounts| == 2 {
      EmittedAppend(u, [accounts[0]], accounts[1]);
      EmittedAppend(u, [], accounts[0]);
      assert accounts == [accounts[0]] + [accounts[1]] && [] + [accounts[0]] == [accounts[0]];
    } else if |accounts| == 1 {
      EmittedAppend(u, [], accounts[0]);
      assert accounts == [] + [accounts[0]];
    }
    NoneEmitted(u);
  }

  lemma NoneEmitted(u: Uuid)
    ensures Emitted(u, []) == []
  {
  }

  lemma SameTable(t: Table, u: Uuid, t': Table)
    requires Change(t, u, t') && Image(t, u) == Image(t', u)
    ensures t == t'
  {
    forall v ensures Image(t, v) == Image(t', v) { assert Image(t - {u}, v) == Image(t' - {u}, v); }
    assert forall v :: v in t <==> Image(t, v).Some?;
    assert forall v :: v in t' <==> Image(t', v).Some?;
    forall v | v in t ensures v in t' && t'[v] == t[v] { assert Image(t, v) == Image(t', v); }
  }

  lemma SwapTable(t: Table, u: Uuid, t': Table)
    requires Change(t, u, t') && u in t'
    ensures t' == (t - {u})[u := t'[u]]
  {
    assert t' == (t' - {u})[u := t'[u]];
  }

  // The directory without the number an account had.
  function Without(m: Mirror, before: Option<Account>): Mirror {
    if before.Some? && Relayed(before.value) then m - {before.value.e164.value} else m
  }

  lemma RemoveAccount(t: Table, u: Uuid, m: Mirror)
    requires ValidTable(t) && Mirrors(t, m)
    ensures Mirrors(t - {u}, Without(m, Image(t, u)))
  {
  }

  lemma AddAccount(t: Table, u: Uuid, a: Account, m: Mirror)
    requires u !in t && ValidTable(t[u := a]) && Mirrors(t, m)
    ensures Mirrors(t[u := a], LoadIf(m, u, a))
  {
    var t' := t[u := a];
    forall v | v in t ensures t'[v] == t[v] && (a.e164.Some? ==> t[v].e164 != a.e164) { assert v in t' && u in t'; }
  }

  function Swap(m: Mirror, u: Uuid, before: Option<Account>, after: Option<Account>): Mirror {
    var m0 := Without(m, before);
    if after.Some? then LoadIf(m0, u, after.value) else m0
  }

  // The effect of the emitted updates in closed form: the old number goes, the new one comes.
  lemma UpdatesAsSwap(u: Uuid, before: Option<Account>, after: Option<Account>, m: Mirror)
    requires before.Some? ==> (before.value.e164.Some? <==> before.value.pni.Some?)
    requires after.Some? ==> (after.value.e164.Some? <==> after.value.pni.Some?)
    ensures var xs := Emitted(u, DbUpdatesFor(before, after));
      AllRelayed(xs) && LoadAll(m, xs) == if before == after then m else Swap(m, u, before, after)
  {
    var accounts := DbUpdatesFor(before, after);
    assert Emitted(u, []) == [];
    if |accounts| == 1 {
      EmittedOne(u, accounts[0], m);
      assert accounts == [accounts[0]];
    } else if |accounts| == 2 {
      EmittedTwo(u, accounts[0], accounts[1], m);
      assert accounts == [accounts[0], accounts[1]];
    }
  }

  function LoadIf(m: Mirror, u: Uuid, a: Account): Mirror { if Relayed(a) then Load(m, Update(u, a)) else m }

  lemma EmittedOne(u: Uuid, a: Account, m: Mirror)
    ensures AllRelayed(Emitted(u, [a])) && LoadAll(m, Emitted(u, [a])) == LoadIf(m, u, a)
  {
    assert [a][1..] == [] && Emitted(u, []) == [];
    var xs := Emitted(u, [a]);
    if Relayed(a) { assert xs == [Update(u, a)] && xs[..0] == []; }
  }

  lemma EmittedTwo(u: Uuid, a: Account, b: Account, m: Mirror)
    ensures AllRelayed(Emitted(u, [a, b])) && LoadAll(m, Emitted(u, [a, b])) == LoadIf(LoadIf(m, u, a), u, b)
  {
    EmittedOne(u, a, m);
    hide Emitted, Load;
    EmittedAppend(u, [a], b);
    assert [a] + [b] == [a, b];
    var xs, ys := Emitted(u, [a]), Emitted(u, [a, b]);
    if Relayed(b) { assert ys[..|ys| - 1] == xs; } else { assert ys == xs; }
  }

  // ----- histories

  // Tables one change apart from each other; who[i] is the account changed between i and i + 1.
  ghost predicate History(ts: seq<Table>, who: seq<Uuid>) {
    && |ts| == |who| + 1
    && (forall i :: 0 <= i < |ts| ==> ValidTable(ts[i]))
    && (forall i :: 0 <= i < |who| ==> Change(ts[i], who[i], ts[i + 1]))
  }

  // The records the first n changes put on the stream.
  function Stream(ts: seq<Table>, who: seq<Uuid>, n: nat): (xs: seq<Update>)
    requires n <= |who| && |ts| == |who| + 1
    ensures AllRelayed(xs)
  {
    if n == 0 then [] else Stream(ts, who, n - 1) + Updates(ts[n - 1], who[n - 1], ts[n])
  }

  lemma {:induction false} StreamPrefix(ts: seq<Table>, who: seq<Uuid>, k: nat, n: nat)
    requires k <= n <= |who| && |ts| == |who| + 1
    ensures Stream(ts, who, k) <= Stream(ts, who, n)
  {
    if k < n { StreamPrefix(ts, who, k, n - 1); }
  }

  predicate Touches(xs: seq<Update>, e: E164) {
    exists i :: 0 <= i < |xs| && xs[i].account.e164 == Some(e)
  }

  lemma TouchesSplit(xs: seq<Update>, ys: seq<Update>, e: E164)
    ensures Touches(xs + ys, e) <==> Touches(xs, e) || Touches(ys, e)
  {
    var s := xs + ys;
    if Touches(xs, e) { var i :| 0 <= i < |xs| && xs[i].account.e164 == Some(e); assert s[i].account.e164 == Some(e); }
    if Touches(ys, e) {
      var i :| 0 <= i < |ys| && ys[i].account.e164 == Some(e);
      assert s[|xs| + i].account.e164 == Some(e);
    }
    if Touches(s, e) {
      var i :| 0 <= i < |s| && s[i].account.e164 == Some(e);
      if i < |xs| { assert xs[i].account.e164 == Some(e); } else { assert ys[i - |xs|].account.e164 == Some(e); }
    }
  }

  predicate Same(m: Mirror, g: Mirror, e: E164) {
    (e in m <==> e in g) && (e in m ==> m[e] == g[e])
  }

  lemma {:induction false} LoadAllJoin(m: Mirror, xs: seq<Update>, ys: seq<Update>)
    requires AllRelayed(xs) && AllRelayed(ys)
    ensures LoadAll(LoadAll(m, xs), ys) == LoadAll(m, xs + ys)
  {
    if ys == [] {
      assert xs + ys == xs;
    } else {
      var n := |ys| - 1;
      LoadAllJoin(m, xs, ys[..n]);
      assert (xs + ys)[..|xs + ys| - 1] == xs + ys[..n];
    }
  }

  // A loaded number is as the last update left it; an untouched one is as before.
  lemma {:induction false} LoadAllAgrees(m: Mirror, g: Mirror, xs: seq<Update>, e: E164)
    requires AllRelayed(xs) && (Same(m, g, e) || Touches(xs, e))
    ensures Same(LoadAll(m, xs), LoadAll(g, xs), e)
  {
    if xs != [] {
      var n := |xs| - 1;
      if xs[n].account.e164 != Some(e) {
        if Touches(xs, e) && !Same(m, g, e) {
          var i :| 0 <= i < |xs| && xs[i].account.e164 == Some(e);
          assert xs[..n][i].account.e164 == Some(e);
        }
        LoadAllAgrees(m, g, xs[..n], e);
      }
    }
  }

  lemma {:induction false} LoadAllUntouched(m: Mirror, xs: seq<Update>, e: E164)
    requires AllRelayed(xs) && !Touches(xs, e)
    ensures Same(LoadAll(m, xs), m, e)
  {
    if xs != [] {
      var n := |xs| - 1;
      forall i | 0 <= i < n ensures xs[..n][i].account.e164 != Some(e) { assert xs[i].account.e164 != Some(e); }
      LoadAllUntouched(m, xs[..n], e);
      assert xs[n].account.e164 != Some(e);
    }
  }

  // From the directory of the first table, the stream leads to the directory of every later one.
  lemma {:induction false} StreamMirrors(g: Mirror, ts: seq<Table>, who: seq<Uuid>, n: nat)
    requires History(ts, who) && n <= |who| && Mirrors(ts[0], g)
    ensures Mirrors(ts[n], LoadAll(g, Stream(ts, who, n)))
  {
    if n > 0 {
      StreamMirrors(g, ts, who, n - 1);
      FilterExact(ts[n - 1], who[n - 1], ts[n], LoadAll(g, Stream(ts, who, n - 1)));
      LoadAllJoin(g, Stream(ts, who, n - 1), Updates(ts[n - 1], who[n - 1], ts[n]));
    }
  }

  // ----- records out of a stream

  // The directory after the first k records, from where the stream began.
  function At(g: Mirror, xs: seq<Update>, k: nat): Mirror
    requires AllRelayed(xs) && k <= |xs|
  {
    LoadAll(g, xs[..k])
  }

  // m may still be wrong about the numbers that records from q on mention, and about no other.
  ghost predicate RightFrom(g: Mirror, xs: seq<Update>, q: nat, m: Mirror)
    requires AllRelayed(xs) && q <= |xs|
  {
    forall e :: !Touches(xs[q..], e) ==> Same(m, LoadAll(g, xs), e)
  }

  lemma AtEnd(g: Mirror, xs: seq<Update>, k: nat, e: E164)
    requires AllRelayed(xs) && k <= |xs| && !Touches(xs[k..], e)
    ensures Same(At(g, xs, k), LoadAll(g, xs), e)
  {
    assert xs == xs[..k] + xs[k..];
    LoadAllJoin(g, xs[..k], xs[k..]);
    LoadAllUntouched(At(g, xs, k), xs[k..], e);
  }

  lemma DeliverOne(g: Mirror, xs: seq<Update>, q: nat, a: nat, b: nat, m: Mirror, e: E164)
    requires AllRelayed(xs) && q <= |xs| && a <= b <= |xs| && RightFrom(g, xs, q, m) && !Touches(xs[b..], e)
    requires Touches(xs[a..b], e) || !Touches(xs[q..], e)
    ensures Same(LoadAll(m, xs[a..b]), LoadAll(g, xs), e)
  {
    if Touches(xs[a..b], e) {
      LoadAllAgrees(m, At(g, xs, a), xs[a..b], e);
      LoadAllJoin(g, xs[..a], xs[a..b]);
      assert xs[..a] + xs[a..b] == xs[..b];
      AtEnd(g, xs, b, e);
    } else {
      LoadAllUntouched(m, xs[a..b], e);
    }
  }

  // Everything the records q .. a - 1 mention is mentioned again later.
  ghost predicate Repeated(xs: seq<Update>, q: nat, a: nat)
    requires q <= |xs| && a <= |xs|
  {
    forall e :: q <= a && Touches(xs[q..a], e) ==> Touches(xs[a..], e)
  }

  lemma DeliverRight(g: Mirror, xs: seq<Update>, q: nat, a: nat, b: nat, m: Mirror)
    requires AllRelayed(xs) && q <= |xs| && a <= b <= |xs| && RightFrom(g, xs, q, m) && Repeated(xs, q, a)
    ensures RightFrom(g, xs, b, LoadAll(m, xs[a..b]))
  {
    assert AllRelayed(xs[a..b]);
    hide LoadAll, Touches, Same, AllRelayed;
    forall e | !Touches(xs[b..], e)
      ensures Same(LoadAll(m, xs[a..b]), LoadAll(g, xs), e)
    {
      if !Touches(xs[a..b], e) { Between(xs, q, a, b, e); }
      DeliverOne(g, xs, q, a, b, m, e);
    }
  }

  lemma Between(xs: seq<Update>, q: nat, a: nat, b: nat, e: E164)
    requires q <= |xs| && a <= b <= |xs| && Repeated(xs, q, a) && !Touches(xs[b..], e) && !Touches(xs[a..b], e)
    ensures !Touches(xs[q..], e)
  {
    hide Touches;
    assert xs[a..] == xs[a..b] + xs[b..];
    TouchesSplit(xs[a..b], xs[b..], e);
    if q <= a {
      assert xs[q..] == xs[q..a] + xs[a..];
      TouchesSplit(xs[q..a], xs[a..], e);
    } else {
      assert xs[a..] == xs[a..q] + xs[q..];
      TouchesSplit(xs[a..q], xs[q..], e);
    }
  }

  // A directory that differs from the final one in just this number.
  lemma WrongAbout(g: Mirror, xs: seq<Update>, q: nat, e: E164) returns (m: Mirror)
    requires AllRelayed(xs) && q <= |xs| && Touches(xs[q..], e)
    ensures RightFrom(g, xs, q, m) && !Same(m, LoadAll(g, xs), e)
  {
    var end := LoadAll(g, xs);
    m := if e in end then end - {e} else end[e := Entry(0, 0, None)];
  }

  /** Delivering the records a .. b - 1 to a directory that is right from q on makes it right from b
      on, whatever it was wrong about, if and only if nothing is skipped that is not repeated later. */
  lemma DeliverIff(g: Mirror, xs: seq<Update>, q: nat, a: nat, b: nat)
    requires AllRelayed(xs) && q <= |xs| && a <= b <= |xs|
    ensures (forall m :: RightFrom(g, xs, q, m) ==> RightFrom(g, xs, b, LoadAll(m, xs[a..b]))) <==> Repeated(xs, q, a)
  {
    assert AllRelayed(xs[a..b]);
    hide LoadAll, Touches, Same, AllRelayed, RightFrom;
    if Repeated(xs, q, a) {
      forall m | RightFrom(g, xs, q, m)
        ensures RightFrom(g, xs, b, LoadAll(m, xs[a..b]))
      {
        DeliverRight(g, xs, q, a, b, m);
      }
    } else {
      var e :| q <= a && Touches(xs[q..a], e) && !Touches(xs[a..], e);
      SkippedStaysWrong(g, xs, q, a, b, e);
    }
  }

  lemma SkippedStaysWrong(g: Mirror, xs: seq<Update>, q: nat, a: nat, b: nat, e: E164)
    requires AllRelayed(xs) && q <= a <= b <= |xs| && Touches(xs[q..a], e) && !Touches(xs[a..], e)
    ensures exists m :: RightFrom(g, xs, q, m) && !RightFrom(g, xs, b, LoadAll(m, xs[a..b]))
  {
    assert AllRelayed(xs[a..b]);
    hide Touches, AllRelayed;
    assert xs[q..] == xs[q..a] + xs[a..] && xs[a..] == xs[a..b] + xs[b..];
    TouchesSplit(xs[q..a], xs[a..], e);
    TouchesSplit(xs[a..b], xs[b..], e);
    var m := WrongAbout(g, xs, q, e);
    LoadAllUntouched(m, xs[a..b], e);
    assert !Same(LoadAll(m, xs[a..b]), LoadAll(g, xs), e);
    assert RightFrom(g, xs, q, m) && !RightFrom(g, xs, b, LoadAll(m, xs[a..b]));
  }

  // ----- the snapshot

  // A scan sees every account at one moment between p and n.
  ghost predicate Scan(ts: seq<Table>, p: nat, n: nat, seen: map<Uuid, nat>) {
    && p <= n < |ts|
    && (forall u :: u in seen ==> p <= seen[u] <= n)
    && (forall k, u :: p <= k <= n && u in ts[k] ==> u in seen)
  }

  // u as the scan saw it is discoverable under e.
  predicate Saw(ts: seq<Table>, seen: map<Uuid, nat>, u: Uuid, e: E164) {
    && u in seen && seen[u] < |ts| && u in ts[seen[u]]
    && var a := ts[seen[u]][u]; a.canonicallyDiscoverable && a.pni.Some? && a.e164 == Some(e)
  }

  // What loading the scanned accounts in any order may leave: for every number someone was seen
  // with, the entry of one of them.
  ghost predicate Snapshot(ts: seq<Table>, seen: map<Uuid, nat>, m: Mirror) {
    && (forall e :: e in m ==> Saw(ts, seen, m[e].aci, e) && Shows(e, m[e], ts[seen[m[e].aci]][m[e].aci]))
    && (forall u, e :: Saw(ts, seen, u, e) ==> e in m)
  }

  /** getAccountSnapshot and the load of its entries, for any order the segments deliver. */
  method LoadSnapshot(ts: seq<Table>, seen: map<Uuid, nat>, order: seq<Uuid>) returns (m: Mirror)
    requires forall u :: u in seen ==> seen[u] < |ts|
    requires forall u :: u in order <==> u in seen
    ensures Snapshot(ts, seen, m)
  {
    m := map[];
    for i := 0 to |order|
      invariant forall e :: e in m ==>
        Saw(ts, seen, m[e].aci, e) && Shows(e, m[e], ts[seen[m[e].aci]][m[e].aci])
      invariant forall u, e :: u in order[..i] && Saw(ts, seen, u, e) ==> e in m
    {
      var u := order[i];
      assert u in order;
      var t := ts[seen[u]];
      if u in t && t[u].canonicallyDiscoverable && t[u].e164.Some? && t[u].pni.Some? {
        m := m[t[u].e164.value := EntryOf(u, t[u])];
      }
    }
    forall u, e | Saw(ts, seen, u, e) ensures e in m { assert u in order; }
  }

  // Where in the stream the changes from k on begin, and what the directory is there.
  lemma StreamAt(g: Mirror, ts: seq<Table>, who: seq<Uuid>, k: nat, n: nat, e: E164)
    requires History(ts, who) && k <= n <= |who| && Mirrors(ts[0], g)
    ensures |Stream(ts, who, k)| <= |Stream(ts, who, n)| && Mirrors(ts[k], LoadAll(g, Stream(ts, who, k)))
    ensures !Touches(Stream(ts, who, n)[|Stream(ts, who, k)|..], e) ==>
      Same(LoadAll(g, Stream(ts, who, k)), LoadAll(g, Stream(ts, who, n)), e)
  {
    hide Mirrors, LoadAll, Touches, Same, Stream;
    StreamPrefix(ts, who, k, n);
    StreamMirrors(g, ts, who, k);
    var xs, q := Stream(ts, who, n), |Stream(ts, who, k)|;
    assert xs[..q] == Stream(ts, who, k);
    if !Touches(xs[q..], e) { AtEnd(g, xs, q, e); }
  }

  lemma LaterUntouched(ts: seq<Table>, who: seq<Uuid>, p: nat, k: nat, n: nat, e: E164)
    requires p <= k <= n <= |who| && |ts| == |who| + 1
    ensures |Stream(ts, who, p)| <= |Stream(ts, who, k)| <= |Stream(ts, who, n)|
    ensures !Touches(Stream(ts, who, n)[|Stream(ts, who, p)|..], e) ==> !Touches(Stream(ts, who, n)[|Stream(ts, who, k)|..], e)
  {
    hide Stream, Touches;
    StreamPrefix(ts, who, p, k);
    StreamPrefix(ts, who, k, n);
    var xs, q, r := Stream(ts, who, n), |Stream(ts, who, p)|, |Stream(ts, who, k)|;
    assert xs[q..] == xs[q..r] + xs[r..];
    TouchesSplit(xs[q..r], xs[r..], e);
  }

  // At any moment of the scan a number the later records do not mention is as in the end.
  lemma Steady(g: Mirror, ts: seq<Table>, who: seq<Uuid>, p: nat, k: nat, n: nat, e: E164) returns (gk: Mirror)
    requires History(ts, who) && p <= k <= n <= |who| && Mirrors(ts[0], g)
    requires |Stream(ts, who, p)| <= |Stream(ts, who, n)| && !Touches(Stream(ts, who, n)[|Stream(ts, who, p)|..], e)
    ensures Mirrors(ts[k], gk) && Same(gk, LoadAll(g, Stream(ts, who, n)), e)
  {
    hide Mirrors, LoadAll, Touches, Same, Stream;
    LaterUntouched(ts, who, p, k, n, e);
    StreamAt(g, ts, who, k, n, e);
    gk := LoadAll(g, Stream(ts, who, k));
  }

  /** A scan that sees each account at some moment from change p to change n, loaded in any order.  Let
      zs be what has come on the stream once it has brought all of the first k changes, however
      mixed up on the way, everything that the changes from p on touch being mentioned from q on.  Then
      the scan is right about every number the records from q on do not mention. */
  lemma SnapshotRight(
    g: Mirror, ts: seq<Table>, who: seq<Uuid>, p: nat, n: nat, k: nat, seen: map<Uuid, nat>, m: Mirror, zs: seq<Update>, q: nat)
    requires History(ts, who) && n <= k <= |who| && Mirrors(ts[0], g) && Scan(ts, p, n, seen) && Snapshot(ts, seen, m)
    requires AllRelayed(zs) && q <= |zs| && LoadAll(g, zs) == LoadAll(g, Stream(ts, who, k))
    requires |Stream(ts, who, p)| <= |Stream(ts, who, k)|
    requires forall e :: Touches(Stream(ts, who, k)[|Stream(ts, who, p)|..], e) ==> Touches(zs[q..], e)
    ensures RightFrom(g, zs, q, m)
  {
    hide LoadAll, Touches, Stream;
    var end := LoadAll(g, zs);
    forall e | !Touches(zs[q..], e)
      ensures Same(m, end, e)
    {
      assert !Touches(Stream(ts, who, k)[|Stream(ts, who, p)|..], e);
      if e in m {
        var gk := Steady(g, ts, who, p, seen[m[e].aci], k, e);
      }
      if e in end {
        var gp := Steady(g, ts, who, p, p, k, e);
        var u := gp[e].aci;
        assert u in ts[p] && u in seen;
        var gk := Steady(g, ts, who, p, seen[u], k, e);
        assert Saw(ts, seen, u, e);
      }
    }
  }

  lemma RightAtEnd(g: Mirror, xs: seq<Update>, m: Mirror)
    requires AllRelayed(xs)
    ensures RightFrom(g, xs, |xs|, m) <==> m == LoadAll(g, xs)
  {
    assert xs[|xs|..] == [];
    if RightFrom(g, xs, |xs|, m) {
      forall e ensures Same(m, LoadAll(g, xs), e) { assert !Touches([], e); }
      SameEverywhere(m, LoadAll(g, xs));
    }
  }

  lemma SameEverywhere(m: Mirror, g: Mirror)
    requires forall e :: Same(m, g, e)
    ensures m == g
  {
    forall e | e in m ensures e in g && g[e] == m[e] { assert Same(m, g, e); }
    forall e | e in g ensures e in m { assert Same(m, g, e); }
  }

  /** Once there, delivering again from any earlier record changes nothing in the end. */
  lemma RedeliveryHarmless(g: Mirror, xs: seq<Update>, a: nat)
    requires AllRelayed(xs) && a <= |xs|
    ensures LoadAll(LoadAll(g, xs), xs[a..]) == LoadAll(g, xs)
  {
    hide LoadAll, RightFrom;
    RightAtEnd(g, xs, LoadAll(g, xs));
    assert Repeated(xs, |xs|, a) by { assert a == |xs| ==> xs[|xs|..a] == []; }
    DeliverRight(g, xs, |xs|, a, |xs|, LoadAll(g, xs));
    assert xs[a..|xs|] == xs[a..];
    RightAtEnd(g, xs, LoadAll(LoadAll(g, xs), xs[a..]));
  }

  lemma LoadOne(m: Mirror, x: Update)
    requires Relayed(x.account)
    ensures LoadAll(m, [x]) == Load(m, x)
  {
    assert [x][..0] == [];
  }

  // More records behind the others do no harm.
  lemma RightGrows(g: Mirror, xs: seq<Update>, more: seq<Update>, q: nat, m: Mirror)
    requires AllRelayed(xs) && AllRelayed(more) && q <= |xs| && RightFrom(g, xs, q, m)
    ensures AllRelayed(xs + more) && RightFrom(g, xs + more, q, m)
  {
    var ys := xs + more;
    LoadAllJoin(g, xs, more);
    forall e | !Touches(ys[q..], e)
      ensures Same(m, LoadAll(g, ys), e)
    {
      assert ys[q..] == xs[q..] + more;
      TouchesSplit(xs[q..], more, e);
      LoadAllUntouched(LoadAll(g, xs), more, e);
    }
  }

  // Nor do records out of place about numbers that are mentioned again later.
  lemma RightAnyway(g: Mirror, xs: seq<Update>, q: nat, m: Mirror, extra: seq<Update>)
    requires AllRelayed(xs) && AllRelayed(extra) && q <= |xs| && RightFrom(g, xs, q, m)
    requires forall e :: Touches(extra, e) ==> Touches(xs[q..], e)
    ensures RightFrom(g, xs, q, LoadAll(m, extra))
  {
    forall e | !Touches(xs[q..], e)
      ensures Same(LoadAll(m, extra), LoadAll(g, xs), e)
    {
      LoadAllUntouched(m, extra, e);
    }
  }
}
