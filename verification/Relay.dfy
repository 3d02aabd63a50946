/** The change filter under failures: FilterCdsUpdatesHandler.handleRequest goes on behind a record it
    cannot relay and reports it, and the batch is offered again from the first such record on. */
module Relay {
  import opened Options
  import opened Directory

  // What became of one record of a batch: how many of its updates reached the stream, and whether
  // it was reported as done.
  datatype Try = Try(sent: nat, ok: bool)

  // One invocation, on the changes from `from` on.
  datatype Pass = Pass(from: nat, tries: seq<Try>)

  // The updates of change number k.
  function Relays(ts: seq<Table>, who: seq<Uuid>, k: nat): (xs: seq<Update>)
    requires k < |who| && |ts| == |who| + 1
    ensures AllRelayed(xs)
  {
    Updates(ts[k], who[k], ts[k + 1])
  }

  predicate ValidTries(ts: seq<Table>, who: seq<Uuid>, k: nat, tries: seq<Try>)
    requires |ts| == |who| + 1
    decreases |tries|
  {
    tries != [] ==>
      && k < |who| && tries[0].sent <= |Relays(ts, who, k)| && (tries[0].ok ==> tries[0].sent == |Relays(ts, who, k)|)
      && ValidTries(ts, who, k + 1, tries[1..])
  }

  // What a pass over the changes from k on puts on the stream.
  function Sent(ts: seq<Table>, who: seq<Uuid>, k: nat, tries: seq<Try>): (xs: seq<Update>)
    requires |ts| == |who| + 1 && ValidTries(ts, who, k, tries)
    ensures AllRelayed(xs)
    decreases |tries|
  {
    if tries == [] then [] else Relays(ts, who, k)[..tries[0].sent] + Sent(ts, who, k + 1, tries[1..])
  }

  // Where the next pass begins: at the first record reported as failed, or behind the batch.
  function FirstFailed(k: nat, tries: seq<Try>): (f: nat)
    ensures k <= f <= k + |tries|
    decreases |tries|
  {
    if tries == [] || !tries[0].ok then k else FirstFailed(k + 1, tries[1..])
  }

  datatype Fault = Fault(puts: nat, landed: bool)

  // What a fault makes of a record with n updates.
  function Outcome(n: nat, f: Fault): Try {
    if n <= f.puts then Try(n, true) else Try(if f.landed then f.puts + 1 else f.puts, false)
  }

  function Outcomes(ts: seq<Table>, who: seq<Uuid>, k: nat, faults: seq<Fault>): (tries: seq<Try>)
    requires |ts| == |who| + 1 && k + |faults| <= |who|
    ensures |tries| == |faults| && ValidTries(ts, who, k, tries)
    decreases |faults|
  {
    if faults == [] then [] else [Outcome(|Relays(ts, who, k)|, faults[0])] + Outcomes(ts, who, k + 1, faults[1..])
  }

  /** handleRequest on the changes from k on, with whatever faults: what it puts on the stream, and
      the records it reports: those with more updates than puts that went through, the first of them
      being where the next pass begins. */
  method HandleRequest(ts: seq<Table>, who: seq<Uuid>, k: nat, faults: seq<Fault>) returns (stream: seq<Update>, failures: seq<nat>)
    requires |ts| == |who| + 1 && k + |faults| <= |who|
    ensures stream == Sent(ts, who, k, Outcomes(ts, who, k, faults))
    ensures FirstFailed(k, Outcomes(ts, who, k, faults)) == if failures == [] then k + |faults| else failures[0]
    ensures forall i :: 0 <= i < |failures| ==> k <= failures[i] < k + |faults|
    ensures forall c :: k <= c < k + |faults| ==> (c in failures <==> |Relays(ts, who, c)| > faults[c - k].puts)
  {
    hide Emitted, DbUpdatesFor, Relays, Sent, Outcomes, FirstFailed, ValidTries;
    stream, failures := [], [];
    var i := 0;
    ghost var left := Sent(ts, who, k, Outcomes(ts, who, k, faults));
    assert faults[0..] == faults && [] + left == left;
    while i < |faults|
      invariant 0 <= i <= |faults| && left == Sent(ts, who, k + i, Outcomes(ts, who, k + i, faults[i..]))
      invariant stream + left == Sent(ts, who, k, Outcomes(ts, who, k, faults))
      invariant forall j :: 0 <= j < |failures| ==> k <= failures[j] < k + i
      invariant forall c :: k <= c < k + i ==> (c in failures <==> |Relays(ts, who, c)| > faults[c - k].puts)
      invariant FirstFailed(k, Outcomes(ts, who, k, faults)) ==
        if failures == [] then FirstFailed(k + i, Outcomes(ts, who, k + i, faults[i..])) else failures[0]
    {
      var c := k + i;
      var part, ok := TryRecord(ts, who, c, faults[i]);
      assert faults[i..][0] == faults[i] && faults[i..][1..] == faults[i + 1..];
      OutcomesStep(ts, who, c, faults[i..]);
      left := Sent(ts, who, c + 1, Outcomes(ts, who, c + 1, faults[i + 1..]));
      assert stream + (part + left) == (stream + part) + left;
      stream := stream + part;
      if !ok {
        failures := failures + [c];
      }
      i := i + 1;
    }
    assert faults[i..] == [];
    OutcomesNone(ts, who, k + i);
    assert stream + [] == stream;
  }

  // One turn: processRecord inside its try block.
  method TryRecord(ts: seq<Table>, who: seq<Uuid>, c: nat, f: Fault) returns (part: seq<Update>, ok: bool)
    requires |ts| == |who| + 1 && c < |who|
    ensures var t := Outcome(|Relays(ts, who, c)|, f);
      t.sent <= |Relays(ts, who, c)| && part == Relays(ts, who, c)[..t.sent] && ok == t.ok
  {
    part, ok := ProcessRecord(who[c], Image(ts[c], who[c]), Image(ts[c + 1], who[c]), f.puts, f.landed);
    hide Emitted, DbUpdatesFor;
    assert ok ==> Relays(ts, who, c)[..|Relays(ts, who, c)|] == Relays(ts, who, c);
  }

  lemma OutcomesNone(ts: seq<Table>, who: seq<Uuid>, k: nat)
    requires |ts| == |who| + 1 && k <= |who|
    ensures Outcomes(ts, who, k, []) == [] && Sent(ts, who, k, []) == [] && FirstFailed(k, []) == k
  {
  }

  lemma OutcomesStep(ts: seq<Table>, who: seq<Uuid>, k: nat, faults: seq<Fault>)
    requires |ts| == |who| + 1 && k + |faults| <= |who| && faults != []
    ensures var n := |Relays(ts, who, k)|;
      var t := Outcome(n, faults[0]);
      && t.sent <= n && Sent(ts, who, k, Outcomes(ts, who, k, faults)) ==
           Relays(ts, who, k)[..t.sent] + Sent(ts, who, k + 1, Outcomes(ts, who, k + 1, faults[1..]))
      && FirstFailed(k, Outcomes(ts, who, k, faults)) ==
           if t.ok then FirstFailed(k + 1, Outcomes(ts, who, k + 1, faults[1..])) else k
  {
    var t := Outcomes(ts, who, k, faults);
    assert t[1..] == Outcomes(ts, who, k + 1, faults[1..]);
    hide Updates;
  }

  // ----- passes one after the other

  // Every pass begins where the one before it failed first, or ended.
  predicate Chained(ts: seq<Table>, who: seq<Uuid>, d: nat, ps: seq<Pass>)
    requires |ts| == |who| + 1
    decreases |ps|
  {
    ps != [] ==>
      && ps[0].from == d && d + |ps[0].tries| <= |who| && ValidTries(ts, who, d, ps[0].tries)
      && Chained(ts, who, FirstFailed(d, ps[0].tries), ps[1..])
  }

  function RelayStream(ts: seq<Table>, who: seq<Uuid>, d: nat, ps: seq<Pass>): (xs: seq<Update>)
    requires |ts| == |who| + 1 && Chained(ts, who, d, ps)
    ensures AllRelayed(xs)
    decreases |ps|
  {
    if ps == [] then []
    else Sent(ts, who, d, ps[0].tries) + RelayStream(ts, who, FirstFailed(d, ps[0].tries), ps[1..])
  }

  // The first change not yet relayed for good, and the first not yet tried.
  function Settled(d: nat, ps: seq<Pass>): nat
    decreases |ps|
  {
    if ps == [] then d else Settled(FirstFailed(d, ps[0].tries), ps[1..])
  }

  function Tried(d: nat, hi: nat, ps: seq<Pass>): nat
    decreases |ps|
  {
    if ps == [] then hi
    else
      var to := d + |ps[0].tries|;
      Tried(FirstFailed(d, ps[0].tries), if to > hi then to else hi, ps[1..])
  }

  lemma {:induction false} TriedBounds(ts: seq<Table>, who: seq<Uuid>, d: nat, hi: nat, ps: seq<Pass>)
    requires |ts| == |who| + 1 && Chained(ts, who, d, ps) && d <= hi <= |who|
    ensures d <= Settled(d, ps) <= Tried(d, hi, ps) <= |who| && hi <= Tried(d, hi, ps)
    decreases |ps|
  {
    if ps != [] {
      var to := d + |ps[0].tries|;
      TriedBounds(ts, who, FirstFailed(d, ps[0].tries), if to > hi then to else hi, ps[1..]);
    }
  }

  // A pass puts all of the changes before its first failure on the stream, in order; what comes
  // behind are updates of changes from there on.
  lemma {:induction false} SentSplits(ts: seq<Table>, who: seq<Uuid>, k: nat, tries: seq<Try>) returns (extra: seq<Update>)
    requires |ts| == |who| + 1 && k + |tries| <= |who| && ValidTries(ts, who, k, tries)
    ensures var f := FirstFailed(k, tries);
      && |Stream(ts, who, k)| <= |Stream(ts, who, f)| && AllRelayed(extra)
      && Sent(ts, who, k, tries) == Stream(ts, who, f)[|Stream(ts, who, k)|..] + extra
      && forall e :: Touches(extra, e) ==> TouchedBy(ts, who, f, k + |tries|, e)
    decreases |tries|
  {
    hide Relays, Touches, TouchedBy, Stream, AllRelayed;
    if tries == [] {
      extra := [];
      NothingTouches();
      assert AllRelayed([]) by { NothingRelayed(); }
      assert Stream(ts, who, k)[|Stream(ts, who, k)|..] + [] == [];
    } else if !tries[0].ok {
      extra := Sent(ts, who, k, tries);
      SentTouches(ts, who, k, tries);
      assert Stream(ts, who, k)[|Stream(ts, who, k)|..] + extra == extra;
    } else {
      extra := SentSplits(ts, who, k + 1, tries[1..]);
      var f := FirstFailed(k + 1, tries[1..]);
      StreamStep(ts, who, k, f);
      var xs, b := Stream(ts, who, f), |Stream(ts, who, k + 1)|;
      assert Relays(ts, who, k)[..tries[0].sent] == Relays(ts, who, k);
      assert Relays(ts, who, k) + (xs[b..] + extra) == Relays(ts, who, k) + xs[b..] + extra;
    }
  }

  lemma StreamStep(ts: seq<Table>, who: seq<Uuid>, k: nat, f: nat)
    requires |ts| == |who| + 1 && k < f <= |who|
    ensures |Stream(ts, who, k)| <= |Stream(ts, who, k + 1)| <= |Stream(ts, who, f)|
    ensures Stream(ts, who, f)[|Stream(ts, who, k)|..] == Relays(ts, who, k) + Stream(ts, who, f)[|Stream(ts, who, k + 1)|..]
  {
    StreamLast(ts, who, k);
    hide Stream, Relays;
    StreamPrefix(ts, who, k + 1, f);
    Behind(Stream(ts, who, f), Stream(ts, who, k), Relays(ts, who, k));
  }

  lemma StreamLast(ts: seq<Table>, who: seq<Uuid>, k: nat)
    requires |ts| == |who| + 1 && k < |who|
    ensures Stream(ts, who, k + 1) == Stream(ts, who, k) + Relays(ts, who, k)
  {
    hide Updates;
  }

  lemma Behind(xs: seq<Update>, a: seq<Update>, b: seq<Update>)
    requires a + b <= xs
    ensures xs[|a|..] == b + xs[|a + b|..]
  {
    assert xs == a + b + xs[|a + b|..];
  }

  lemma NothingRelayed()
    ensures AllRelayed([])
  {
  }

  lemma NothingTouches()
    ensures forall e :: !Touches([], e)
  {
  }

  // Some change from a to b - 1 mentions the number.
  ghost predicate TouchedBy(ts: seq<Table>, who: seq<Uuid>, a: nat, b: nat, e: E164)
    requires |ts| == |who| + 1 && b <= |who|
  {
    exists k: nat :: a <= k < b && Touches(Relays(ts, who, k), e)
  }

  lemma {:induction false} SentTouches(ts: seq<Table>, who: seq<Uuid>, k: nat, tries: seq<Try>)
    requires |ts| == |who| + 1 && k + |tries| <= |who| && ValidTries(ts, who, k, tries)
    ensures forall e :: Touches(Sent(ts, who, k, tries), e) ==> TouchedBy(ts, who, k, k + |tries|, e)
    decreases |tries|
  {
    hide Updates;
    if tries != [] {
      SentTouches(ts, who, k + 1, tries[1..]);
      var one, rest := Relays(ts, who, k)[..tries[0].sent], Sent(ts, who, k + 1, tries[1..]);
      forall e: E164 | Touches(one + rest, e)
        ensures TouchedBy(ts, who, k, k + |tries|, e)
      {
        TouchesSplit(one, rest, e);
        if Touches(one, e) {
          var i :| 0 <= i < |one| && one[i].account.e164 == Some(e);
          assert Relays(ts, who, k)[i].account.e164 == Some(e);
        }
      }
    }
  }

  // A change is on the stream of all changes.
  lemma {:induction false} StreamTouches(ts: seq<Table>, who: seq<Uuid>, a: nat, b: nat, e: E164)
    requires |ts| == |who| + 1 && a <= b <= |who|
    ensures |Stream(ts, who, a)| <= |Stream(ts, who, b)|
    ensures Touches(Stream(ts, who, b)[|Stream(ts, who, a)|..], e) <==> TouchedBy(ts, who, a, b, e)
    decreases b
  {
    hide Updates, Touches;
    StreamPrefix(ts, who, a, b);
    var q := |Stream(ts, who, a)|;
    if a == b {
      assert Stream(ts, who, b)[q..] == [];
      TouchesNone(e);
    } else {
      StreamTouches(ts, who, a, b - 1, e);
      var xs, last := Stream(ts, who, b - 1), Relays(ts, who, b - 1);
      assert (xs + last)[q..] == xs[q..] + last;
      TouchesSplit(xs[q..], last, e);
      if TouchedBy(ts, who, a, b, e) && !Touches(last, e) { assert TouchedBy(ts, who, a, b - 1, e); }
      if Touches(last, e) { assert a <= b - 1 < b; }
    }
  }

  lemma TouchesNone(e: E164)
    ensures !Touches([], e)
  {
  }

  lemma NothingSkipped(xs: seq<Update>, q: nat)
    requires q <= |xs|
    ensures Repeated(xs, q, q)
  {
    assert xs[q..q] == [];
  }

  lemma WiderTouched(ts: seq<Table>, who: seq<Uuid>, a: nat, b: nat, c: nat, e: E164)
    requires |ts| == |who| + 1 && b <= c <= |who| && TouchedBy(ts, who, a, b, e)
    ensures TouchedBy(ts, who, a, c, e)
  {
  }

  // ----- what the passes bring about

  lemma PassKeeps(g: Mirror, ts: seq<Table>, who: seq<Uuid>, d: nat, hi: nat, tries: seq<Try>, m: Mirror)
    requires History(ts, who) && d <= hi <= |who| && d + |tries| <= hi && ValidTries(ts, who, d, tries)
    requires |Stream(ts, who, d)| <= |Stream(ts, who, hi)| && RightFrom(g, Stream(ts, who, hi), |Stream(ts, who, d)|, m)
    ensures var f := FirstFailed(d, tries);
      && |Stream(ts, who, f)| <= |Stream(ts, who, hi)|
      && RightFrom(g, Stream(ts, who, hi), |Stream(ts, who, f)|, LoadAll(m, Sent(ts, who, d, tries)))
  {
    hide LoadAll, Touches, RightFrom, Stream, Sent, ValidTries, Relays;
    var f := FirstFailed(d, tries);
    var extra := SentSplits(ts, who, d, tries);
    StreamPrefix(ts, who, f, hi);
    var xs, a, b := Stream(ts, who, hi), |Stream(ts, who, d)|, |Stream(ts, who, f)|;
    assert Stream(ts, who, f)[a..] == xs[a..b];
    NothingSkipped(xs, a);
    DeliverRight(g, xs, a, a, b, m);
    var part := xs[a..b];
    LoadAllJoin(m, part, extra);
    forall e | Touches(extra, e)
      ensures Touches(xs[b..], e)
    {
      StreamTouches(ts, who, f, hi, e);
      WiderTouched(ts, who, f, d + |tries|, hi, e);
    }
    RightAnyway(g, xs, b, LoadAll(m, part), extra);
  }

  // Passes keep the directory right from the first change not settled on.
  lemma {:induction false} PassesKeep(g: Mirror, ts: seq<Table>, who: seq<Uuid>, d: nat, hi: nat, ps: seq<Pass>, m: Mirror)
    requires History(ts, who) && d <= hi <= |who| && Chained(ts, who, d, ps)
    requires |Stream(ts, who, d)| <= |Stream(ts, who, hi)| && RightFrom(g, Stream(ts, who, hi), |Stream(ts, who, d)|, m)
    ensures var d', hi' := Settled(d, ps), Tried(d, hi, ps);
      && d' <= hi' <= |who| && |Stream(ts, who, d')| <= |Stream(ts, who, hi')|
      && RightFrom(g, Stream(ts, who, hi'), |Stream(ts, who, d')|, LoadAll(m, RelayStream(ts, who, d, ps)))
    decreases |ps|
  {
    hide LoadAll, RightFrom, Stream, Sent, ValidTries;
    if ps == [] {
      LoadNothing(m);
    } else {
      var tries, f := ps[0].tries, FirstFailed(d, ps[0].tries);
      var top := if d + |tries| > hi then d + |tries| else hi;
      Extend(g, ts, who, d, hi, top, m);
      PassKeeps(g, ts, who, d, top, tries, m);
      var m' := LoadAll(m, Sent(ts, who, d, tries));
      PassesKeep(g, ts, who, f, top, ps[1..], m');
      LoadAllJoin(m, Sent(ts, who, d, tries), RelayStream(ts, who, f, ps[1..]));
    }
  }

  lemma LoadNothing(m: Mirror)
    ensures LoadAll(m, []) == m
  {
  }

  lemma Extend(g: Mirror, ts: seq<Table>, who: seq<Uuid>, d: nat, hi: nat, top: nat, m: Mirror)
    requires |ts| == |who| + 1 && d <= hi <= top <= |who|
    requires |Stream(ts, who, d)| <= |Stream(ts, who, hi)| && RightFrom(g, Stream(ts, who, hi), |Stream(ts, who, d)|, m)
    ensures |Stream(ts, who, d)| <= |Stream(ts, who, top)| && RightFrom(g, Stream(ts, who, top), |Stream(ts, who, d)|, m)
  {
    hide LoadAll, RightFrom, Stream;
    StreamPrefix(ts, who, hi, top);
    var xs, ys := Stream(ts, who, hi), Stream(ts, who, top);
    assert ys == xs + ys[|xs|..];
    RightGrows(g, xs, ys[|xs|..], |Stream(ts, who, d)|, m);
  }

  /** However often records fail and later updates get ahead of earlier ones: as soon as no record is
      left to try again, the stream leads from the directory of the first table exactly to the
      directory of the last. */
  lemma RelaySettles(g: Mirror, ts: seq<Table>, who: seq<Uuid>, ps: seq<Pass>)
    requires History(ts, who) && Mirrors(ts[0], g) && Chained(ts, who, 0, ps) && Settled(0, ps) == Tried(0, 0, ps)
    ensures var n := Settled(0, ps);
      && n <= |who| && LoadAll(g, RelayStream(ts, who, 0, ps)) == LoadAll(g, Stream(ts, who, n))
      && Mirrors(ts[n], LoadAll(g, RelayStream(ts, who, 0, ps)))
  {
    hide LoadAll, RightFrom, Mirrors, Sent, ValidTries;
    LoadNothing(g);
    RightAtEnd(g, [], g);
    assert Stream(ts, who, 0) == [];
    PassesKeep(g, ts, who, 0, 0, ps, g);
    var n := Settled(0, ps);
    RightAtEnd(g, Stream(ts, who, n), LoadAll(g, RelayStream(ts, who, 0, ps)));
    StreamMirrors(g, ts, who, n);
  }

  // What is settled was relayed in full on the way.
  lemma {:induction false} SettledTouched(ts: seq<Table>, who: seq<Uuid>, d: nat, ps: seq<Pass>, e: E164)
    requires |ts| == |who| + 1 && Chained(ts, who, d, ps) && d <= |who|
    ensures d <= Settled(d, ps) <= |who|
    ensures TouchedBy(ts, who, d, Settled(d, ps), e) ==> Touches(RelayStream(ts, who, d, ps), e)
    decreases |ps|
  {
    hide Touches, Sent, ValidTries, Relays, Stream;
    TriedBounds(ts, who, d, |who|, ps);
    if ps != [] {
      var tries, f := ps[0].tries, FirstFailed(d, ps[0].tries);
      SettledTouched(ts, who, f, ps[1..], e);
      var extra := SentSplits(ts, who, d, tries);
      StreamTouches(ts, who, d, f, e);
      var full := Stream(ts, who, f)[|Stream(ts, who, d)|..];
      TouchesSplit(full, extra, e);
      TouchesSplit(Sent(ts, who, d, tries), RelayStream(ts, who, f, ps[1..]), e);
      if TouchedBy(ts, who, d, Settled(d, ps), e) && !TouchedBy(ts, who, d, f, e) {
        var k: nat :| d <= k < Settled(d, ps) && Touches(Relays(ts, who, k), e);
        assert f <= k;
      }
    }
  }

  // The passes before and after a point in time.
  lemma {:induction false} PassesSplit(ts: seq<Table>, who: seq<Uuid>, d: nat, ps: seq<Pass>, qs: seq<Pass>)
    requires |ts| == |who| + 1 && Chained(ts, who, d, ps + qs)
    ensures Chained(ts, who, d, ps) && Chained(ts, who, Settled(d, ps), qs)
    ensures RelayStream(ts, who, d, ps + qs) == RelayStream(ts, who, d, ps) + RelayStream(ts, who, Settled(d, ps), qs)
    ensures Settled(d, ps + qs) == Settled(Settled(d, ps), qs)
    decreases |ps|
  {
    hide Sent, ValidTries;
    if ps == [] {
      assert ps + qs == qs;
    } else {
      assert (ps + qs)[1..] == ps[1..] + qs;
      PassesSplit(ts, who, FirstFailed(d, ps[0].tries), ps[1..], qs);
    }
  }

  /** The snapshot on such a stream: a scan that begins when only changes before p have been tried is
      right, in the end, about every number that the records from its beginning on do not mention. */
  lemma ScanRight(
    g: Mirror, ts: seq<Table>, who: seq<Uuid>, ps: seq<Pass>, qs: seq<Pass>, p: nat, n: nat, seen: map<Uuid, nat>, m: Mirror)
    requires History(ts, who) && Mirrors(ts[0], g) && Chained(ts, who, 0, ps + qs)
    requires Settled(0, ps + qs) == Tried(0, 0, ps + qs) && Chained(ts, who, 0, ps) && Tried(0, 0, ps) <= p
    requires n <= Settled(0, ps + qs) && Scan(ts, p, n, seen) && Snapshot(ts, seen, m)
    ensures |RelayStream(ts, who, 0, ps)| <= |RelayStream(ts, who, 0, ps + qs)|
    ensures RightFrom(g, RelayStream(ts, who, 0, ps + qs), |RelayStream(ts, who, 0, ps)|, m)
  {
    hide LoadAll, RightFrom, Mirrors, Sent, ValidTries, Touches, Stream, RelayStream, Snapshot, Tried, Chained, Settled;
    RelaySettles(g, ts, who, ps + qs);
    PassesSplit(ts, who, 0, ps, qs);
    TriedBounds(ts, who, 0, 0, ps);
    var zs, q, k := RelayStream(ts, who, 0, ps + qs), |RelayStream(ts, who, 0, ps)|, Settled(0, ps + qs);
    var d := Settled(0, ps);
    assert zs[q..] == RelayStream(ts, who, d, qs);
    StreamPrefix(ts, who, p, k);
    forall e | Touches(Stream(ts, who, k)[|Stream(ts, who, p)|..], e)
      ensures Touches(zs[q..], e)
    {
      StreamTouches(ts, who, p, k, e);
      SettledTouched(ts, who, d, qs, e);
    }
    SnapshotRight(g, ts, who, p, n, k, seen, m, zs, q);
  }
}
