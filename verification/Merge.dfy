/** The branch-free merge of the two e164 lists in c/enclave/enc.c. */
module Merge {
  import opened Options
  import opened Words
  import opened Wire
  import opened Decoder

  // A bytes field of the decoded request: where its bytes are and how many.
  datatype Slice = Slice(buf: Block, size: nat)

  // What decoding leaves behind: whole words; an absent field is null and empty; present ones
  // are blocks of the workspace [base, base + len) that do not overlap.
  ghost predicate Laid(base: nat, len: nat, prev: Slice, next: Slice) {
    && prev.size % 8 == 0 && next.size % 8 == 0
    && Inside(base, len, prev) && Inside(base, len, next)
    && (prev.buf.At? && next.buf.At? ==>
          prev.buf.addr + prev.size <= next.buf.addr || next.buf.addr + next.size <= prev.buf.addr)
  }

  ghost predicate Inside(base: nat, len: nat, s: Slice) {
    match s.buf
    case Null => s.size == 0
    case At(addr) => base <= addr && addr + s.size <= base + len
  }

  // The e164s of a slice; mem gives the word at every address.
  ghost function List(mem: int -> U64, s: Slice): seq<U64> {
    if s.buf.Null? then [] else seq(s.size / 8, i => mem(s.buf.addr + 8 * i))
  }

  predicate PrevFirst(prev: Slice, next: Slice) {
    next.buf.Null? || (prev.buf.At? && prev.buf.addr < next.buf.addr)
  }

  // The lower list, the upper list and the length of the lower, as the source picks them.
  function Arms(prev: Slice, next: Slice): (int, int, nat)
    requires prev.buf.At? || next.buf.At?
  {
    if prev.buf.Null? then (next.buf.addr, next.buf.addr, 0)
    else if next.buf.Null? then (prev.buf.addr, prev.buf.addr, 0)
    else if prev.buf.addr < next.buf.addr then (prev.buf.addr, next.buf.addr, prev.size / 8)
    else (next.buf.addr, prev.buf.addr, next.size / 8)
  }

  // The two addresses turn i reads.
  function Load(prev: Slice, next: Slice, i: nat): (int, int)
    requires prev.buf.At? || next.buf.At?
  {
    var (a, b, n) := Arms(prev, next);
    (a + 8 * i, b + 8 * (i - n))
  }

  ghost function Merged(mem: int -> U64, prev: Slice, next: Slice): seq<U64> {
    if PrevFirst(prev, next) then List(mem, prev) + List(mem, next) else List(mem, next) + List(mem, prev)
  }

  /** The merge loop.  Each turn reads one word through both arms and keeps one of them; the
      result is one list followed by the other, the one at the lower address first. */
  method MergeE164s(mem: int -> U64, prev: Slice, next: Slice) returns (out: seq<nat>, loads: seq<(int, int)>)
    requires prev.size % 8 == 0 && next.size % 8 == 0
    requires prev.buf.At? || next.buf.At?
    requires (prev.buf.Null? ==> prev.size == 0) && (next.buf.Null? ==> next.size == 0)
    ensures out == Merged(mem, prev, next)
    ensures |loads| == |out| && forall i: nat :: i < |loads| ==> loads[i] == Load(prev, next, i)
  {
    hide Ternary, Merged;
    var num := (prev.size + next.size) / 8;
    var (a, b, n) := Arms(prev, next);
    out, loads := [], [];
    var i: nat := 0;
    while i < num
      invariant i <= num && |out| == |loads| == i
      invariant forall j: nat :: j < i ==> loads[j] == Load(prev, next, j)
      invariant forall j: nat :: j < i ==> out[j] == if j < n then mem(Load(prev, next, j).0) else mem(Load(prev, next, j).1)
    {
      var t, f := mem(a + 8 * i), mem(b + 8 * (i - n));
      TernarySelects(i < n, t, f);
      out := out + [Ternary(i < n, t, f)];
      loads := loads + [(a + 8 * i, b + 8 * (i - n))];
      i := i + 1;
    }
    SelectionIsMerge(mem, prev, next, out);
  }

  lemma SelectionIsMerge(mem: int -> U64, prev: Slice, next: Slice, out: seq<nat>)
    requires prev.size % 8 == 0 && next.size % 8 == 0
    requires prev.buf.At? || next.buf.At?
    requires (prev.buf.Null? ==> prev.size == 0) && (next.buf.Null? ==> next.size == 0)
    requires |out| == (prev.size + next.size) / 8
    requires var (a, b, n) := Arms(prev, next);
      forall j: nat :: j < |out| ==> out[j] == if j < n then mem(Load(prev, next, j).0) else mem(Load(prev, next, j).1)
    ensures out == Merged(mem, prev, next)
  {
  }

  predicate WordInside(base: nat, len: nat, a: int) { base <= a && a + 8 <= base + len }

  ghost predicate AllInside(base: nat, len: nat, prev: Slice, next: Slice)
    requires prev.buf.At? || next.buf.At?
  {
    forall i: nat :: i < (prev.size + next.size) / 8 ==>
      WordInside(base, len, Load(prev, next, i).0) && WordInside(base, len, Load(prev, next, i).1)
  }

  /** Every read of both arms stays in the workspace, except in exactly one situation: a
      present but empty prev list that shares its address with a next list longer than the
      part of the workspace below it. */
  lemma ReadsInsideIff(base: nat, len: nat, prev: Slice, next: Slice)
    requires Laid(base, len, prev, next) && (prev.buf.At? || next.buf.At?)
    ensures AllInside(base, len, prev, next) <==>
      !(prev.buf.At? && next.buf == prev.buf && next.buf.addr - next.size < base)
  {
    if prev.buf.At? && next.buf == prev.buf && next.buf.addr - next.size < base {
      assert !WordInside(base, len, Load(prev, next, 0).1);
    }
  }

  // The fields of a client request: pairs, previous, new and discarded numbers, token, acknowledgement.
  const REQUEST: map<nat, Kind> :=
    map[1 := IsBytes, 2 := IsBytes, 3 := IsBytes, 4 := IsBytes, 6 := IsBytes, 7 := IsNumber]

  // The bytes of a request with an explicit empty previous list followed by a new list.
  function EmptyPrev(data: seq<Byte>): (s: seq<Byte>)
    ensures |s| > |data|
  {
    FieldBytes(Bytes(2, [])) + FieldBytes(Bytes(3, data))
  }

  // The next multiple of eight.
  function Up(addr: nat): nat { (addr + 7) / 8 * 8 }

  // The workspace enclave_rate_limit makes for a request of this size, its message allocated.
  function Workspace(base: nat, inSize: nat, messageSize: nat): (h: Heap)
    requires inSize + 16 + 7 + messageSize <= INT_MAX
    ensures h.Valid() && h.base == base && h.Left() >= inSize && base + h.pos == Up(base + 16) + messageSize
  {
    MessageAllocated(base, inSize, messageSize);
    HeapAlloc(Heap(base, inSize + 16 + 7 + messageSize, 16), messageSize, 8).1
  }

  lemma MessageAllocated(base: nat, inSize: nat, messageSize: nat)
    requires inSize + 16 + 7 + messageSize <= INT_MAX
    ensures var h := HeapAlloc(Heap(base, inSize + 16 + 7 + messageSize, 16), messageSize, 8).1;
      h.Valid() && h.base == base && h.Left() >= inSize && base + h.pos == Up(base + 16) + messageSize
  {
    WorkspaceSuffices(base, inSize, messageSize, 8);
    var (b, h) := HeapAlloc(Heap(base, inSize + 16 + 7 + messageSize, 16), messageSize, 8);
    hide HeapAlloc;
    UpUnique(base + 16, b.addr);
  }

  lemma UpUnique(addr: nat, a: nat)
    requires addr <= a < addr + 8 && a % 8 == 0
    ensures a == Up(addr)
  {
  }

  /** That situation arises from request bytes: decoding accepts them, both lists start at the same
      address because the empty one takes no room, and the merge then reads below the workspace
      exactly if the new list is longer than header, padding and message together. */
  lemma EmptyPrevReadsBelow(base: nat, messageSize: nat, data: seq<Byte>)
    requires |data| % 8 == 0 && |data| > 0 && |EmptyPrev(data)| + 16 + 7 + messageSize <= INT_MAX
    ensures var input := EmptyPrev(data);
      var h := Workspace(base, |input|, messageSize);
      var (fields, d, h2) := DecodeAll(Dec(input, |input|, 0), h, REQUEST);
      var (p, h1) := HeapAlloc(h, 0, 1);
      var (q, _) := HeapAlloc(h1, |data|, 1);
      && fields == [Bytes(2, []), Bytes(3, data)] && d.pos == |input|
      && p.At? && q.At? && HeapAlloc(h1, |data|, 1).1 == h2
      && Laid(base, h.size, Slice(p, 0), Slice(q, |data|))
      && (AllInside(base, h.size, Slice(p, 0), Slice(q, |data|)) <==> |data| <= Up(base + 16) - base + messageSize)
  {
    hide EmptyPrev, DecodeAll, HeapAlloc, AllInside, Laid;
    var input := EmptyPrev(data);
    var h := Workspace(base, |input|, messageSize);
    RequestDecodes(data, h);
    BumpByOne(h, 0);
    BumpByOne(h, |data|);
    SameAddress(base, h, |data|);
  }

  lemma SameAddress(base: nat, h: Heap, n: nat)
    requires h.Valid() && h.base == base && 0 < n <= h.Left() && n % 8 == 0
    ensures var at := At(base + h.pos);
      && Laid(base, h.size, Slice(at, 0), Slice(at, n))
      && (AllInside(base, h.size, Slice(at, 0), Slice(at, n)) <==> n <= h.pos)
  {
    ReadsInsideIff(base, h.size, Slice(At(base + h.pos), 0), Slice(At(base + h.pos), n));
    hide AllInside;
  }

  lemma RequestDecodes(data: seq<Byte>, h: Heap)
    requires h.Valid() && |EmptyPrev(data)| <= INT_MAX && h.Left() >= |EmptyPrev(data)|
    ensures var input := EmptyPrev(data);
      var (fields, d, h2) := DecodeAll(Dec(input, |input|, 0), h, REQUEST);
      fields == [Bytes(2, []), Bytes(3, data)] && d.pos == |input| && h2 == h.(pos := h.pos + |data|)
  {
    hide FieldBytes, Varint, DecodeAll;
    var fs := [Bytes(2, []), Bytes(3, data)];
    var input := EmptyPrev(data);
    TwoFields(fs[0], fs[1], REQUEST);
    MessageBack(Dec(input, |input|, 0), h, REQUEST, fs);
  }

  lemma TwoFields(f: Field, g: Field, schema: map<nat, Kind>)
    ensures Message([f, g]) == FieldBytes(f) + FieldBytes(g)
    ensures CostAll([f, g], schema) == Cost(f, schema) + Cost(g, schema)
    ensures KnownAll([f, g], schema) == Known(f, schema) + Known(g, schema)
  {
    hide FieldBytes, Cost, Known;
    var none: seq<Field> := [];
    FieldsStep(f, [g], schema);
    FieldsStep(g, none, schema);
    assert [f] + [g] == [f, g] && [g] + none == [g];
    assert FieldBytes(g) + [] == FieldBytes(g) && Known(g, schema) + [] == Known(g, schema);
  }

  lemma FieldsStep(f: Field, rest: seq<Field>, schema: map<nat, Kind>)
    ensures Message([f] + rest) == FieldBytes(f) + Message(rest)
    ensures CostAll([f] + rest, schema) == Cost(f, schema) + CostAll(rest, schema)
    ensures KnownAll([f] + rest, schema) == Known(f, schema) + KnownAll(rest, schema)
    ensures Message([]) == [] && CostAll([], schema) == 0 && KnownAll([], schema) == []
  {
    hide FieldBytes, Cost, Known;
    var all := [f] + rest;
    assert all[0] == f && all[1..] == rest;
  }

  /** The heap lays the lists out as required, whatever else it allocated before or between. */
  lemma HeapLaysOut(h: Heap, rs: seq<Request>, i: nat, j: nat, prevFirst: bool)
    requires h.Valid() && forall k :: 0 <= k < |rs| ==> rs[k].Valid()
    requires i < j < |AllocAll(h, rs).0|
    requires AllocAll(h, rs).0[i].n % 8 == 0 && AllocAll(h, rs).0[j].n % 8 == 0
    ensures var bs := AllocAll(h, rs).0;
      var lo, hi := Slice(At(bs[i].addr), bs[i].n), Slice(At(bs[j].addr), bs[j].n);
      Laid(h.base, h.size, if prevFirst then lo else hi, if prevFirst then hi else lo)
  {
    BlocksDisjoint(h, rs);
  }

  // ----- from request bytes to the merged list

  // A bytes field as decoding leaves it in the workspace.
  datatype Loc = Loc(id: nat, addr: nat, data: seq<Byte>)

  // The bytes fields in the order they came, each with the block allocated for it.
  function Located(d: Dec, h: Heap, schema: map<nat, Kind>): seq<Loc>
    requires Ok(d) && h.Valid()
    decreases d.Left()
  {
    if !d.Available() then []
    else
      var (f, d1, h1) := DecodeField(d, h, schema);
      PlaceOf(f, d1, h) + Located(d1, h1, schema)
  }

  function PlaceOf(f: seq<Field>, after: Dec, h: Heap): seq<Loc>
    requires h.Valid()
  {
    if f != [] && f[0].Bytes? && after.Live() && |f[0].data| <= INT_MAX then
      match HeapAlloc(h, |f[0].data|, 1).0
      case At(addr) => [Loc(f[0].id, addr, f[0].data)]
      case Null => []
    else []
  }

  lemma FieldPlaced(d: Dec, h: Heap, schema: map<nat, Kind>)
    requires d.Live() && d.Available() && h.Valid()
    ensures var (f, d1, h1) := DecodeField(d, h, schema);
      && h1.base == h.base && h1.size == h.size && h1.pos >= h.pos && |f| <= 1
      && (d1.Live() ==> if f != [] && f[0].Bytes?
                        then f == [f[0]] && |f[0].data| <= h.Left() && h1.pos == h.pos + |f[0].data|
                             && PlaceOf(f, d1, h) == [Loc(f[0].id, h.base + h.pos, f[0].data)]
                        else PlaceOf(f, d1, h) == [] && h1 == h)
  {
    hide ReadVarint, SkipField, HeapAlloc;
    var (id, wireType, d1) := ReadTag(d);
    var n := ReadLength(d1, wireType).0;
    BumpByOne(h, n);
  }

  // In order, without overlap, between where the heap was and where it got.
  ghost predicate Ordered(locs: seq<Loc>, lo: nat, hi: nat) {
    && (forall i :: 0 <= i < |locs| ==> lo <= locs[i].addr && locs[i].addr + |locs[i].data| <= hi)
    && (forall i, j :: 0 <= i < j < |locs| ==> locs[i].addr + |locs[i].data| <= locs[j].addr)
  }

  function BytesFields(fs: seq<Field>): seq<Field> {
    if fs == [] then [] else (if fs[0].Bytes? then [fs[0]] else []) + BytesFields(fs[1..])
  }

  function AsFields(locs: seq<Loc>): seq<Field> {
    if locs == [] then [] else [Bytes(locs[0].id, locs[0].data)] + AsFields(locs[1..])
  }

  /** Whatever the input, if decoding succeeds: the bytes fields lie in the workspace, in the order
      they came, and do not overlap. */
  lemma {:induction false} LocatedOrdered(d: Dec, h: Heap, schema: map<nat, Kind>)
    requires d.Live() && h.Valid() && DecodeAll(d, h, schema).1.Live()
    ensures var h' := DecodeAll(d, h, schema).2;
      h'.base == h.base && h.pos <= h'.pos && Ordered(Located(d, h, schema), h.base + h.pos, h.base + h'.pos)
    decreases d.Left()
  {
    hide DecodeField, PlaceOf, Ordered;
    if d.Available() {
      FieldPlaced(d, h, schema);
      var (f, d1, h1) := DecodeField(d, h, schema);
      StaysDead(d1, h1, schema);
      LocatedOrdered(d1, h1, schema);
      OrderedJoin(PlaceOf(f, d1, h), Located(d1, h1, schema), h.base + h.pos, h.base + h1.pos, h.base + DecodeAll(d, h, schema).2.pos);
    } else {
      NoneOrdered(h.base + h.pos);
    }
  }

  lemma NoneOrdered(lo: nat)
    ensures Ordered([], lo, lo)
  {
  }

  lemma OrderedJoin(l: seq<Loc>, rest: seq<Loc>, lo: nat, mid: nat, hi: nat)
    requires l == [] || (l == [l[0]] && l[0].addr == lo && lo + |l[0].data| == mid)
    requires lo <= mid <= hi && Ordered(rest, mid, hi)
    ensures Ordered(l + rest, lo, hi)
  {
  }

  // They are the bytes fields decoding returns.
  lemma {:induction false} LocatedFields(d: Dec, h: Heap, schema: map<nat, Kind>)
    requires d.Live() && h.Valid() && DecodeAll(d, h, schema).1.Live()
    ensures AsFields(Located(d, h, schema)) == BytesFields(DecodeAll(d, h, schema).0)
    decreases d.Left()
  {
    hide DecodeField, PlaceOf;
    if d.Available() {
      FieldPlaced(d, h, schema);
      var (f, d1, h1) := DecodeField(d, h, schema);
      StaysDead(d1, h1, schema);
      LocatedFields(d1, h1, schema);
      hide BytesFields, AsFields;
      FieldsJoin(f, DecodeAll(d1, h1, schema).0);
      LocsJoin(PlaceOf(f, d1, h), Located(d1, h1, schema));
    }
  }

  lemma StaysDead(d: Dec, h: Heap, schema: map<nat, Kind>)
    requires Ok(d) && h.Valid() && DecodeAll(d, h, schema).1.Live()
    ensures d.Live()
  {
  }

  lemma FieldsJoin(f: seq<Field>, rest: seq<Field>)
    requires |f| <= 1
    ensures BytesFields(f + rest) == (if f != [] && f[0].Bytes? then f else []) + BytesFields(rest)
  {
    if f == [] { assert f + rest == rest; } else { assert (f + rest)[1..] == rest; }
  }

  lemma LocsJoin(l: seq<Loc>, rest: seq<Loc>)
    requires |l| <= 1
    ensures AsFields(l + rest) == (if l != [] then [Bytes(l[0].id, l[0].data)] else []) + AsFields(rest)
  {
    if l == [] { assert l + rest == rest; } else { assert (l + rest)[1..] == rest; }
  }

  // ----- the memory and the lists in it

  // Decoding writes each block where it was allocated.
  ghost function Written(m: int -> Byte, locs: seq<Loc>): int -> Byte {
    if locs == [] then m else Over(Written(m, locs[..|locs| - 1]), locs[|locs| - 1])
  }

  function Over(m: int -> Byte, l: Loc): int -> Byte {
    a => if l.addr <= a < l.addr + |l.data| then l.data[a - l.addr] else m(a)
  }

  ghost predicate Stored(m: int -> Byte, l: Loc) { forall j :: 0 <= j < |l.data| ==> m(l.addr + j) == l.data[j] }

  // No block is written over by a later one.
  lemma {:induction false} WrittenStored(m: int -> Byte, locs: seq<Loc>, lo: nat, hi: nat, i: nat)
    requires Ordered(locs, lo, hi) && i < |locs|
    ensures Stored(Written(m, locs), locs[i])
  {
    var n := |locs| - 1;
    var w := Written(m, locs[..n]);
    OrderedInit(locs, lo, hi, i);
    hide Over, Stored, Ordered;
    if i < n {
      WrittenStored(m, locs[..n], lo, hi, i);
      StaysStored(w, locs[n], locs[i]);
    } else {
      JustStored(w, locs[n]);
    }
  }

  lemma OrderedInit(locs: seq<Loc>, lo: nat, hi: nat, i: nat)
    requires Ordered(locs, lo, hi) && i < |locs|
    ensures Ordered(locs[..|locs| - 1], lo, hi)
    ensures i < |locs| - 1 ==> locs[..|locs| - 1][i] == locs[i] && locs[i].addr + |locs[i].data| <= locs[|locs| - 1].addr
  {
  }

  lemma JustStored(m: int -> Byte, l: Loc)
    ensures Stored(Over(m, l), l)
  {
  }

  lemma StaysStored(m: int -> Byte, l: Loc, x: Loc)
    requires Stored(m, x) && x.addr + |x.data| <= l.addr
    ensures Stored(Over(m, l), x)
  {
  }

  // A 64-bit load, low byte first.
  function WordAt(m: int -> Byte, a: int): U64 {
    m(a) + 0x100 * m(a + 1) + 0x1_0000 * m(a + 2) + 0x100_0000 * m(a + 3) + 0x1_0000_0000 * m(a + 4)
    + 0x100_0000_0000 * m(a + 5) + 0x1_0000_0000_0000 * m(a + 6) + 0x100_0000_0000_0000 * m(a + 7)
  }

  // The i-th digit of w in base 256.
  function Digit256(w: nat, i: nat): nat { if i == 0 then w % 256 else Digit256(w / 256, i - 1) }

  // The bytes from i on, as a number.
  function Tail(m: int -> Byte, a: int, i: nat): nat
    requires i <= 8
    decreases 8 - i
  {
    if i == 8 then 0 else m(a + i) + 256 * Tail(m, a, i + 1)
  }

  lemma {:induction false} TailDigit(m: int -> Byte, a: int, j: nat, i: nat)
    requires j + i < 8
    ensures Digit256(Tail(m, a, j), i) == m(a + j + i)
    decreases i
  {
    assert Tail(m, a, j) == m(a + j) + 256 * Tail(m, a, j + 1);
    hide Tail, Digit256;
    DigitStep(m(a + j), Tail(m, a, j + 1), i);
    if i > 0 { TailDigit(m, a, j + 1, i - 1); }
  }

  lemma DigitStep(b: Byte, rest: nat, i: nat)
    ensures Digit256(b + 256 * rest, i) == if i == 0 then b else Digit256(rest, i - 1)
  {
    assert (b + 256 * rest) / 256 == rest && (b + 256 * rest) % 256 == b;
  }

  /** Byte i of a word in memory is its i-th digit in base 256. */
  lemma WordBytes(m: int -> Byte, a: int, i: nat)
    requires i < 8
    ensures Digit256(WordAt(m, a), i) == m(a + i)
  {
    assert Tail(m, a, 7) == m(a + 7);
    assert Tail(m, a, 5) == m(a + 5) + 256 * (m(a + 6) + 256 * m(a + 7));
    assert Tail(m, a, 3) == m(a + 3) + 256 * (m(a + 4) + 256 * Tail(m, a, 5));
    assert Tail(m, a, 1) == m(a + 1) + 256 * (m(a + 2) + 256 * Tail(m, a, 3));
    assert WordAt(m, a) == Tail(m, a, 0);
    hide Tail, WordAt, Digit256;
    TailDigit(m, a, 0, i);
  }

  ghost function Loads(m: int -> Byte): int -> U64 { a => WordAt(m, a) }

  // The words a byte string stands for.
  function AsMemory(data: seq<Byte>): int -> Byte { a => if 0 <= a < |data| then data[a] else 0 }

  function WordsOf(data: seq<Byte>): seq<U64> { seq(|data| / 8, i => WordAt(AsMemory(data), 8 * i)) }

  // The field that counts: the last one with this number.
  function Last(locs: seq<Loc>, id: nat): (i: Option<nat>)
    ensures i.Some? ==> i.value < |locs| && locs[i.value].id == id && forall j :: i.value < j < |locs| ==> locs[j].id != id
    ensures i.None? ==> forall j :: 0 <= j < |locs| ==> locs[j].id != id
  {
    if locs == [] then None
    else if locs[|locs| - 1].id == id then Some(|locs| - 1)
    else Last(locs[..|locs| - 1], id)
  }

  function SliceOf(locs: seq<Loc>, id: nat): Slice {
    match Last(locs, id)
    case None => Slice(Null, 0)
    case Some(i) => Slice(At(locs[i].addr), |locs[i].data|)
  }

  function DataOf(locs: seq<Loc>, id: nat): seq<Byte> {
    match Last(locs, id) case None => [] case Some(i) => locs[i].data
  }

  lemma ListIsWords(m: int -> Byte, l: Loc)
    requires Stored(m, l) && |l.data| % 8 == 0
    ensures List(Loads(m), Slice(At(l.addr), |l.data|)) == WordsOf(l.data)
  {
    hide WordAt, Stored;
    forall i | 0 <= i < |l.data| / 8
      ensures Loads(m)(l.addr + 8 * i) == WordAt(AsMemory(l.data), 8 * i)
    {
      BlockWord(m, l, i);
    }
  }

  lemma BlockWord(m: int -> Byte, l: Loc, i: nat)
    requires Stored(m, l) && 8 * i + 8 <= |l.data|
    ensures WordAt(m, l.addr + 8 * i) == WordAt(AsMemory(l.data), 8 * i)
  {
    hide WordAt;
    BlockByte(m, l, 8 * i);
    BlockByte(m, l, 8 * i + 1);
    BlockByte(m, l, 8 * i + 2);
    BlockByte(m, l, 8 * i + 3);
    BlockByte(m, l, 8 * i + 4);
    BlockByte(m, l, 8 * i + 5);
    BlockByte(m, l, 8 * i + 6);
    BlockByte(m, l, 8 * i + 7);
    hide Stored, AsMemory;
    SameWord(m, l.addr + 8 * i, AsMemory(l.data), 8 * i);
  }

  lemma BlockByte(m: int -> Byte, l: Loc, j: nat)
    requires Stored(m, l) && j < |l.data|
    ensures m(l.addr + j) == AsMemory(l.data)(j)
  {
  }

  lemma SameWord(m: int -> Byte, a: int, n: int -> Byte, b: int)
    requires m(a) == n(b) && m(a + 1) == n(b + 1) && m(a + 2) == n(b + 2) && m(a + 3) == n(b + 3)
    requires m(a + 4) == n(b + 4) && m(a + 5) == n(b + 5) && m(a + 6) == n(b + 6) && m(a + 7) == n(b + 7)
    ensures WordAt(m, a) == WordAt(n, b)
  {
  }

  /** From request bytes to the merged list: whatever the input, the workspace and the memory around it,
      if decoding succeeds and the two lists come in whole words, the merge yields the words of the
      list that came first in the request followed by those of the other. */
  lemma MergedRequest(m: int -> Byte, base: nat, input: seq<Byte>, messageSize: nat)
    requires |input| + 16 + 7 + messageSize <= INT_MAX
    requires DecodeAll(Dec(input, |input|, 0), Workspace(base, |input|, messageSize), REQUEST).1.Live()
    ensures var h := Workspace(base, |input|, messageSize);
      var locs := Located(Dec(input, |input|, 0), h, REQUEST);
      var prev, next := DataOf(locs, 2), DataOf(locs, 3);
      var i, j := Last(locs, 2), Last(locs, 3);
      && AsFields(locs) == BytesFields(DecodeAll(Dec(input, |input|, 0), h, REQUEST).0)
      && (|prev| % 8 == 0 && |next| % 8 == 0 ==>
            Merged(Loads(Written(m, locs)), SliceOf(locs, 2), SliceOf(locs, 3)) ==
              if j.None? || (i.Some? && i.value < j.value) then WordsOf(prev) + WordsOf(next) else WordsOf(next) + WordsOf(prev))
  {
    hide DecodeAll, Workspace, Written, Loads, WordsOf, List, Located, Ordered, Merged;
    var h := Workspace(base, |input|, messageSize);
    var d := Dec(input, |input|, 0);
    LocatedOrdered(d, h, REQUEST);
    LocatedFields(d, h, REQUEST);
    var locs := Located(d, h, REQUEST);
    if |DataOf(locs, 2)| % 8 == 0 && |DataOf(locs, 3)| % 8 == 0 {
      MergedLists(m, locs, h.base + h.pos, h.base + DecodeAll(d, h, REQUEST).2.pos);
    }
  }

  lemma MergedLists(m: int -> Byte, locs: seq<Loc>, lo: nat, hi: nat)
    requires Ordered(locs, lo, hi) && |DataOf(locs, 2)| % 8 == 0 && |DataOf(locs, 3)| % 8 == 0
    ensures var prev, next := DataOf(locs, 2), DataOf(locs, 3);
      var i, j := Last(locs, 2), Last(locs, 3);
      Merged(Loads(Written(m, locs)), SliceOf(locs, 2), SliceOf(locs, 3)) ==
        if j.None? || (i.Some? && i.value < j.value) then WordsOf(prev) + WordsOf(next) else WordsOf(next) + WordsOf(prev)
  {
    OneList(m, locs, lo, hi, 2);
    OneList(m, locs, lo, hi, 3);
    hide Written, Loads, WordsOf, List, Last;
    var p, n := WordsOf(DataOf(locs, 2)), WordsOf(DataOf(locs, 3));
    var i, j := Last(locs, 2), Last(locs, 3);
    NoWords(DataOf(locs, 2));
    NoWords(DataOf(locs, 3));
    var prev, next := SliceOf(locs, 2), SliceOf(locs, 3);
    EitherWay(p, n);
    if i.Some? && j.Some? {
      assert i.value != j.value;
      assert i.value < j.value && !PrevFirst(prev, next) ==> DataOf(locs, 2) == [];
    }
  }

  lemma EitherWay(p: seq<U64>, n: seq<U64>)
    ensures p == [] || n == [] ==> p + n == n + p
  {
  }

  lemma NoWords(data: seq<Byte>)
    ensures data == [] ==> WordsOf(data) == []
  {
  }

  lemma OneList(m: int -> Byte, locs: seq<Loc>, lo: nat, hi: nat, id: nat)
    requires Ordered(locs, lo, hi) && |DataOf(locs, id)| % 8 == 0
    ensures List(Loads(Written(m, locs)), SliceOf(locs, id)) == WordsOf(DataOf(locs, id))
  {
    hide Written, WordAt;
    if Last(locs, id).Some? {
      var i := Last(locs, id).value;
      WrittenStored(m, locs, lo, hi, i);
      ListIsWords(Written(m, locs), locs[i]);
    }
  }
}
