/** The forward decoder and the bump heap of c/proto/pbtools.c, and the round trip with the
    encoder. */
module Decoder {
  import opened Words
  import opened Wire

  // ----- the bump heap

  datatype Heap = Heap(base: nat, size: nat, pos: nat) {
    // heap_new has put the 16-byte header at the start.
    predicate Valid() { 16 <= pos <= size <= INT_MAX }

    function Left(): int { size - pos }
  }

  datatype Block = Null | At(addr: nat)

  predicate Alignment(a: nat) { a == 1 || a == 2 || a == 4 || a == 8 || a == 16 }

  function Padding(addr: nat, alignment: nat): nat
    requires Alignment(alignment)
  {
    var rest := And(addr, alignment - 1);
    if rest == 0 then 0 else alignment - rest
  }

  /** heap_alloc: an aligned block right behind everything handed out before, or nothing. */
  function HeapAlloc(h: Heap, n: nat, alignment: nat): (r: (Block, Heap))
    requires h.Valid() && n <= INT_MAX && Alignment(alignment)
    ensures r.1.Valid() && r.1.base == h.base && r.1.size == h.size
    ensures r.0.Null? ==> r.1 == h && n + alignment > h.Left()
    ensures r.0.At? ==>
      && r.0.addr % alignment == 0
      && h.base + h.pos <= r.0.addr < h.base + h.pos + alignment
      && r.0.addr + n == h.base + r.1.pos
    ensures alignment == 1 ==> (r.0.At? <==> n <= h.Left())
  {
    var addr := h.base + h.pos;
    PaddingAligns(addr, alignment);
    // behind the 16-byte header a fitting request plus its padding is still an int
    assert n <= h.Left() ==> n + Padding(addr, alignment) <= INT_MAX;
    if n <= h.Left() then
      var pad := Padding(addr, alignment);
      if n + pad <= h.Left() then (At(addr + pad), h.(pos := h.pos + n + pad)) else (Null, h)
    else (Null, h)
  }

  lemma PaddingAligns(addr: nat, alignment: nat)
    requires Alignment(alignment)
    ensures Padding(addr, alignment) < alignment
    ensures (addr + Padding(addr, alignment)) % alignment == 0
  {
    hide And;
    MaskIsMod(addr, alignment);
    var q, r := addr / alignment, addr % alignment;
    assert addr == q * alignment + r;
    if r != 0 {
      assert addr + (alignment - r) == (q + 1) * alignment + 0;
      ModUnique(addr + (alignment - r), alignment, q + 1, 0);
    }
  }

  lemma MaskIsMod(addr: nat, alignment: nat)
    requires Alignment(alignment)
    ensures And(addr, alignment - 1) == addr % alignment
  {
    hide And;
    assert Pow2(0) == 1 && Pow2(1) == 2 && Pow2(2) == 4;
    assert Pow2(3) == 8 && Pow2(4) == 16;
    var k := if alignment == 1 then 0 else if alignment == 2 then 1
             else if alignment == 4 then 2 else if alignment == 8 then 3 else 4;
    AndLowMask(addr, k);
  }

  datatype Request = Request(n: nat, alignment: nat) {
    predicate Valid() { n <= INT_MAX && Alignment(alignment) }
  }
  datatype Placed = Placed(addr: nat, n: nat)

  // The blocks a series of allocations hands out.
  function AllocAll(h: Heap, rs: seq<Request>): (seq<Placed>, Heap)
    requires h.Valid() && forall i :: 0 <= i < |rs| ==> rs[i].Valid()
    decreases |rs|
  {
    if rs == [] then ([], h)
    else
      assert rs[0].Valid();
      var (b, h1) := HeapAlloc(h, rs[0].n, rs[0].alignment);
      var (bs, h2) := AllocAll(h1, rs[1..]);
      ((if b.At? then [Placed(b.addr, rs[0].n)] else []) + bs, h2)
  }

  /** Over any series of allocations the blocks lie in the workspace behind the header, in
      order, and never overlap. */
  lemma {:induction false} BlocksDisjoint(h: Heap, rs: seq<Request>)
    requires h.Valid() && forall i :: 0 <= i < |rs| ==> rs[i].Valid()
    ensures var (bs, h') := AllocAll(h, rs);
      && h'.Valid() && h.pos <= h'.pos && h'.size == h.size && h'.base == h.base
      && (forall i :: 0 <= i < |bs| ==> h.base + h.pos <= bs[i].addr && bs[i].addr + bs[i].n <= h.base + h'.pos)
      && (forall i, j :: 0 <= i < j < |bs| ==> bs[i].addr + bs[i].n <= bs[j].addr)
    decreases |rs|
  {
    if rs != [] {
      assert rs[0].Valid();
      var (b, h1) := HeapAlloc(h, rs[0].n, rs[0].alignment);
      BlocksDisjoint(h1, rs[1..]);
    }
  }

  /** A workspace of the input's size plus PBUTIL_WORKSPACE_BASE: once the message structure is
      allocated, at least the input's size is left. */
  lemma WorkspaceSuffices(base: nat, inSize: nat, messageSize: nat, alignment: nat)
    requires Alignment(alignment) && inSize + 16 + (alignment - 1) + messageSize <= INT_MAX
    ensures var h := Heap(base, inSize + 16 + (alignment - 1) + messageSize, 16);
      var (b, h') := HeapAlloc(h, messageSize, alignment);
      b.At? && h'.Left() >= inSize
  {
    PaddingAligns(base + 16, alignment);
  }

  // ----- the decoder state

  datatype Dec = Dec(buf: seq<Byte>, size: int, pos: int) {
    predicate Live() { 0 <= pos <= size <= |buf| && size <= INT_MAX }
    predicate Dead() { size == pos && -8 <= pos < 0 }
    predicate Available() { pos < size }
    function Left(): int { size - pos }
  }

  // Every operation moves forward inside the input or stops for good; a stopped decoder
  // keeps its first error.
  predicate After(d: Dec, d': Dec) {
    && d'.buf == d.buf
    && (d.Live() ==> d'.Dead() || (d'.Live() && d'.size == d.size && d.pos <= d'.pos))
    && (d.Dead() ==> d' == d)
  }

  predicate Ok(d: Dec) { d.Live() || d.Dead() }

  function Abort(d: Dec, error: int): (r: Dec)
    requires Ok(d) && 1 <= error <= 8
    ensures After(d, r) && r.Dead()
  {
    if d.pos >= 0 then d.(size := -error, pos := -error) else d
  }

  function Get(d: Dec): (r: (Byte, Dec))
    requires Ok(d)
    ensures After(d, r.1)
    ensures d.Live() && r.1.Live() ==> r.1.pos == d.pos + 1
  {
    if d.Available() then (d.buf[d.pos], d.(pos := d.pos + 1)) else (0, Abort(d, OUT_OF_DATA))
  }

  // The low seven bits of byte number k, shifted into place; bits beyond 64 fall off.
  function Accumulate(acc: nat, b: Byte, k: nat): U64 {
    (acc + (b % 128) * Pow2(7 * k)) % 0x1_0000_0000_0000_0000
  }

  function VarintFrom(d: Dec, acc: nat, k: nat): (r: (U64, Dec))
    requires Ok(d) && k < 10
    ensures After(d, r.1)
    ensures d.Live() && r.1.Live() ==> r.1.pos > d.pos
    decreases 10 - k
  {
    var (b, d1) := Get(d);
    var v := Accumulate(acc, b, k);
    if k < 9 && b >= 128 then VarintFrom(d1, v, k + 1)
    else if b >= 128 then (0, Abort(d1, VARINT_OVERFLOW))
    else (v, d1)
  }

  function ReadVarint(d: Dec): (r: (U64, Dec))
    requires Ok(d)
    ensures After(d, r.1)
    ensures d.Live() && r.1.Live() ==> r.1.pos > d.pos
  {
    VarintFrom(d, 0, 0)
  }

  // Field number, wire type and the state behind the tag.
  function ReadTag(d: Dec): (r: (nat, nat, Dec))
    requires Ok(d)
    ensures After(d, r.2) && r.1 < 8
    ensures d.Live() && r.2.Live() ==> r.2.pos > d.pos && r.0 > 0
  {
    var (v, d1) := ReadVarint(d);
    var tag := v % 0x1_0000_0000;
    (tag / 8, tag % 8, if tag / 8 == 0 then Abort(d1, BAD_FIELD_NUMBER) else d1)
  }

  function ReadNumber(d: Dec, wireType: nat): (r: (U64, Dec))
    requires Ok(d)
    ensures After(d, r.1)
  {
    if wireType != VARINT then (0, Abort(d, BAD_WIRE_TYPE)) else ReadVarint(d)
  }

  function ReadLength(d: Dec, wireType: nat): (r: (nat, Dec))
    requires Ok(d)
    ensures After(d, r.1) && r.0 < INT_MAX
  {
    if wireType != LENGTH_DELIMITED then (0, Abort(d, BAD_WIRE_TYPE))
    else
      var (n, d1) := ReadVarint(d);
      if n >= INT_MAX then (0, Abort(d1, LENGTH_OVERFLOW)) else (n, d1)
  }

  // decoder_read
  function Read(d: Dec, n: nat): (r: (seq<Byte>, Dec))
    requires Ok(d)
    ensures After(d, r.1) && |r.0| == n
  {
    if d.Left() >= n then
      if d.Live() then (d.buf[d.pos..d.pos + n], d.(pos := d.pos + n)) else ([], d)
    else (seq(n, i => 0), Abort(d, OUT_OF_DATA))
  }

  function Seek(d: Dec, offset: nat): (r: Dec)
    requires Ok(d)
    ensures After(d, r)
  {
    if d.pos < 0 then d
    else if d.pos + offset > INT_MAX then Abort(d, SEEK_OVERFLOW)
    else if d.pos + offset > d.size then Abort(d, OUT_OF_DATA)
    else d.(pos := d.pos + offset)
  }

  // pbtools_decoder_read_bytes: allocate first, read afterwards.
  function ReadBytes(d: Dec, h: Heap, wireType: nat): (r: (seq<Byte>, Dec, Heap))
    requires Ok(d) && h.Valid()
    ensures After(d, r.1) && r.2.Valid()
  {
    var (n, d1) := ReadLength(d, wireType);
    var (b, h1) := HeapAlloc(h, n, 1);
    if b.Null? then ([], Abort(d1, OUT_OF_MEMORY), h1)
    else
      var (data, d2) := Read(d1, n);
      (data, d2, h1)
  }

  function SkipField(d: Dec, wireType: nat): (r: Dec)
    requires Ok(d)
    ensures After(d, r)
  {
    if wireType == VARINT then ReadVarint(d).1
    else if wireType == FIXED64 then Seek(d, 8)
    else if wireType == LENGTH_DELIMITED then
      var (n, d1) := ReadLength(d, wireType);
      Seek(d1, n)
    else if wireType == FIXED32 then Seek(d, 4)
    else Abort(d, BAD_WIRE_TYPE)
  }

  /** Skipping a field ends exactly where its reader would, also when the data runs out; only
      an offset past INT_MAX is reported under another error. */
  lemma SkipMatchesReader(d: Dec)
    requires Ok(d)
    ensures SkipField(d, VARINT) == ReadNumber(d, VARINT).1
    ensures d.pos + 8 <= INT_MAX ==> SkipField(d, FIXED64) == Read(d, 8).1
    ensures d.pos + 4 <= INT_MAX ==> SkipField(d, FIXED32) == Read(d, 4).1
    ensures d.Live() && d.pos + 8 > INT_MAX ==> SkipField(d, FIXED64).pos == -SEEK_OVERFLOW && Read(d, 8).1.pos == -OUT_OF_DATA
    ensures d.Live() && d.pos + 4 > INT_MAX ==> SkipField(d, FIXED32).pos == -SEEK_OVERFLOW && Read(d, 4).1.pos == -OUT_OF_DATA
    ensures var (n, d1) := ReadLength(d, LENGTH_DELIMITED);
      var skipped, read := SkipField(d, LENGTH_DELIMITED), Read(d1, n).1;
      && (d1.pos + n <= INT_MAX ==> skipped == read)
      && (d1.Live() && d1.pos + n > INT_MAX ==> skipped.pos == -SEEK_OVERFLOW && read.pos == -OUT_OF_DATA)
  {
  }

  // ----- whole messages

  datatype Kind = IsNumber | IsBytes

  // Behind a tag: the field's reader, or a skip.
  function DecodeBody(d: Dec, h: Heap, schema: map<nat, Kind>, id: nat, wireType: nat): (r: (seq<Field>, Dec, Heap))
    requires Ok(d) && h.Valid()
    ensures After(d, r.1) && r.2.Valid()
  {
    if id in schema && schema[id].IsNumber? then
      var (v, d1) := ReadNumber(d, wireType);
      ([Number(id, v)], d1, h)
    else if id in schema then
      var (data, d1, h1) := ReadBytes(d, h, wireType);
      ([Bytes(id, data)], d1, h1)
    else ([], SkipField(d, wireType), h)
  }

  // One turn of a message decoder.
  function DecodeField(d: Dec, h: Heap, schema: map<nat, Kind>): (r: (seq<Field>, Dec, Heap))
    requires d.Live() && d.Available() && h.Valid()
    ensures After(d, r.1) && r.2.Valid()
    ensures r.1.Live() ==> r.1.pos > d.pos
  {
    var (id, wireType, d1) := ReadTag(d);
    DecodeBody(d1, h, schema, id, wireType)
  }

  function DecodeAll(d: Dec, h: Heap, schema: map<nat, Kind>): (r: (seq<Field>, Dec, Heap))
    requires Ok(d) && h.Valid()
    ensures After(d, r.1) && !r.1.Available() && r.2.Valid()
    decreases d.Left()
  {
    if !d.Available() then ([], d, h)
    else
      var (f, d1, h1) := DecodeField(d, h, schema);
      var (fs, d2, h2) := DecodeAll(d1, h1, schema);
      (f + fs, d2, h2)
  }

  // ----- reading back what the encoder wrote

  predicate StartsWith(d: Dec, s: seq<Byte>) {
    d.Live() && |s| <= d.Left() && d.buf[d.pos..d.pos + |s|] == s
  }

  function Advance(d: Dec, n: nat): Dec { d.(pos := d.pos + n) }

  lemma StartsWithSplit(d: Dec, s: seq<Byte>, t: seq<Byte>)
    requires StartsWith(d, s + t)
    ensures StartsWith(d, s) && StartsWith(Advance(d, |s|), t)
  {
    var x := d.buf[d.pos..d.pos + |s + t|];
    assert x[..|s|] == s && x[|s|..] == t;
  }

  // v in group number k, on top of acc.
  function Shifted(acc: nat, v: nat, k: nat): U64 {
    (acc + v * Pow2(7 * k)) % 0x1_0000_0000_0000_0000
  }

  /** Reading a number in base 128, whatever its form, gives its value modulo 2^64 and stops right behind. */
  lemma {:induction false} VarintReads(d: Dec, s: seq<Byte>, acc: U64, k: nat)
    requires StartsWith(d, s) && Digits(s) && k + |s| <= 10
    ensures VarintFrom(d, acc, k) == (Shifted(acc, Value(s), k), Advance(d, |s|))
    decreases |s|
  {
    DigitsStep(s);
    hide *;
    StartsWithHead(d, s);
    FromStep(d, acc, k);
    if |s| > 1 {
      assert [s[0]] + s[1..] == s;
      StartsWithSplit(d, [s[0]], s[1..]);
      VarintReads(Advance(d, 1), s[1..], Accumulate(acc, s[0], k), k + 1);
      AdvanceTwice(d, 1, |s[1..]|);
    }
    GroupJoins(acc, s[0], k, Value(s[1..]));
  }

  lemma DigitsStep(s: seq<Byte>)
    requires Digits(s)
    ensures s != [] && (s[0] < 128 <==> |s| == 1) && (|s| > 1 ==> Digits(s[1..]))
    ensures Value(s) == s[0] % 128 + 128 * Value(s[1..]) && (|s| == 1 ==> Value(s[1..]) == 0)
  {
  }

  // One group and all the others.
  lemma GroupJoins(acc: nat, b: Byte, k: nat, rest: nat)
    ensures Shifted(Accumulate(acc, b, k), rest, k + 1) == Shifted(acc, b % 128 + 128 * rest, k)
    ensures rest == 0 ==> Accumulate(acc, b, k) == Shifted(acc, b % 128 + 128 * rest, k)
  {
    var p, x := Pow2(7 * k), b % 128;
    assert Pow2(7 * (k + 1)) == 128 * p by { Pow2Add(7, 7 * k); Pow2Literals(); }
    hide Pow2;
    assert (x + 128 * rest) * p == x * p + rest * (128 * p) by { GroupProduct(x, rest, p); }
    ModSum(acc + x * p, rest * (128 * p));
  }

  lemma GroupProduct(x: nat, rest: nat, p: nat)
    ensures (x + 128 * rest) * p == x * p + rest * (128 * p)
  {
    MulAssoc(rest, 128, p);
  }

  lemma ModSum(a: nat, b: nat)
    ensures (a % 0x1_0000_0000_0000_0000 + b) % 0x1_0000_0000_0000_0000 == (a + b) % 0x1_0000_0000_0000_0000
  {
  }

  lemma AdvanceTwice(d: Dec, m: nat, n: nat)
    ensures Advance(Advance(d, m), n) == Advance(d, m + n)
  {
  }

  lemma StartsWithHead(d: Dec, s: seq<Byte>)
    requires StartsWith(d, s) && s != []
    ensures d.Live() && d.Available() && d.buf[d.pos] == s[0]
  {
    assert d.buf[d.pos..d.pos + |s|][0] == s[0];
  }

  lemma FromStep(d: Dec, acc: nat, k: nat)
    requires d.Live() && d.Available() && k < 10
    ensures var b, v, d1 := d.buf[d.pos], Accumulate(acc, d.buf[d.pos], k), Advance(d, 1);
      VarintFrom(d, acc, k) ==
        if b < 128 then (v, d1) else if k < 9 then VarintFrom(d1, v, k + 1) else (0, Abort(d1, VARINT_OVERFLOW))
  {
    hide Accumulate;
  }

  lemma ReadVarintReads(d: Dec, s: seq<Byte>)
    requires StartsWith(d, s) && IsVarint(s)
    ensures ReadVarint(d) == (Value(s) % 0x1_0000_0000_0000_0000, Advance(d, |s|))
  {
    assert Shifted(0, Value(s), 0) == Value(s) % 0x1_0000_0000_0000_0000;
    hide VarintFrom, Shifted, StartsWith, Digits, Value;
    VarintReads(d, s, 0, 0);
  }

  /** In particular a value that was written comes back. */
  lemma ReadVarintBack(d: Dec, v: U64)
    requires StartsWith(d, Varint(v))
    ensures ReadVarint(d) == (v, Advance(d, |Varint(v)|))
  {
    hide Varint, VarintFrom, StartsWith, Digits, Value;
    VarintDigits(v);
    VarintFits(v);
    ReadVarintReads(d, Varint(v));
  }

  lemma ReadTagBack(d: Dec, id: nat, wireType: nat)
    requires 0 < id < 0x2000_0000 && wireType < 8 && StartsWith(d, Varint(Tag(id, wireType)))
    ensures ReadTag(d) == (id, wireType, Advance(d, |Varint(Tag(id, wireType))|))
  {
    hide Varint, ReadVarint;
    ReadVarintBack(d, Tag(id, wireType));
  }

  ghost predicate Fits(f: Field, schema: map<nat, Kind>) {
    Encodable(f) && (f.id in schema ==> (schema[f.id].IsNumber? <==> f.Number?))
  }

  // What a decoder with this schema keeps of a field, and what it costs on the heap.
  function Known(f: Field, schema: map<nat, Kind>): seq<Field> { if f.id in schema then [f] else [] }

  function Cost(f: Field, schema: map<nat, Kind>): nat {
    if f.id in schema && f.Bytes? then |f.data| else 0
  }

  lemma FieldBack(d: Dec, h: Heap, schema: map<nat, Kind>, f: Field)
    requires StartsWith(d, FieldBytes(f)) && h.Valid() && Fits(f, schema) && Cost(f, schema) <= h.Left()
    ensures d.Available()
    ensures DecodeField(d, h, schema)
         == (Known(f, schema), Advance(d, |FieldBytes(f)|), h.(pos := h.pos + Cost(f, schema)))
  {
    hide Varint, ReadVarint, ReadTag, ReadBytes, SkipField, StartsWith;
    StartsWithSize(d, FieldBytes(f));
    match f
    case Number(id, value) =>
      var t, l := Varint(Tag(id, VARINT)), Varint(value);
      StartsWithSplit(d, t, l);
      ReadTagBack(d, id, VARINT);
      ReadVarintBack(Advance(d, |t|), value);
      NumberBack(Advance(d, |t|));
    case Bytes(id, data) =>
      var t, l := Varint(Tag(id, LENGTH_DELIMITED)), Varint(|data|);
      StartsWithSplit(d, t + l, data);
      StartsWithSplit(d, t, l);
      ReadTagBack(d, id, LENGTH_DELIMITED);
      BytesBack(Advance(d, |t|), h, data, l);
  }

  lemma StartsWithSize(d: Dec, s: seq<Byte>)
    requires StartsWith(d, s)
    ensures d.Live() && |s| <= d.Left()
  {
  }

  lemma NumberBack(d: Dec)
    requires Ok(d)
    ensures ReadNumber(d, VARINT) == ReadVarint(d) && SkipField(d, VARINT) == ReadVarint(d).1
  {
  }

  lemma BumpByOne(h: Heap, n: nat)
    requires h.Valid() && n <= INT_MAX
    ensures n <= h.Left() ==> HeapAlloc(h, n, 1) == (At(h.base + h.pos), h.(pos := h.pos + n))
    ensures n > h.Left() ==> HeapAlloc(h, n, 1) == (Null, h)
  {
    hide And;
    PaddingAligns(h.base + h.pos, 1);
  }

  lemma LengthBack(d: Dec, n: nat)
    requires n < INT_MAX && StartsWith(d, Varint(n))
    ensures ReadLength(d, LENGTH_DELIMITED) == (n, Advance(d, |Varint(n)|))
  {
    hide Varint, ReadVarint;
    ReadVarintBack(d, n);
  }

  lemma ReadBack(d: Dec, data: seq<Byte>)
    requires StartsWith(d, data)
    ensures Read(d, |data|) == (data, Advance(d, |data|)) && Seek(d, |data|) == Advance(d, |data|)
  {
  }

  // Reading a byte string back, or skipping it.
  lemma BytesBack(d: Dec, h: Heap, data: seq<Byte>, l: seq<Byte>)
    requires l == Varint(|data|) && StartsWith(d, l) && StartsWith(Advance(d, |l|), data)
    requires h.Valid() && |data| < INT_MAX
    ensures |data| <= h.Left() ==>
      ReadBytes(d, h, LENGTH_DELIMITED) == (data, Advance(d, |l| + |data|), h.(pos := h.pos + |data|))
    ensures SkipField(d, LENGTH_DELIMITED) == Advance(d, |l| + |data|)
  {
    hide Varint, ReadLength, HeapAlloc, Read, Seek, StartsWith;
    StartsWithSize(d, l);
    LengthBack(d, |data|);
    BumpByOne(h, |data|);
    ReadBack(Advance(d, |l|), data);
    assert Advance(Advance(d, |l|), |data|) == Advance(d, |l| + |data|);
  }

  function KnownAll(fs: seq<Field>, schema: map<nat, Kind>): seq<Field> {
    if fs == [] then [] else Known(fs[0], schema) + KnownAll(fs[1..], schema)
  }

  function CostAll(fs: seq<Field>, schema: map<nat, Kind>): nat {
    if fs == [] then 0 else Cost(fs[0], schema) + CostAll(fs[1..], schema)
  }

  lemma {:induction false} MessageBack(d: Dec, h: Heap, schema: map<nat, Kind>, fs: seq<Field>)
    requires StartsWith(d, Message(fs)) && d.Left() == |Message(fs)|
    requires h.Valid() && CostAll(fs, schema) <= h.Left() && forall i :: 0 <= i < |fs| ==> Fits(fs[i], schema)
    ensures DecodeAll(d, h, schema)
         == (KnownAll(fs, schema), Advance(d, |Message(fs)|), h.(pos := h.pos + CostAll(fs, schema)))
    decreases |fs|
  {
    hide FieldBytes, DecodeField, Fits, Known, Cost;
    if fs != [] {
      StartsWithSplit(d, FieldBytes(fs[0]), Message(fs[1..]));
      FieldBack(d, h, schema, fs[0]);
      MessageBack(Advance(d, |FieldBytes(fs[0])|), h.(pos := h.pos + Cost(fs[0], schema)), schema, fs[1..]);
    }
  }

  lemma {:induction false} CostBelowMessage(fs: seq<Field>, schema: map<nat, Kind>)
    ensures CostAll(fs, schema) <= |Message(fs)|
  {
    if fs != [] { CostBelowMessage(fs[1..], schema); }
  }

  /** The round trip: a decoder given the encoded message and a heap with as much room as the
      message has bytes reads back every field its schema knows, in order, and skips the rest. */
  lemma RoundTrip(fs: seq<Field>, schema: map<nat, Kind>, h: Heap)
    requires |Message(fs)| <= INT_MAX && forall i :: 0 <= i < |fs| ==> Fits(fs[i], schema)
    requires h.Valid() && h.Left() >= |Message(fs)|
    ensures var m := Message(fs);
      var (got, d, _) := DecodeAll(Dec(m, |m|, 0), h, schema);
      got == KnownAll(fs, schema) && d.pos == |m|
  {
    var m := Message(fs);
    CostBelowMessage(fs, schema);
    MessageBack(Dec(m, |m|, 0), h, schema, fs);
  }

  // ----- running out of memory

  // Some length prefix met on the way promises more bytes than are left.
  predicate Overlong(d: Dec, h: Heap, schema: map<nat, Kind>)
    requires Ok(d) && h.Valid()
    decreases d.Left()
  {
    d.Available() &&
    var (id, wireType, d1) := ReadTag(d);
    var (n, d2) := ReadLength(d1, wireType);
    var (_, d3, h3) := DecodeField(d, h, schema);
    (d2.Live() && n > d2.Left()) || Overlong(d3, h3, schema)
  }

  // Reading a varint never reports a lack of memory.
  lemma {:induction false} VarintErrors(d: Dec, acc: nat, k: nat)
    requires d.Live() && k < 10
    ensures VarintFrom(d, acc, k).1.pos != -OUT_OF_MEMORY
    decreases 10 - k
  {
    hide Accumulate;
    var (b, d1) := Get(d);
    var v := Accumulate(acc, b, k);
    if k < 9 && b >= 128 { VarintErrors(d1, v, k + 1); }
  }

  lemma FieldMemory(d: Dec, h: Heap, schema: map<nat, Kind>)
    requires d.Live() && d.Available() && h.Valid() && h.Left() >= d.Left()
    ensures var (_, d', h') := DecodeField(d, h, schema);
      && (d'.Live() ==> h'.Left() >= d'.Left())
      && (d'.pos == -OUT_OF_MEMORY ==> Overlong(d, h, schema))
  {
    hide VarintFrom, HeapAlloc;
    VarintErrors(d, 0, 0);
    var (id, wireType, d1) := ReadTag(d);
    if d1.Live() {
      VarintErrors(d1, 0, 0);
      BumpByOne(h, ReadLength(d1, wireType).0);
    }
  }

  /** With the enclave's workspace a message runs out of memory only if one of its length
      prefixes lies about the bytes that follow. */
  lemma {:induction false} MemoryOnlyIfOverlong(d: Dec, h: Heap, schema: map<nat, Kind>)
    requires d.Live() && h.Valid() && h.Left() >= d.Left()
    ensures DecodeAll(d, h, schema).1.pos == -OUT_OF_MEMORY ==> Overlong(d, h, schema)
    decreases d.Left()
  {
    hide DecodeField, ReadTag, ReadLength;
    if d.Available() {
      FieldMemory(d, h, schema);
      var (_, d1, h1) := DecodeField(d, h, schema);
      if d1.Live() { MemoryOnlyIfOverlong(d1, h1, schema); }
    }
  }

  // ----- the decoder as the source runs it

  // value | (x << offset) in 64 bits is the accumulated sum, whatever falls off at the top.
  lemma OrAccumulates(value: nat, b: Byte, k: nat)
    requires k < 10 && value < Pow2(7 * k)
    ensures Or(value, Shl(And(b, 0x7f), 7 * k)) == Accumulate(value, b, k)
    ensures k < 9 ==> Accumulate(value, b, k) < Pow2(7 * (k + 1))
  {
    hide Or, And, Pow2;
    ClearHighBit(b);
    var x, p, c := b % 128, Pow2(7 * k), Pow2(64 - 7 * k);
    assert p * c == 0x1_0000_0000_0000_0000 by { Pow2Add(7 * k, 64 - 7 * k); Pow2Literals(); }
    ShiftedSum(value, x, p, c);
    OrDisjoint(x % c, 7 * k, value);
    OrComm(value, (x % c) * p);
    assert Pow2(7 * (k + 1)) == 128 * p by { Pow2Add(7, 7 * k); Pow2Literals(); }
    MulMonotone(x, 127, p);
    GroupBound(value, x * p, p);
  }

  lemma ShiftedSum(value: nat, x: nat, p: nat, c: nat)
    requires value < p && c > 0 && p * c == 0x1_0000_0000_0000_0000
    ensures (x * p) % 0x1_0000_0000_0000_0000 == (x % c) * p
    ensures (value + x * p) % 0x1_0000_0000_0000_0000 == (x % c) * p + value
  {
    var q, r := x / c, x % c;
    assert x * p == q * 0x1_0000_0000_0000_0000 + r * p by {
      assert x == q * c + r;
      assert (q * c) * p == q * (p * c);
    }
    assert r * p + value < 0x1_0000_0000_0000_0000 by {
      MulMonotone(r + 1, c, p);
      assert (r + 1) * p == r * p + p;
    }
    ModUnique(x * p, 0x1_0000_0000_0000_0000, q, r * p);
    ModUnique(value + x * p, 0x1_0000_0000_0000_0000, q, r * p + value);
  }

  lemma GroupBound(value: nat, y: nat, p: nat)
    requires value < p && y <= 127 * p
    ensures (value + y) % 0x1_0000_0000_0000_0000 < 128 * p
  {
  }

  class Reader {
    const buf: seq<Byte>
    var size: int
    var pos: int
    var heap: Heap

    ghost predicate Valid()
      reads this
    {
      Ok(State()) && heap.Valid()
    }

    function State(): Dec
      reads this
    {
      Dec(buf, size, pos)
    }

    /** decoder_init */
    constructor (buf: seq<Byte>, heap: Heap)
      requires |buf| <= INT_MAX && heap.Valid()
      ensures Valid() && State() == Dec(buf, |buf|, 0) && this.heap == heap
    {
      this.buf, this.size, this.pos, this.heap := buf, |buf|, 0, heap;
    }

    /** decoder_abort */
    method Fail(error: int)
      requires Valid() && 1 <= error <= 8
      modifies this`size, this`pos
      ensures Valid() && State() == Abort(old(State()), error)
    {
      if pos >= 0 { size, pos := -error, -error; }
    }

    /** decoder_get */
    method GetByte() returns (b: Byte)
      requires Valid()
      modifies this`size, this`pos
      ensures Valid() && (b, State()) == Get(old(State()))
    {
      if pos < size {
        b := buf[pos];
        pos := pos + 1;
      } else {
        Fail(OUT_OF_DATA);
        b := 0;
      }
    }

    /** decoder_read_varint */
    method TakeVarint() returns (value: U64)
      requires Valid()
      modifies this`size, this`pos
      ensures Valid() && (value, State()) == ReadVarint(old(State()))
    {
      hide Or, And, Pow2, Shl, Accumulate;
      value := 0;
      var offset, b := 0, 0;
      ghost var k := 0;
      assert Pow2(7 * 0) > 0;
      while true
        invariant Valid() && k < 10 && offset == 7 * k && value < Pow2(7 * k)
        invariant VarintFrom(State(), value, k) == ReadVarint(old(State()))
        decreases 10 - k
      {
        b := GetByte();
        OrAccumulates(value, b, k);
        ByteHighBit(b);
        value := Or(value, Shl(And(b, 0x7f), offset));
        offset := offset + 7;
        if !(offset < 64 && And(b, 0x80) != 0) { break; }
        k := k + 1;
      }
      if And(b, 0x80) != 0 {
        Fail(VARINT_OVERFLOW);
        value := 0;
      }
    }

    /** pbtools_decoder_read_tag */
    method TakeTag() returns (id: nat, wireType: nat)
      requires Valid()
      modifies this`size, this`pos
      ensures Valid() && (id, wireType, State()) == ReadTag(old(State()))
    {
      var v := TakeVarint();
      var tag := v % 0x1_0000_0000;
      id, wireType := tag / 8, tag % 8;
      if id == 0 { Fail(BAD_FIELD_NUMBER); }
    }

    /** pbtools_decoder_read_uint64 */
    method TakeNumber(wireType: nat) returns (value: U64)
      requires Valid()
      modifies this`size, this`pos
      ensures Valid() && (value, State()) == ReadNumber(old(State()), wireType)
    {
      if wireType != VARINT {
        Fail(BAD_WIRE_TYPE);
        return 0;
      }
      value := TakeVarint();
    }

    /** decoder_read_length_delimited */
    method TakeLength(wireType: nat) returns (n: nat)
      requires Valid()
      modifies this`size, this`pos
      ensures Valid() && (n, State()) == ReadLength(old(State()), wireType)
    {
      if wireType != LENGTH_DELIMITED {
        Fail(BAD_WIRE_TYPE);
        return 0;
      }
      n := TakeVarint();
      if n >= INT_MAX {
        Fail(LENGTH_OVERFLOW);
        n := 0;
      }
    }

    /** decoder_read */
    method Take(n: nat) returns (data: seq<Byte>)
      requires Valid()
      modifies this`size, this`pos
      ensures Valid() && (data, State()) == Read(old(State()), n)
    {
      if size - pos >= n {
        data := if pos >= 0 then buf[pos..pos + n] else [];
        pos := pos + n;
      } else {
        data := seq(n, i => 0);
        Fail(OUT_OF_DATA);
      }
    }

    /** pbtools_decoder_read_bytes */
    method TakeBytes(wireType: nat) returns (data: seq<Byte>)
      requires Valid()
      modifies this
      ensures Valid() && (data, State(), heap) == ReadBytes(old(State()), old(heap), wireType)
    {
      var n := TakeLength(wireType);
      var (b, h) := HeapAlloc(heap, n, 1);
      heap := h;
      if b.Null? {
        Fail(OUT_OF_MEMORY);
        return [];
      }
      data := Take(n);
    }

    /** decoder_seek */
    method SeekBy(offset: nat)
      requires Valid()
      modifies this`size, this`pos
      ensures Valid() && State() == Seek(old(State()), offset)
    {
      if pos < 0 { return; }
      if pos + offset > INT_MAX {
        Fail(SEEK_OVERFLOW);
      } else if pos + offset > size {
        Fail(OUT_OF_DATA);
      } else {
        pos := pos + offset;
      }
    }

    /** pbtools_decoder_skip_field */
    method Skip(wireType: nat)
      requires Valid()
      modifies this`size, this`pos
      ensures Valid() && State() == SkipField(old(State()), wireType)
    {
      if wireType == VARINT {
        var _ := TakeVarint();
      } else if wireType == FIXED64 {
        SeekBy(8);
      } else if wireType == LENGTH_DELIMITED {
        var n := TakeLength(wireType);
        SeekBy(n);
      } else if wireType == FIXED32 {
        SeekBy(4);
      } else {
        Fail(BAD_WIRE_TYPE);
      }
    }

    /** One turn of a message decoder. */
    method TakeField(schema: map<nat, Kind>) returns (f: seq<Field>)
      requires Valid() && State().Live() && State().Available()
      modifies this
      ensures Valid() && (f, State(), heap) == DecodeField(old(State()), old(heap), schema)
    {
      hide ReadTag, ReadNumber, ReadBytes, SkipField;
      var id, wireType := TakeTag();
      if id in schema && schema[id].IsNumber? {
        var v := TakeNumber(wireType);
        f := [Number(id, v)];
      } else if id in schema {
        var data := TakeBytes(wireType);
        f := [Bytes(id, data)];
      } else {
        Skip(wireType);
        f := [];
      }
    }
  }

  /** A message decoder over these primitives: read a tag while input is available and either
      read the field or skip it.  Returns the final position or minus the first error. */
  method Decode(input: seq<Byte>, workspace: Heap, schema: map<nat, Kind>) returns (fields: seq<Field>, result: int)
    requires |input| <= INT_MAX && workspace.Valid()
    ensures var (fs, d, _) := DecodeAll(Dec(input, |input|, 0), workspace, schema);
      fields == fs && result == d.pos
    ensures result == |input| || -8 <= result < 0
  {
    hide DecodeField, DecodeAll;
    var r := new Reader(input, workspace);
    fields := [];
    ghost var goal := DecodeAll(r.State(), r.heap, schema);
    assert [] + goal.0 == goal.0;
    while r.pos < r.size
      invariant r.Valid() && r.buf == input && fresh(r)
      invariant r.State().Dead() || r.size == |input|
      invariant var (fs, d, h) := DecodeAll(r.State(), r.heap, schema);
        goal.0 == fields + fs && goal.1 == d
      decreases r.size - r.pos
    {
      AllStep(r.State(), r.heap, schema);
      ghost var got := fields;
      var f := r.TakeField(schema);
      fields := fields + f;
      ghost var rest := DecodeAll(r.State(), r.heap, schema).0;
      assert got + (f + rest) == fields + rest;
    }
    AllStep(r.State(), r.heap, schema);
    assert fields + [] == fields;
    result := r.pos;
  }

  lemma AllStep(d: Dec, h: Heap, schema: map<nat, Kind>)
    requires Ok(d) && h.Valid()
    ensures !d.Available() ==> DecodeAll(d, h, schema) == ([], d, h)
    ensures d.Available() ==>
      d.Live() && var (f, d1, h1) := DecodeField(d, h, schema);
      var (fs, d2, h2) := DecodeAll(d1, h1, schema);
      DecodeAll(d, h, schema) == (f + fs, d2, h2)
  {
    hide DecodeField;
  }

  /** Encoder and decoder as run: what goes in and is present and known comes out again. */
  method ThroughBuffer(fs: seq<Field>, buf: array<Byte>, workspace: Heap, schema: map<nat, Kind>)
    returns (got: seq<Field>, length: int)
    requires buf.Length <= INT_MAX && forall i :: 0 <= i < |fs| ==> Fits(fs[i], schema)
    requires workspace.Valid() && workspace.Left() >= buf.Length
    modifies buf
    ensures |Message(Kept(fs))| < buf.Length ==> length == |Message(Kept(fs))| && got == KnownAll(Kept(fs), schema)
    ensures |Message(Kept(fs))| >= buf.Length ==> length < 0 && got == []
  {
    length := Encode(fs, buf);
    got := [];
    if length >= 0 {
      var result;
      got, result := Decode(buf[..length], workspace, schema);
      KeptFits(fs, schema);
      RoundTrip(Kept(fs), schema, workspace);
    }
  }

  lemma {:induction false} KeptFits(fs: seq<Field>, schema: map<nat, Kind>)
    requires forall i :: 0 <= i < |fs| ==> Fits(fs[i], schema)
    ensures forall i :: 0 <= i < |Kept(fs)| ==> Fits(Kept(fs)[i], schema)
  {
    if fs != [] { KeptFits(fs[1..], schema); }
  }
}
