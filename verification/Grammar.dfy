/** Which inputs the decoder of c/proto/pbtools.c accepts: exactly the messages made of whole fields in the
    Protocol Buffers wire format, here written down in numbers and without reference to how the
    decoder works. */
module Grammar {
  import opened Words
  import opened Wire
  import opened Decoder

  // ----- the format

  // A field on the wire: its tag, then a number, eight or four bytes, or a length and as many bytes.
  datatype Body =
    | Scalar(digits: seq<Byte>) | Eight(bytes: seq<Byte>) | Blob(length: seq<Byte>, data: seq<Byte>) | Four(bytes: seq<Byte>)
  datatype Piece = Piece(tag: seq<Byte>, body: Body)

  // A tag counts modulo 2^32: the field number above the three bits of the wire type.
  function IdOf(tag: seq<Byte>): nat { Value(tag) % 0x1_0000_0000 / 8 }
  function TypeOf(tag: seq<Byte>): nat { Value(tag) % 8 }

  function Size(length: seq<Byte>): nat { Value(length) % 0x1_0000_0000_0000_0000 }

  predicate Accepts(schema: map<nat, Kind>, id: nat, kind: Kind) { id in schema ==> schema[id] == kind }

  // What may stand behind a tag with this field number and wire type.
  predicate Fitting(b: Body, id: nat, wireType: nat, schema: map<nat, Kind>) {
    match b
    case Scalar(digits) => wireType == 0 && IsVarint(digits) && Accepts(schema, id, IsNumber)
    case Eight(bytes) => wireType == 1 && |bytes| == 8 && id !in schema
    case Blob(length, data) =>
      wireType == 2 && IsVarint(length) && Size(length) == |data| < 0x7FFF_FFFF && Accepts(schema, id, IsBytes)
    case Four(bytes) => wireType == 5 && |bytes| == 4 && id !in schema
  }

  predicate WellFormed(p: Piece, schema: map<nat, Kind>) {
    IsVarint(p.tag) && IdOf(p.tag) > 0 && Fitting(p.body, IdOf(p.tag), TypeOf(p.tag), schema)
  }

  function BodyBytes(b: Body): seq<Byte> {
    match b
    case Scalar(digits) => digits
    case Blob(length, data) => length + data
    case _ => b.bytes
  }

  function Spelling(p: Piece): seq<Byte> { p.tag + BodyBytes(p.body) }

  // What a decoder with this schema is to return for a field, and the memory that takes.
  function Meaning(b: Body, id: nat, schema: map<nat, Kind>): seq<Field> {
    if id !in schema then []
    else
      match b
      case Scalar(digits) => [Number(id, Value(digits) % 0x1_0000_0000_0000_0000)]
      case Blob(_, data) => [Bytes(id, data)]
      case _ => []
  }

  function Room(b: Body, id: nat, schema: map<nat, Kind>): nat {
    if id in schema && b.Blob? then |b.data| else 0
  }

  function Spell(ps: seq<Piece>): seq<Byte> {
    if ps == [] then [] else Spelling(ps[0]) + Spell(ps[1..])
  }

  function MeaningAll(ps: seq<Piece>, schema: map<nat, Kind>): seq<Field> {
    if ps == [] then [] else Meaning(ps[0].body, IdOf(ps[0].tag), schema) + MeaningAll(ps[1..], schema)
  }

  function RoomAll(ps: seq<Piece>, schema: map<nat, Kind>): nat {
    if ps == [] then 0 else Room(ps[0].body, IdOf(ps[0].tag), schema) + RoomAll(ps[1..], schema)
  }

  // The input is made of these fields.
  predicate MadeOf(input: seq<Byte>, ps: seq<Piece>, schema: map<nat, Kind>) {
    Spell(ps) == input && forall i :: 0 <= i < |ps| ==> WellFormed(ps[i], schema)
  }

  // ----- what is well formed is read

  function Bumped(h: Heap, n: nat): Heap { h.(pos := h.pos + n) }

  lemma TagReads(d: Dec, tag: seq<Byte>)
    requires StartsWith(d, tag) && IsVarint(tag)
    ensures var d1 := Advance(d, |tag|);
      Ok(d1) && ReadTag(d) == (IdOf(tag), TypeOf(tag), if IdOf(tag) == 0 then Abort(d1, 5) else d1)
  {
    ReadVarintReads(d, tag);
    hide ReadVarint, Value, IsVarint;
    LowBits(Value(tag));
  }

  lemma LowBits(v: nat)
    ensures v % 0x1_0000_0000_0000_0000 % 0x1_0000_0000 == v % 0x1_0000_0000
    ensures v % 0x1_0000_0000 % 8 == v % 8
  {
    ModOfMod(v, 0x1_0000_0000, 0x1_0000_0000);
    ModOfMod(v, 8, 0x2000_0000);
  }

  lemma ModOfMod(v: nat, m: nat, n: nat)
    requires m > 0 && n > 0
    ensures m * n > 0 && v % (m * n) % m == v % m
  {
    var w, q := v % (m * n), v / (m * n);
    assert m * n > 0;
    var r, p := w % m, w / m;
    assert v == (q * n + p) * m + r by {
      assert v == q * (m * n) + w && w == p * m + r;
      MulAssoc(q, n, m);
      assert q * (m * n) == q * (n * m);
    }
    ModUnique(v, m, q * n + p, r);
  }

  lemma LengthReads(d: Dec, length: seq<Byte>)
    requires StartsWith(d, length) && IsVarint(length)
    ensures var d1 := Advance(d, |length|);
      Ok(d1) && ReadLength(d, 2) == if Size(length) >= 0x7FFF_FFFF then (0, Abort(d1, 8)) else (Size(length), d1)
  {
    ReadVarintReads(d, length);
    hide ReadVarint, Value, IsVarint;
  }

  lemma BodyReads(d: Dec, h: Heap, schema: map<nat, Kind>, b: Body, id: nat, wireType: nat)
    requires Fitting(b, id, wireType, schema) && StartsWith(d, BodyBytes(b)) && h.Valid() && Room(b, id, schema) <= h.Left()
    ensures DecodeBody(d, h, schema, id, wireType) ==
      (Meaning(b, id, schema), Advance(d, |BodyBytes(b)|), Bumped(h, Room(b, id, schema)))
  {
    hide Size, Value;
    match b
    case Scalar(digits) =>
      ReadVarintReads(d, digits);
      hide ReadVarint, StartsWith;
    case Blob(length, data) => BlobReads(d, h, length, data);
    case _ => ReadBack(d, b.bytes);
  }

  lemma BlobReads(d: Dec, h: Heap, length: seq<Byte>, data: seq<Byte>)
    requires StartsWith(d, length + data) && IsVarint(length) && Size(length) == |data| < 0x7FFF_FFFF && h.Valid()
    ensures SkipField(d, 2) == Advance(d, |length + data|)
    ensures |data| <= h.Left() ==>
      ReadBytes(d, h, 2) == (data, Advance(d, |length + data|), Bumped(h, |data|))
  {
    StartsWithSplit(d, length, data);
    LengthReads(d, length);
    hide ReadLength, HeapAlloc, Read, Seek, StartsWith, Size, IsVarint;
    ReadBack(Advance(d, |length|), data);
    BumpByOne(h, |data|);
    AdvanceTwice(d, |length|, |data|);
  }

  lemma PieceReads(d: Dec, h: Heap, schema: map<nat, Kind>, p: Piece)
    requires WellFormed(p, schema) && StartsWith(d, Spelling(p)) && h.Valid() && Room(p.body, IdOf(p.tag), schema) <= h.Left()
    ensures d.Live() && d.Available()
    ensures var id := IdOf(p.tag);
      DecodeField(d, h, schema) ==
        (Meaning(p.body, id, schema), Advance(d, |Spelling(p)|), Bumped(h, Room(p.body, id, schema)))
  {
    Formed(p, schema);
    hide *;
    StartsWithHead(d, Spelling(p));
    StartsWithSplit(d, p.tag, BodyBytes(p.body));
    TagReads(d, p.tag);
    BehindTag(d, h, schema);
    BodyReads(Advance(d, |p.tag|), h, schema, p.body, IdOf(p.tag), TypeOf(p.tag));
    AdvanceTwice(d, |p.tag|, |BodyBytes(p.body)|);
  }

  lemma BehindTag(d: Dec, h: Heap, schema: map<nat, Kind>)
    requires d.Live() && d.Available() && h.Valid()
    ensures var (id, wireType, d1) := ReadTag(d); Ok(d1) && DecodeField(d, h, schema) == DecodeBody(d1, h, schema, id, wireType)
  {
    hide ReadTag, DecodeBody;
  }

  lemma Formed(p: Piece, schema: map<nat, Kind>)
    requires WellFormed(p, schema)
    ensures Spelling(p) == p.tag + BodyBytes(p.body) && p.tag != [] && IsVarint(p.tag) && IdOf(p.tag) > 0
    ensures Fitting(p.body, IdOf(p.tag), TypeOf(p.tag), schema)
  {
  }

  lemma {:induction false} AllRead(d: Dec, h: Heap, schema: map<nat, Kind>, ps: seq<Piece>)
    requires StartsWith(d, Spell(ps)) && d.Left() == |Spell(ps)| && (forall i :: 0 <= i < |ps| ==> WellFormed(ps[i], schema))
    requires h.Valid() && RoomAll(ps, schema) <= h.Left()
    ensures DecodeAll(d, h, schema) ==
      (MeaningAll(ps, schema), Advance(d, |Spell(ps)|), Bumped(h, RoomAll(ps, schema)))
    decreases |ps|
  {
    hide Spelling, DecodeField, WellFormed, Meaning, Room, IdOf;
    if ps != [] {
      StartsWithSplit(d, Spelling(ps[0]), Spell(ps[1..]));
      PieceReads(d, h, schema, ps[0]);
      AllRead(Advance(d, |Spelling(ps[0])|), h.(pos := h.pos + Room(ps[0].body, IdOf(ps[0].tag), schema)), schema, ps[1..]);
    }
  }

  // ----- what is read was well formed

  lemma {:induction false} DigitsFrom(d: Dec, acc: nat, k: nat) returns (s: seq<Byte>)
    requires d.Live() && k < 10 && VarintFrom(d, acc, k).1.Live()
    ensures StartsWith(d, s) && Digits(s) && k + |s| <= 10
    decreases 10 - k
  {
    hide Accumulate;
    assert d.Available();
    FromStep(d, acc, k);
    hide VarintFrom;
    var b := d.buf[d.pos];
    s := [b];
    if b >= 128 {
      var s' := DigitsFrom(Advance(d, 1), Accumulate(acc, b, k), k + 1);
      s := [b] + s';
      StartsWithJoin(d, [b], s');
    }
  }

  lemma StartsWithJoin(d: Dec, s: seq<Byte>, t: seq<Byte>)
    requires StartsWith(d, s) && StartsWith(Advance(d, |s|), t)
    ensures StartsWith(d, s + t)
  {
    var x := d.buf[d.pos..d.pos + |s + t|];
    assert x[..|s|] == s && x[|s|..] == t && x == x[..|s|] + x[|s|..];
  }

  lemma TakenFrom(d: Dec, n: nat) returns (s: seq<Byte>)
    requires d.Live() && n <= d.Left()
    ensures |s| == n && StartsWith(d, s)
  {
    s := d.buf[d.pos..d.pos + n];
  }

  lemma BlobFrom(d: Dec) returns (length: seq<Byte>)
    requires d.Live() && ReadLength(d, 2).1.Live()
    ensures StartsWith(d, length) && IsVarint(length) && Size(length) < 0x7FFF_FFFF
    ensures ReadLength(d, 2) == (Size(length), Advance(d, |length|))
  {
    length := DigitsFrom(d, 0, 0);
    LengthReads(d, length);
    hide ReadLength, Size;
  }

  lemma BodyFrom(d: Dec, h: Heap, schema: map<nat, Kind>, id: nat, wireType: nat) returns (b: Body)
    requires d.Live() && h.Valid() && DecodeBody(d, h, schema, id, wireType).1.Live()
    ensures StartsWith(d, BodyBytes(b)) && Fitting(b, id, wireType, schema) && Room(b, id, schema) <= h.Left()
  {
    hide VarintFrom, StartsWith, HeapAlloc, Size;
    if wireType == 0 {
      var digits := DigitsFrom(d, 0, 0);
      b := Scalar(digits);
    } else if wireType == 2 {
      var length := BlobFrom(d);
      var n, d1 := Size(length), Advance(d, |length|);
      BumpByOne(h, n);
      var data := TakenFrom(d1, n);
      StartsWithJoin(d, length, data);
      b := Blob(length, data);
    } else {
      var bytes := TakenFrom(d, if wireType == 1 then 8 else 4);
      b := if wireType == 1 then Eight(bytes) else Four(bytes);
    }
  }

  lemma PieceFrom(d: Dec, h: Heap, schema: map<nat, Kind>) returns (p: Piece)
    requires d.Live() && d.Available() && h.Valid() && DecodeField(d, h, schema).1.Live()
    ensures WellFormed(p, schema) && StartsWith(d, Spelling(p)) && Room(p.body, IdOf(p.tag), schema) <= h.Left()
  {
    hide VarintFrom, DecodeBody, IdOf, TypeOf, Fitting, Room, StartsWith, BodyBytes;
    var tag := DigitsFrom(d, 0, 0);
    TagReads(d, tag);
    hide ReadTag;
    var b := BodyFrom(Advance(d, |tag|), h, schema, IdOf(tag), TypeOf(tag));
    p := Piece(tag, b);
    StartsWithJoin(d, tag, BodyBytes(b));
  }

  lemma {:induction false} AllFrom(d: Dec, h: Heap, schema: map<nat, Kind>) returns (ps: seq<Piece>)
    requires d.Live() && h.Valid() && DecodeAll(d, h, schema).1.Live()
    ensures StartsWith(d, Spell(ps)) && d.Left() == |Spell(ps)| && (forall i :: 0 <= i < |ps| ==> WellFormed(ps[i], schema))
    ensures RoomAll(ps, schema) <= h.Left()
    decreases d.Left()
  {
    hide DecodeField, WellFormed, Spelling, Room, IdOf, Meaning;
    ps := [];
    if d.Available() {
      var (f, d1, h1) := DecodeField(d, h, schema);
      if d1.Live() {
        var p := PieceFrom(d, h, schema);
        PieceReads(d, h, schema, p);
        var rest := AllFrom(d1, h1, schema);
        ps := [p] + rest;
        assert ps[1..] == rest;
        StartsWithJoin(d, Spelling(p), Spell(rest));
      }
    }
  }

  // ----- the whole input

  /** For every input, heap and schema: decoding ends at the end of the input if and only if the input
      is made of whole fields, each of a form its number and wire type allow, and the memory for
      the known byte strings is there.  What is returned is what the known fields say. */
  lemma DecodesIff(input: seq<Byte>, h: Heap, schema: map<nat, Kind>)
    requires |input| <= INT_MAX && h.Valid()
    ensures var (fields, d, _) := DecodeAll(Dec(input, |input|, 0), h, schema);
      && (d.pos == |input| <==> exists ps :: MadeOf(input, ps, schema) && RoomAll(ps, schema) <= h.Left())
      && (forall ps :: MadeOf(input, ps, schema) && RoomAll(ps, schema) <= h.Left() ==> fields == MeaningAll(ps, schema))
  {
    var d := Dec(input, |input|, 0);
    hide DecodeAll, Spell, WellFormed, RoomAll, MeaningAll;
    if DecodeAll(d, h, schema).1.pos == |input| {
      var ps := AllFrom(d, h, schema);
      assert MadeOf(input, ps, schema);
    }
    forall ps | MadeOf(input, ps, schema) && RoomAll(ps, schema) <= h.Left()
      ensures DecodeAll(d, h, schema).1.pos == |input| && DecodeAll(d, h, schema).0 == MeaningAll(ps, schema)
    {
      AllRead(d, h, schema, ps);
    }
  }

  lemma {:induction false} RoomWithin(ps: seq<Piece>, schema: map<nat, Kind>)
    ensures RoomAll(ps, schema) <= |Spell(ps)|
  {
    if ps != [] { RoomWithin(ps[1..], schema); }
  }

  /** In the enclave's workspace memory does not matter: a request is accepted if and only if it is made
      of whole, well-formed fields. */
  lemma EnclaveDecodesIff(input: seq<Byte>, h: Heap, schema: map<nat, Kind>)
    requires |input| <= INT_MAX && h.Valid() && h.Left() >= |input|
    ensures DecodeAll(Dec(input, |input|, 0), h, schema).1.pos == |input| <==> exists ps :: MadeOf(input, ps, schema)
  {
    DecodesIff(input, h, schema);
    hide DecodeAll, RoomAll;
    forall ps | MadeOf(input, ps, schema) ensures RoomAll(ps, schema) <= |input| { RoomWithin(ps, schema); }
  }

  // ----- what is refused, and how

  // The decoder has stopped with this error.
  predicate Stopped(d: Dec, error: int) { d.size == d.pos == -error }

  // The input ends inside s.
  predicate EndsInside(d: Dec, s: seq<Byte>) { d.Live() && d.Left() < |s| && d.buf[d.pos..d.size] == s[..d.Left()] }

  lemma EndsInsideSplit(d: Dec, s: seq<Byte>, t: seq<Byte>)
    requires EndsInside(d, s + t)
    ensures if d.Left() < |s| then EndsInside(d, s) else StartsWith(d, s) && EndsInside(Advance(d, |s|), t)
  {
    var x := d.buf[d.pos..d.size];
    if d.Left() < |s| {
      assert (s + t)[..d.Left()] == s[..d.Left()];
    } else {
      assert x[..|s|] == (s + t)[..|s|] == s;
      assert x[|s|..] == (s + t)[|s|..d.Left()] == t[..d.Left() - |s|];
    }
  }

  lemma {:induction false} NumberCut(d: Dec, s: seq<Byte>, acc: nat, k: nat)
    requires EndsInside(d, s) && Digits(s) && k + |s| <= 10
    ensures Stopped(VarintFrom(d, acc, k).1, 2)
    decreases |s|
  {
    hide Accumulate;
    if d.Available() {
      assert d.buf[d.pos..d.size][0] == s[0];
      assert |s| > 1;
      FromStep(d, acc, k);
      assert [s[0]] + s[1..] == s;
      hide VarintFrom;
      EndsInsideSplit(d, [s[0]], s[1..]);
      NumberCut(Advance(d, 1), s[1..], Accumulate(acc, s[0], k), k + 1);
    }
  }

  lemma BodyCut(d: Dec, h: Heap, schema: map<nat, Kind>, b: Body, id: nat, wireType: nat)
    requires EndsInside(d, BodyBytes(b)) && Fitting(b, id, wireType, schema) && h.Valid() && Room(b, id, schema) <= h.Left()
    requires d.pos + |BodyBytes(b)| <= INT_MAX
    ensures Stopped(DecodeBody(d, h, schema, id, wireType).1, 2)
  {
    hide VarintFrom, Size, HeapAlloc;
    match b
    case Scalar(digits) => NumberCut(d, digits, 0, 0);
    case Blob(length, data) =>
      EndsInsideSplit(d, length, data);
      BumpByOne(h, |data|);
      if d.Left() < |length| {
        NumberCut(d, length, 0, 0);
        BumpByOne(h, 0);
      } else {
        LengthReads(d, length);
        hide ReadLength;
      }
    case _ =>
  }

  lemma PieceCut(d: Dec, h: Heap, schema: map<nat, Kind>, p: Piece)
    requires EndsInside(d, Spelling(p)) && d.Available() && WellFormed(p, schema) && h.Valid()
    requires Room(p.body, IdOf(p.tag), schema) <= h.Left() && d.pos + |Spelling(p)| <= INT_MAX
    ensures Stopped(DecodeField(d, h, schema).1, 2)
  {
    Formed(p, schema);
    EndsInsideSplit(d, p.tag, BodyBytes(p.body));
    hide DecodeBody, VarintFrom, IdOf, TypeOf, BodyBytes, Fitting, WellFormed, Room, EndsInside, StartsWith;
    if d.Left() < |p.tag| {
      NumberCut(d, p.tag, 0, 0);
    } else {
      TagReads(d, p.tag);
      hide ReadTag, IsVarint;
      BodyCut(Advance(d, |p.tag|), h, schema, p.body, IdOf(p.tag), TypeOf(p.tag));
    }
  }

  /** A message that ends inside a field, wherever, is refused as out of data. */
  lemma {:induction false} CutShort(d: Dec, h: Heap, schema: map<nat, Kind>, ps: seq<Piece>, p: Piece)
    requires StartsWith(d, Spell(ps)) && (forall i :: 0 <= i < |ps| ==> WellFormed(ps[i], schema)) && WellFormed(p, schema)
    requires EndsInside(Advance(d, |Spell(ps)|), Spelling(p)) && d.Left() > |Spell(ps)|
    requires h.Valid() && RoomAll(ps, schema) + Room(p.body, IdOf(p.tag), schema) <= h.Left()
    requires d.pos + |Spell(ps)| + |Spelling(p)| <= INT_MAX
    ensures DecodeAll(d, h, schema).1.pos == -2
    decreases |ps|
  {
    hide Spelling, DecodeField, WellFormed, Meaning, Room, IdOf, EndsInside;
    if ps == [] {
      PieceCut(d, h, schema, p);
    } else {
      StartsWithSplit(d, Spelling(ps[0]), Spell(ps[1..]));
      PieceReads(d, h, schema, ps[0]);
      AdvanceTwice(d, |Spelling(ps[0])|, |Spell(ps[1..])|);
      CutShort(Advance(d, |Spelling(ps[0])|), h.(pos := h.pos + Room(ps[0].body, IdOf(ps[0].tag), schema)), schema, ps[1..], p);
    }
  }

  /** A tag that is no field's: number zero, or a wire type that its field does not have or nobody has. */
  lemma TagRefused(d: Dec, h: Heap, schema: map<nat, Kind>, tag: seq<Byte>)
    requires StartsWith(d, tag) && IsVarint(tag) && d.Available() && h.Valid()
    ensures var id, wireType, d' := IdOf(tag), TypeOf(tag), DecodeField(d, h, schema).1;
      && (id == 0 ==> Stopped(d', 5))
      && (id > 0 && id in schema && wireType != (if schema[id].IsNumber? then 0 else 2) ==> Stopped(d', 1))
      && (id > 0 && id !in schema && wireType !in {0, 1, 2, 5} ==> Stopped(d', 1))
  {
    TagReads(d, tag);
    BumpByOne(h, 0);
    hide ReadTag, ReadVarint, IdOf, TypeOf, HeapAlloc, StartsWith;
  }

  /** A length of 2^31 - 1 or more, one for which there is no memory, and one that leads out of the range of int. */
  lemma LengthRefused(d: Dec, h: Heap, schema: map<nat, Kind>, id: nat, length: seq<Byte>)
    requires StartsWith(d, length) && IsVarint(length) && h.Valid() && Accepts(schema, id, IsBytes)
    ensures var n, d' := Size(length), DecodeBody(d, h, schema, id, 2).1;
      && (n >= 0x7FFF_FFFF ==> Stopped(d', 8))
      && (h.Left() < n < 0x7FFF_FFFF && id in schema ==> Stopped(d', 3))
      && (n < 0x7FFF_FFFF < d.pos + |length| + n && id !in schema ==> Stopped(d', 7))
  {
    LengthReads(d, length);
    var n := Size(length);
    BumpByOne(h, if n >= 0x7FFF_FFFF then 0 else n);
    hide ReadLength, HeapAlloc, Size, StartsWith;
  }

  /** Ten bytes that all say there is more, in a tag, a number or a length. */
  lemma {:induction false} EndlessRefused(d: Dec, acc: nat, k: nat)
    requires d.Live() && k < 10 && d.Left() >= 10 - k && forall i :: d.pos <= i < d.pos + 10 - k ==> d.buf[i] >= 128
    ensures Stopped(VarintFrom(d, acc, k).1, 6)
    decreases 10 - k
  {
    hide Accumulate;
    FromStep(d, acc, k);
    hide VarintFrom;
    if k < 9 { EndlessRefused(Advance(d, 1), Accumulate(acc, d.buf[d.pos], k), k + 1); }
  }

  // ----- what the encoder writes

  /** A field is written as one well-formed piece, whatever schema knows it as such or not at all, and that
      piece says just this field; the low bits of its first byte are 0 for a number and 2 for bytes. */
  lemma FieldIsPiece(f: Field, schema: map<nat, Kind>) returns (p: Piece)
    requires Encodable(f) && Accepts(schema, f.id, if f.Number? then IsNumber else IsBytes)
    ensures WellFormed(p, schema) && Spelling(p) == FieldBytes(f) && IdOf(p.tag) == f.id
    ensures f.id in schema ==> Meaning(p.body, f.id, schema) == [f]
    ensures FieldBytes(f)[0] % 8 == if f.Number? then 0 else 2
  {
    KeySpelled(f.id, if f.Number? then 0 else 2);
    NumberSpelled(if f.Number? then f.value else |f.data|);
    hide Varint, Value, IsVarint, IdOf, TypeOf;
    match f
    case Number(id, value) =>
      p := Piece(Varint(id * 8), Scalar(Varint(value)));
    case Bytes(id, data) =>
      p := Piece(Varint(id * 8 + 2), Blob(Varint(|data|), data));
      assert Spelling(p) == p.tag + Varint(|data|) + data;
  }

  lemma KeySpelled(id: nat, wireType: nat)
    requires 0 < id < 0x2000_0000 && wireType < 8
    ensures var tag := Varint(id * 8 + wireType);
      tag != [] && IsVarint(tag) && IdOf(tag) == id && TypeOf(tag) == wireType && tag[0] % 8 == wireType
  {
    var key := id * 8 + wireType;
    NumberSpelled(key);
    assert Varint(key)[0] % 8 == key % 8;
    hide Varint, Value, IsVarint;
    KeyParts(id, wireType);
  }

  lemma KeyParts(id: nat, wireType: nat)
    requires 0 < id < 0x2000_0000 && wireType < 8
    ensures var key := id * 8 + wireType; key % 0x1_0000_0000 / 8 == id && key % 8 == wireType
  {
  }

  lemma NumberSpelled(v: U64)
    ensures IsVarint(Varint(v)) && Value(Varint(v)) == v && Size(Varint(v)) == v
  {
    hide Varint, Value, Digits;
    VarintDigits(v);
    VarintFits(v);
  }
}
