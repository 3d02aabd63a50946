/** The Protocol Buffers wire format as used by c/proto/pbtools.c: what bytes a list of
    fields stands for, and the backward encoder that produces them. */
module Wire {
  import opened Words

  const VARINT: nat := 0
  const FIXED64: nat := 1
  const LENGTH_DELIMITED: nat := 2
  const FIXED32: nat := 5

  const BAD_WIRE_TYPE: int := 1
  const OUT_OF_DATA: int := 2
  const OUT_OF_MEMORY: int := 3
  const BUFFER_FULL: int := 4
  const BAD_FIELD_NUMBER: int := 5
  const VARINT_OVERFLOW: int := 6
  const SEEK_OVERFLOW: int := 7
  const LENGTH_OVERFLOW: int := 8

  datatype Field = Number(id: nat, value: U64) | Bytes(id: nat, data: seq<Byte>)

  // ----- the format

  // Base 128, low group first, high bit set on all but the last byte.
  function Varint(v: nat): (s: seq<Byte>)
    ensures |s| > 0
  {
    if v < 128 then [v] else [v % 128 + 128] + Varint(v / 128)
  }

  // The form such a number may have: the high bit on all bytes but the last, and at most ten bytes.
  predicate Digits(s: seq<Byte>) {
    |s| > 0 && s[|s| - 1] < 128 && forall i :: 0 <= i < |s| - 1 ==> s[i] >= 128
  }

  predicate IsVarint(s: seq<Byte>) { |s| <= 10 && Digits(s) }

  function Value(s: seq<Byte>): nat {
    if s == [] then 0 else s[0] % 128 + 128 * Value(s[1..])
  }

  lemma {:induction false} VarintDigits(v: nat)
    ensures Digits(Varint(v)) && Value(Varint(v)) == v
  {
    if v >= 128 {
      VarintDigits(v / 128);
      assert Varint(v)[1..] == Varint(v / 128);
    } else {
      assert [v][1..] == [];
    }
  }

  function Tag(id: nat, wireType: nat): nat { id * 8 + wireType }

  function FieldBytes(f: Field): seq<Byte> {
    match f
    case Number(id, value) => Varint(Tag(id, VARINT)) + Varint(value)
    case Bytes(id, data) => Varint(Tag(id, LENGTH_DELIMITED)) + Varint(|data|) + data
  }

  function Message(fs: seq<Field>): seq<Byte> {
    if fs == [] then [] else FieldBytes(fs[0]) + Message(fs[1..])
  }

  // Field numbers fit the 29 bits of a tag; byte strings fit the encoder's int.
  predicate Encodable(f: Field) {
    0 < f.id < 0x2000_0000 && (f.Bytes? ==> |f.data| < INT_MAX)
  }

  // Zero numbers and empty byte strings are not written.
  predicate Present(f: Field) {
    match f
    case Number(_, value) => value > 0
    case Bytes(_, data) => data != []
  }

  function Kept(fs: seq<Field>): seq<Field> {
    if fs == [] then [] else (if Present(fs[0]) then [fs[0]] else []) + Kept(fs[1..])
  }

  /** What is written are exactly the non-zero numbers and the non-empty byte strings. */
  lemma {:induction false} KeptIff(fs: seq<Field>, f: Field)
    ensures f in Kept(fs) <==> f in fs && match f case Number(_, value) => value != 0 case Bytes(_, data) => |data| != 0
  {
    if fs != [] { KeptIff(fs[1..], f); }
  }

  lemma {:induction false} VarintLength(v: nat, k: nat)
    requires k > 0 && v < Pow2(7 * k)
    ensures |Varint(v)| <= k
  {
    if v >= 128 {
      if k == 1 { Pow2Literals(); } else {
        Pow2Add(7, 7 * (k - 1));
        Pow2Literals();
        DivLess(v, Pow2(7 * (k - 1)), 128);
        VarintLength(v / 128, k - 1);
      }
    }
  }

  // A 64-bit value takes at most the ten bytes of the encoder's local buffer.
  lemma VarintFits(v: U64)
    ensures |Varint(v)| <= 10
  {
    Pow2Literals();
    Pow2Monotone(64, 70);
    VarintLength(v, 10);
  }

  // ----- the encoder

  // What an encoder holds: the bytes so far in final order, or nothing any more.
  datatype View = Full | Text(s: seq<Byte>)

  // One byte of the buffer always stays free.
  function Prepend(v: View, data: seq<Byte>, cap: nat): View {
    if v.Full? || |data| + |v.s| >= cap then Full else Text(data + v.s)
  }

  function PrependField(v: View, f: Field, cap: nat): View {
    if Present(f) then Prepend(v, FieldBytes(f), cap) else v
  }

  function PrependAll(v: View, fs: seq<Field>, cap: nat): View {
    if fs == [] then v else PrependField(PrependAll(v, fs[1..], cap), fs[0], cap)
  }

  lemma PrependTwice(v: View, a: seq<Byte>, b: seq<Byte>, cap: nat)
    ensures Prepend(Prepend(v, a, cap), b, cap) == Prepend(v, b + a, cap)
  {
    if v.Text? { assert b + (a + v.s) == b + a + v.s; }
  }

  /** Writing the fields last to first gives the whole message or nothing. */
  lemma {:induction false} PrependAllIsMessage(fs: seq<Field>, cap: nat)
    ensures PrependAll(Text([]), fs, cap) ==
      if Kept(fs) == [] then Text([]) else Prepend(Text([]), Message(Kept(fs)), cap)
  {
    if fs != [] {
      PrependAllIsMessage(fs[1..], cap);
      var rest := Kept(fs[1..]);
      if Present(fs[0]) {
        assert Kept(fs)[1..] == rest;
        if rest == [] {
          assert FieldBytes(fs[0]) + [] == FieldBytes(fs[0]);
        } else {
          PrependTwice(Text([]), Message(rest), FieldBytes(fs[0]), cap);
        }
      } else {
        assert Kept(fs) == rest;
      }
    }
  }

  /** Writes towards the front of buf; `pos` is the last free index.  A write that does not
      fit turns both size and pos into minus the error, for good. */
  class Encoder {
    const buf: array<Byte>
    var size: int
    var pos: int

    ghost predicate Valid()
      reads this
    {
      && buf.Length <= INT_MAX
      && (size == pos == -4 || (size == buf.Length && -1 <= pos < size && (pos == -1 ==> size == 0)))
    }

    ghost function Content(): View
      requires Valid()
      reads this, buf
    {
      if size < 0 then Full else Text(buf[pos + 1..])
    }

    /** encoder_init */
    constructor (buf: array<Byte>)
      requires buf.Length <= INT_MAX
      ensures Valid() && Content() == Text([]) && this.buf == buf
    {
      this.buf := buf;
      this.size := buf.Length;
      this.pos := buf.Length - 1;
    }

    /** encoder_write, and encoder_abort when the bytes do not fit. */
    method Write(data: seq<Byte>)
      requires Valid() && |data| <= INT_MAX
      modifies this, buf
      ensures Valid() && Content() == Prepend(old(Content()), data, buf.Length)
    {
      if pos >= |data| {
        pos := pos - |data|;
        var p := pos + 1;
        forall i | 0 <= i < |data| { buf[p + i] := data[i]; }
        assert buf[p..] == data + old(buf[pos + 1..]);
      } else if size >= 0 {
        size := -BUFFER_FULL;
        pos := -BUFFER_FULL;
      }
    }

    /** encoder_write_varint */
    method WriteVarint(value: U64)
      requires Valid()
      modifies this, buf
      ensures Valid() && Content() == Prepend(old(Content()), Varint(value), buf.Length)
    {
      VarintFits(value);
      var tmp := VarintBytes(value);
      Write(tmp);
    }

    /** encoder_write_tag */
    method WriteTag(id: nat, wireType: nat)
      requires Valid() && id < 0x2000_0000 && wireType < 8
      modifies this, buf
      ensures Valid() && Content() == Prepend(old(Content()), Varint(Tag(id, wireType)), buf.Length)
    {
      hide Or, Varint, Prepend;
      TagBits(id, wireType);
      WriteVarint(Or(id * 8, wireType));
    }

    /** encoder_write_tagged_varint */
    method WriteTaggedVarint(id: nat, wireType: nat, value: U64)
      requires Valid() && id < 0x2000_0000 && wireType < 8
      modifies this, buf
      ensures Valid()
      ensures Content() == if value > 0
        then Prepend(old(Content()), Varint(Tag(id, wireType)) + Varint(value), buf.Length) else old(Content())
    {
      if value > 0 {
        PrependTwice(Content(), Varint(value), Varint(Tag(id, wireType)), buf.Length);
        WriteVarint(value);
        WriteTag(id, wireType);
      }
    }

    /** pbtools_encoder_write_uint64 and pbtools_encoder_write_bytes */
    method WriteField(f: Field)
      requires Valid() && Encodable(f)
      modifies this, buf
      ensures Valid() && Content() == PrependField(old(Content()), f, buf.Length)
    {
      match f
      case Number(id, value) =>
        WriteTaggedVarint(id, VARINT, value);
      case Bytes(id, data) =>
        if |data| > 0 {
          PrependTwice(Content(), data, Varint(Tag(id, LENGTH_DELIMITED)) + Varint(|data|), buf.Length);
          Write(data);
          WriteTaggedVarint(id, LENGTH_DELIMITED, |data|);
        }
    }

    /** encoder_get_result: the message moved to the front of the buffer, or minus the error. */
    method Result() returns (length: int)
      requires Valid()
      modifies buf
      ensures match old(Content())
        case Full => length == -4
        case Text(s) =>
          if buf.Length == 0 then length == -1 else length == |s| < buf.Length && buf[..length] == s
    {
      if pos >= 0 {
        length := size - pos - 1;
        MoveToFront(buf, pos + 1);
      } else {
        length := pos;
      }
    }
  }

  lemma TagBits(id: nat, wireType: nat)
    requires wireType < 8
    ensures Or(id * 8, wireType) == Tag(id, wireType)
  {
    hide Or;
    Pow2Literals();
    assert Pow2(3) == 8;
    OrDisjoint(id, 3, wireType);
  }

  // memmove of everything from p on to the front.
  method MoveToFront(buf: array<Byte>, p: nat)
    requires p <= buf.Length
    modifies buf
    ensures buf[..buf.Length - p] == old(buf[p..])
  {
    forall i | 0 <= i < buf.Length - p { buf[i] := buf[p + i]; }
  }

  /** pbtools_message_encode, the fields written last to first.  A buffer strictly larger than
      the message gets exactly the message; a smaller one gives the sticky error; an empty
      message into an empty buffer is the odd case and gives -1. */
  method Encode(fs: seq<Field>, buf: array<Byte>) returns (length: int)
    requires buf.Length <= INT_MAX && forall i :: 0 <= i < |fs| ==> Encodable(fs[i])
    modifies buf
    ensures var m := Message(Kept(fs));
      && (|m| < buf.Length ==> length == |m| && buf[..length] == m)
      && (|m| >= buf.Length && m != [] ==> length == -4)
      && (m == [] && buf.Length == 0 ==> length == -1)
  {
    hide *;
    var e := new Encoder(buf);
    var i := |fs|;
    PrependNone(buf.Length);
    assert fs[i..] == [];
    while i > 0
      invariant 0 <= i <= |fs| && e.Valid() && e.buf == buf
      invariant e.Content() == PrependAll(Text([]), fs[i..], buf.Length)
      modifies e, buf
    {
      i := i - 1;
      PrependStep(fs, i, buf.Length);
      e.WriteField(fs[i]);
    }
    assert fs[0..] == fs;
    WholeOrNothing(fs, buf.Length);
    length := e.Result();
  }

  lemma PrependNone(cap: nat)
    ensures PrependAll(Text([]), [], cap) == Text([])
  {
  }

  lemma PrependStep(fs: seq<Field>, i: nat, cap: nat)
    requires i < |fs|
    ensures PrependAll(Text([]), fs[i..], cap) == PrependField(PrependAll(Text([]), fs[i + 1..], cap), fs[i], cap)
  {
    assert fs[i..][1..] == fs[i + 1..];
  }

  lemma WholeOrNothing(fs: seq<Field>, cap: nat)
    ensures var m := Message(Kept(fs));
      PrependAll(Text([]), fs, cap) == if m == [] || |m| < cap then Text(m) else Full
  {
    PrependAllIsMessage(fs, cap);
    KeptMessage(fs);
    hide Message, Kept, PrependAll;
    assert Message(Kept(fs)) + [] == Message(Kept(fs));
  }

  lemma KeptMessage(fs: seq<Field>)
    ensures Kept(fs) == [] <==> Message(Kept(fs)) == []
  {
    if Kept(fs) != [] { assert |FieldBytes(Kept(fs)[0])| > 0; }
  }

  /** The loop of encoder_write_varint: seven bits at a time with the high bit set, which is
      cleared again on the last byte. */
  method VarintBytes(value: U64) returns (tmp: seq<Byte>)
    ensures tmp == Varint(value)
  {
    hide Or, And, Pow2;
    tmp := [];
    var v := value;
    while true
      invariant tmp + Varint(v) == Varint(value)
      invariant v < 0x1_0000_0000_0000_0000
      decreases v
    {
      OrHighBit(v);
      ghost var done := tmp;
      tmp := tmp + [Or(v, 0x80) % 256];
      if v / 128 == 0 {
        ClearHighBit(v + 128);
        assert done + [v] == Varint(value);
        break;
      }
      assert done + Varint(v) == tmp + Varint(v / 128);
      v := v / 128;
    }
    tmp := tmp[|tmp| - 1 := And(tmp[|tmp| - 1], 0x7f)];
  }

  lemma ClearHighBit(b: nat)
    ensures And(b, 0x7f) == b % 128
  {
    AndLowMask(b, 7);
    Pow2Literals();
  }

  // `value | 0x80` truncated to a byte: the low seven bits with the high bit set.
  lemma OrHighBit(v: nat)
    ensures Or(v, 0x80) % 256 == v % 128 + 128
  {
    OrBit(v, 7);
    Pow2Literals();
    assert Pow2(8) == 256;
  }
}
