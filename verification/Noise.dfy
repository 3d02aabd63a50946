/** Chunked Noise messages, c/noiseutil/noise.c: plaintexts of any length as a concatenation of
    packets no longer than the 65535 bytes of section 3 of the Noise Protocol Framework. */
module Noise {
  import opened Options
  import opened Words

  const NOISE_MAX_PACKET_SIZE: nat := 65535
  const NOISE_MAC_SIZE: nat := 16
  const NOISE_MAX_DATA_SIZE: nat := 65519

  // A cipher state as a function of its message counter: sealing adds a tag, unsealing
  // checks and removes it or fails.
  datatype Cipher = Cipher(seal: (nat, seq<Byte>) -> seq<Byte>, unseal: (nat, seq<Byte>) -> Option<seq<Byte>>)

  ghost predicate Tagged(c: Cipher) {
    && (forall n: nat, p: seq<Byte> {:trigger c.seal(n, p)} :: |c.seal(n, p)| == |p| + 16)
    && (forall n: nat, x: seq<Byte> {:trigger c.unseal(n, x)} :: c.unseal(n, x).Some? ==> |x| == |c.unseal(n, x).value| + 16)
  }

  ghost predicate Inverse(c: Cipher) {
    forall n: nat, p: seq<Byte> {:trigger c.seal(n, p)} :: c.unseal(n, c.seal(n, p)) == Some(p)
  }

  function Min(a: nat, b: nat): nat { if a < b then a else b }

  // The packets of a plaintext, starting with message counter n.
  function Packets(c: Cipher, n: nat, p: seq<Byte>): seq<Byte>
    decreases |p|
  {
    if p == [] then []
    else
      var k := Min(|p|, NOISE_MAX_DATA_SIZE);
      c.seal(n, p[..k]) + Packets(c, n + 1, p[k..])
  }

  function Unpack(c: Cipher, n: nat, x: seq<Byte>): Option<seq<Byte>>
    decreases |x|
  {
    if x == [] then Some([])
    else
      var k := Min(|x|, NOISE_MAX_PACKET_SIZE);
      var first := c.unseal(n, x[..k]);
      if first.None? then None
      else
        var rest := Unpack(c, n + 1, x[k..]);
        if rest.None? then None else Some(first.value + rest.value)
  }

  function Count(len: nat): nat { (len + 65518) / 65519 }

  /** The ciphertext is the plaintext plus one tag per packet. */
  lemma {:induction false} PacketsLength(c: Cipher, n: nat, p: seq<Byte>)
    requires Tagged(c)
    ensures |Packets(c, n, p)| == |p| + 16 * Count(|p|)
    decreases |p|
  {
    if p != [] {
      var k := Min(|p|, NOISE_MAX_DATA_SIZE);
      PacketsLength(c, n + 1, p[k..]);
      assert Count(|p|) == 1 + Count(|p| - k);
    }
  }

  /** Unpacking under a synchronised cipher state returns the plaintext. */
  lemma {:induction false} RoundTrip(c: Cipher, n: nat, p: seq<Byte>)
    requires Tagged(c) && Inverse(c)
    ensures Unpack(c, n, Packets(c, n, p)) == Some(p)
    decreases |p|
  {
    if p != [] {
      var k := Min(|p|, NOISE_MAX_DATA_SIZE);
      var first, rest := c.seal(n, p[..k]), Packets(c, n + 1, p[k..]);
      RoundTrip(c, n + 1, p[k..]);
      var x := Packets(c, n, p);
      if |p| <= 65519 {
        assert p[k..] == [] && p[..k] == p;
        assert x == first + [];
        assert x[..|x|] == first && x[|x|..] == [];
        assert p + [] == p;
      } else {
        assert x[..65535] == first && x[65535..] == rest;
        assert p == p[..k] + p[k..];
      }
    }
  }

  // Piece i of a sequence cut into pieces of this size, the last one as it comes.
  function Piece(x: seq<Byte>, size: nat, i: nat): seq<Byte>
    requires size * i < |x|
  {
    x[size * i..Min(|x|, size * i + size)]
  }

  lemma PieceShift(x: seq<Byte>, size: nat, i: nat)
    requires size > 0 && i > 0 && size * i < |x|
    ensures size <= |x| && size * (i - 1) < |x| - size && Piece(x, size, i) == Piece(x[size..], size, i - 1)
  {
    assert size * i == size * (i - 1) + size;
    var a, b := size * (i - 1), Min(|x| - size, size * (i - 1) + size);
    assert a >= 0;
    assert x[size..][a..b] == x[size + a..size + b];
  }

  /** Packet i is the i-th piece of 65519 bytes, sealed under message number n + i. */
  lemma {:induction false} PacketAt(c: Cipher, n: nat, p: seq<Byte>, i: nat)
    requires Tagged(c) && 65519 * i < |p|
    ensures 65535 * i < |Packets(c, n, p)| && Piece(Packets(c, n, p), 65535, i) == c.seal(n + i, Piece(p, 65519, i))
    decreases i
  {
    if i == 0 {
      FirstPacket(c, n, p);
    } else {
      var first, rest := c.seal(n, p[..65519]), Packets(c, n + 1, p[65519..]);
      FullPacket(c, n, p);
      hide *;
      PieceShift(p, 65519, i);
      PacketAt(c, n + 1, p[65519..], i - 1);
      LaterPiece(first, rest, 65535, i);
    }
  }

  lemma FirstPacket(c: Cipher, n: nat, p: seq<Byte>)
    requires Tagged(c) && p != []
    ensures Packets(c, n, p) != [] && Piece(Packets(c, n, p), 65535, 0) == c.seal(n, Piece(p, 65519, 0))
  {
    var k := Min(|p|, 65519);
    var first, rest := c.seal(n, p[..k]), Packets(c, n + 1, p[k..]);
    assert Piece(p, 65519, 0) == p[..k];
    assert Packets(c, n, p) == first + rest && |first| == k + 16 && (|p| <= 65519 ==> rest == []);
    hide Packets, Tagged, Piece;
    FirstPiece(first, rest, 65535);
  }

  lemma FullPacket(c: Cipher, n: nat, p: seq<Byte>)
    requires Tagged(c) && |p| > 65519
    ensures |c.seal(n, p[..65519])| == 65535 && Packets(c, n, p) == c.seal(n, p[..65519]) + Packets(c, n + 1, p[65519..])
  {
  }

  lemma FirstPiece(first: seq<Byte>, rest: seq<Byte>, size: nat)
    requires 0 < |first| <= size && (|first| < size ==> rest == [])
    ensures Piece(first + rest, size, 0) == first
  {
  }

  lemma LaterPiece(first: seq<Byte>, rest: seq<Byte>, size: nat, i: nat)
    requires size == |first| && size > 0 && i > 0 && size * (i - 1) < |rest|
    ensures size * i < |first + rest| && Piece(first + rest, size, i) == Piece(rest, size, i - 1)
  {
    assert size * i == size * (i - 1) + size;
    assert (first + rest)[size..] == rest;
    PieceShift(first + rest, size, i);
  }

  // Every packet opens under its message number.
  ghost predicate AllOpen(c: Cipher, n: nat, x: seq<Byte>) {
    forall i: nat :: 65535 * i < |x| ==> Opens(c, n, x, i)
  }

  ghost predicate Opens(c: Cipher, n: nat, x: seq<Byte>, i: nat)
    requires 65535 * i < |x|
  {
    c.unseal(n + i, Piece(x, 65535, i)).Some?
  }

  lemma OpensShift(c: Cipher, n: nat, x: seq<Byte>, i: nat)
    requires |x| > 65535 && 65535 * i < |x| - 65535
    ensures Opens(c, n + 1, x[65535..], i) == Opens(c, n, x, i + 1)
  {
    PieceShift(x, 65535, i + 1);
  }

  // One packet after the other.
  lemma AllOpenStep(c: Cipher, n: nat, x: seq<Byte>)
    requires |x| > 65535
    ensures AllOpen(c, n, x) <==> c.unseal(n, x[..65535]).Some? && AllOpen(c, n + 1, x[65535..])
  {
    assert x[..65535] == Piece(x, 65535, 0);
    assert Opens(c, n, x, 0) == c.unseal(n, x[..65535]).Some?;
    var rest := x[65535..];
    hide Opens;
    forall i: nat | 65535 * i < |rest| ensures Opens(c, n + 1, rest, i) == Opens(c, n, x, i + 1) { OpensShift(c, n, x, i); }
    if AllOpen(c, n + 1, rest) && Opens(c, n, x, 0) {
      forall i: nat | 65535 * i < |x| ensures Opens(c, n, x, i) {
        if i > 0 { assert Opens(c, n + 1, rest, i - 1); }
      }
    }
    if AllOpen(c, n, x) {
      forall i: nat | 65535 * i < |rest| ensures Opens(c, n + 1, rest, i) { assert Opens(c, n, x, i + 1); }
    }
  }

  lemma AllOpenLast(c: Cipher, n: nat, x: seq<Byte>)
    requires 0 < |x| <= 65535
    ensures AllOpen(c, n, x) <==> c.unseal(n, x).Some?
  {
    assert x == Piece(x, 65535, 0);
    assert Opens(c, n, x, 0) == c.unseal(n, x).Some?;
  }

  /** A ciphertext unpacks if and only if each of its packets opens, under successive message numbers. */
  lemma {:induction false} UnpackIff(c: Cipher, n: nat, x: seq<Byte>)
    ensures Unpack(c, n, x).Some? <==> AllOpen(c, n, x)
    decreases |x|
  {
    if 0 < |x| <= 65535 {
      assert x[..|x|] == x && x[|x|..] == [];
      AllOpenLast(c, n, x);
      hide AllOpen;
    } else if |x| > 65535 {
      UnpackIff(c, n + 1, x[65535..]);
      AllOpenStep(c, n, x);
      hide AllOpen;
    }
  }

  /** And what comes out are the opened packets in order, nothing between them. */
  lemma {:induction false} UnpackAt(c: Cipher, n: nat, x: seq<Byte>, i: nat)
    requires Tagged(c) && 65535 * i < |x| && Unpack(c, n, x).Some?
    ensures Opens(c, n, x, i)
    ensures var p, part := Unpack(c, n, x).value, c.unseal(n + i, Piece(x, 65535, i)).value;
      65519 * i + |part| <= |p| && p[65519 * i..65519 * i + |part|] == part && (65535 * i + 65535 >= |x| ==> |p| == 65519 * i + |part|)
    decreases i
  {
    if i == 0 {
      assert x[..Min(|x|, 65535)] == Piece(x, 65535, 0);
    } else {
      UnpackFull(c, n, x);
      hide Unpack, Tagged;
      UnpackAt(c, n + 1, x[65535..], i - 1);
      PieceShift(x, 65535, i);
      hide Piece;
      var part := c.unseal(n + i, Piece(x, 65535, i)).value;
      SliceBehind(c.unseal(n, x[..65535]).value, Unpack(c, n + 1, x[65535..]).value, 65519 * (i - 1), |part|);
    }
  }

  lemma SliceBehind(first: seq<Byte>, rest: seq<Byte>, a: nat, n: nat)
    requires a + n <= |rest|
    ensures (first + rest)[|first| + a..|first| + a + n] == rest[a..a + n]
  {
  }

  lemma UnpackFull(c: Cipher, n: nat, x: seq<Byte>)
    requires Tagged(c) && |x| > 65535 && Unpack(c, n, x).Some?
    ensures var first, rest := c.unseal(n, x[..65535]), Unpack(c, n + 1, x[65535..]);
      first.Some? && rest.Some? && |first.value| == 65519 && Unpack(c, n, x).value == first.value + rest.value
  {
  }

  lemma PacketsStep(c: Cipher, n: nat, p: seq<Byte>, i: nat)
    requires i < |p|
    ensures var k := Min(|p| - i, NOISE_MAX_DATA_SIZE);
      Packets(c, n, p[i..]) == c.seal(n, p[i..i + k]) + Packets(c, n + 1, p[i + k..])
  {
    var k := Min(|p| - i, NOISE_MAX_DATA_SIZE);
    assert p[i..][..k] == p[i..i + k] && p[i..][k..] == p[i + k..];
  }

  lemma PacketsNone(c: Cipher, n: nat)
    ensures Packets(c, n, []) == []
  {
  }

  // memcpy of a packet behind what is already there.
  method Put(a: array<Byte>, off: nat, s: seq<Byte>)
    requires off + |s| <= a.Length
    modifies a
    ensures a[..off + |s|] == old(a[..off]) + s
  {
    forall i | 0 <= i < |s| { a[off + i] := s[i]; }
  }

  /** noise_encrypt_message: succeeds exactly when the buffer holds the packets, and then
      holds them. */
  method EncryptMessage(c: Cipher, n: nat, plaintext: seq<Byte>, ciphertext: array<Byte>)
    returns (ok: bool, size: nat)
    requires Tagged(c)
    modifies ciphertext
    ensures ok <==> |Packets(c, n, plaintext)| <= ciphertext.Length
    ensures ok ==> size == |plaintext| + 16 * Count(|plaintext|) <= ciphertext.Length
    ensures ok ==> ciphertext[..size] == Packets(c, n, plaintext)
  {
    hide Packets, Count;
    PacketsLength(c, n, plaintext);
    var p, off, k := 0, 0, n;
    ghost var done, left := [], Packets(c, n, plaintext);
    assert plaintext[0..] == plaintext;
    while p < |plaintext|
      invariant 0 <= p <= |plaintext| && 0 <= off <= ciphertext.Length && k >= n
      invariant ciphertext[..off] == done && left == Packets(c, k, plaintext[p..])
      invariant done + left == Packets(c, n, plaintext)
    {
      var m := if p + NOISE_MAX_DATA_SIZE > |plaintext| then |plaintext| - p else NOISE_MAX_DATA_SIZE;
      var chunk := plaintext[p..p + m];
      var packet := c.seal(k, chunk);
      PacketsStep(c, k, plaintext, p);
      if off + m + NOISE_MAC_SIZE > ciphertext.Length {
        return false, 0;
      }
      Put(ciphertext, off, packet);
      left := Packets(c, k + 1, plaintext[p + m..]);
      Reassociate(done, packet, left);
      done := done + packet;
      off := off + |packet|;
      p := p + m;
      k := k + 1;
    }
    assert plaintext[p..] == [];
    PacketsNone(c, k);
    return true, off;
  }

  lemma Reassociate(a: seq<Byte>, b: seq<Byte>, c: seq<Byte>)
    ensures a + (b + c) == (a + b) + c
  {
  }

  // How many bytes of ciphertext decryption looks at: up to and with the first packet it rejects.
  function Attempted(c: Cipher, n: nat, x: seq<Byte>): nat
    decreases |x|
  {
    if x == [] then 0
    else
      var k := Min(|x|, NOISE_MAX_PACKET_SIZE);
      if c.unseal(n, x[..k]).None? then k else k + Attempted(c, n + 1, x[k..])
  }

  // The room it takes to move the packets of s bytes of ciphertext one by one behind the plaintext
  // so far: the last packet whole, and the one before it.
  function Need(s: nat): nat {
    if s == 0 then 0 else var k := (s - 1) / 65535; Max(s - 16 * k, if k == 0 then 0 else 65519 * k + 16)
  }

  lemma NeedAt(j: nat, m: nat)
    requires 1 <= m <= 65535
    ensures Need(65535 * j + m) == Max(65519 * j + m, if j == 0 then 0 else 65519 * j + 16)
  {
  }

  lemma NeedMonotone(s: nat, t: nat)
    requires s <= t
    ensures Need(s) <= Need(t) <= t
  {
  }

  lemma {:induction false} AttemptedAtMost(c: Cipher, n: nat, x: seq<Byte>)
    ensures Attempted(c, n, x) <= |x|
    decreases |x|
  {
    if x != [] { AttemptedAtMost(c, n + 1, x[Min(|x|, NOISE_MAX_PACKET_SIZE)..]); }
  }

  // One packet: memmove behind the plaintext so far, then decryption where it now lies.
  method OpenPacket(c: Cipher, k: nat, ciphertext: array<Byte>, off: nat, m: nat, size: nat, plaintext: array<Byte>, p: nat)
    returns (plain: Option<seq<Byte>>)
    requires Tagged(c) && p <= off && off + m <= size <= ciphertext.Length && p + m <= plaintext.Length
    modifies plaintext
    ensures plain == c.unseal(k, old(ciphertext[off..off + m]))
    ensures plain.Some? ==> m == |plain.value| + 16 && plaintext[..p + |plain.value|] == old(plaintext[..p]) + plain.value
    ensures ciphertext[off + m..size] == old(ciphertext[off + m..size])
  {
    ghost var done, later := plaintext[..p], ciphertext[off + m..size];
    var packet := ciphertext[off..off + m];
    forall i | 0 <= i < m { plaintext[p + i] := packet[i]; }
    assert plaintext[..p] == done && ciphertext[off + m..size] == later;
    plain := c.unseal(k, packet);
    if plain.Some? {
      var data := plain.value;
      forall i | 0 <= i < |data| { plaintext[p + i] := data[i]; }
      assert plaintext[..p + |data|] == done + data;
      assert ciphertext[off + m..size] == later;
    }
  }

  // After j whole packets, or at the end: the room used so far was there.
  ghost predicate Moved(size: nat, off: nat, p: nat, j: nat, room: nat) {
    && p <= off <= size && p <= room
    && (off < size ==> off == 65535 * j && p == 65519 * j && (j > 0 ==> p + 16 <= room))
    && (off == size ==> Need(size) <= room)
  }

  lemma MoveOn(size: nat, off: nat, p: nat, j: nat, room: nat, m: nat, all: nat)
    requires Moved(size, off, p, j, room) && off < size && m == Min(size - off, NOISE_MAX_PACKET_SIZE) && off + m <= all
    ensures p + m > room ==> Need(all) > room
    ensures p + m <= room ==> Need(off + m) <= room
    ensures p + m <= room && m >= 16 ==> Moved(size, off + m, p + m - 16, j + 1, room)
  {
    NeedAt(j, m);
    NeedMonotone(off + m, all);
    hide Need;
  }

  /** noise_decrypt_message, and noise_decrypt_message_inplace when both arrays are the same.  The
      memmove of every packet stays in the output buffer if and only if that buffer is as large as
      `Need` says for the bytes looked at, which is never more than the ciphertext itself.  What is
      still to be read is never overwritten, so the outcome is that of unpacking the original
      ciphertext.  The model stops where a memmove would leave the buffer. */
  method DecryptMessage(c: Cipher, n: nat, ciphertext: array<Byte>, size: nat, plaintext: array<Byte>)
    returns (inside: bool, ok: bool, length: nat)
    requires Tagged(c) && size <= ciphertext.Length
    modifies plaintext
    ensures inside <==> Need(Attempted(c, n, old(ciphertext[..size]))) <= plaintext.Length
    ensures inside ==> (ok <==> Unpack(c, n, old(ciphertext[..size])).Some?)
    ensures length <= size && length <= plaintext.Length
    ensures inside && ok ==> plaintext[..length] == Unpack(c, n, old(ciphertext[..size])).value
    ensures plaintext == ciphertext ==> inside
  {
    hide Unpack, Joined, Attempted, Need, Tagged, Moved;
    ghost var whole := ciphertext[..size];
    ghost var all := Attempted(c, n, whole);
    AttemptedAtMost(c, n, whole);
    NeedMonotone(all, size);
    var off: nat, p: nat, k := 0, 0, n;
    ghost var j: nat := 0;
    assert whole[0..] == whole && plaintext[..0] == [];
    JoinedEmpty(Unpack(c, n, whole));
    MovedNone(size, plaintext.Length);
    while off < size
      invariant p <= off <= size && p <= plaintext.Length && k >= n && Moved(size, off, p, j, plaintext.Length)
      invariant all == off + Attempted(c, k, whole[off..])
      invariant ciphertext[off..size] == whole[off..]
      invariant Unpack(c, n, whole) == Joined(plaintext[..p], Unpack(c, k, whole[off..]))
    {
      var m := if off + NOISE_MAX_PACKET_SIZE > size then size - off else NOISE_MAX_PACKET_SIZE;
      assert m == Min(|whole[off..]|, NOISE_MAX_PACKET_SIZE);
      ghost var done := plaintext[..p];
      Slices(ciphertext[..], off, m, size, whole);
      AttemptedStep(c, k, whole[off..]);
      MoveOn(size, off, p, j, plaintext.Length, m, all);
      if p + m > plaintext.Length {
        return false, false, 0;
      }
      var plain := OpenPacket(c, k, ciphertext, off, m, size, plaintext, p);
      UnpackStep(c, k, whole[off..], done);
      assert whole[off..][m..] == whole[off + m..];
      if plain.None? {
        return true, false, 0;
      }
      off := off + m;
      p := p + |plain.value|;
      k := k + 1;
      j := j + 1;
      MovedBounds(size, off, p, j, plaintext.Length);
    }
    assert whole[off..] == [];
    UnpackNothing(c, k, plaintext[..p]);
    AttemptedAtMost(c, k, whole[off..]);
    MovedBounds(size, off, p, j, plaintext.Length);
    return true, true, p;
  }

  // The packet at off and what is behind it are still those of the original.
  lemma Slices(now: seq<Byte>, off: nat, m: nat, size: nat, whole: seq<Byte>)
    requires off + m <= size <= |now| && |whole| == size && now[off..size] == whole[off..]
    ensures now[off..off + m] == whole[off..][..m] && now[off + m..size] == whole[off..][m..]
  {
    assert now[off..off + m] == now[off..size][..m] && now[off + m..size] == now[off..size][m..];
  }

  lemma MovedNone(size: nat, room: nat)
    ensures Moved(size, 0, 0, 0, room)
  {
  }

  lemma MovedBounds(size: nat, off: nat, p: nat, j: nat, room: nat)
    requires Moved(size, off, p, j, room)
    ensures p <= off <= size && p <= room && (off == size ==> Need(size) <= room)
  {
  }

  lemma AttemptedStep(c: Cipher, n: nat, x: seq<Byte>)
    requires x != []
    ensures var k := Min(|x|, NOISE_MAX_PACKET_SIZE);
      Attempted(c, n, x) == if c.unseal(n, x[..k]).None? then k else k + Attempted(c, n + 1, x[k..])
  {
  }

  function Joined(done: seq<Byte>, rest: Option<seq<Byte>>): Option<seq<Byte>> {
    if rest.None? then None else Some(done + rest.value)
  }

  lemma JoinedEmpty(x: Option<seq<Byte>>)
    ensures Joined([], x) == x
  {
    if x.Some? { assert [] + x.value == x.value; }
  }

  lemma UnpackNothing(c: Cipher, n: nat, done: seq<Byte>)
    ensures Joined(done, Unpack(c, n, [])) == Some(done)
  {
    assert done + [] == done;
  }

  lemma UnpackStep(c: Cipher, n: nat, x: seq<Byte>, done: seq<Byte>)
    requires x != []
    ensures var k := Min(|x|, NOISE_MAX_PACKET_SIZE);
      var first := c.unseal(n, x[..k]);
      Joined(done, Unpack(c, n, x)) ==
        if first.None? then None else Joined(done + first.value, Unpack(c, n + 1, x[k..]))
  {
    var k := Min(|x|, NOISE_MAX_PACKET_SIZE);
    var first, rest := c.unseal(n, x[..k]), Unpack(c, n + 1, x[k..]);
    if first.Some? && rest.Some? { assert done + (first.value + rest.value) == done + first.value + rest.value; }
  }
}
