/**
  * The console bridge of the host agent: the frame reader, the frame writer and the
  * two copy loops between a browser WebSocket and the VNC socket
  * (sections 5.2, 5.3 and 5.4 of RFC 6455).
  */
module WebSocket {
  import opened Basics

  /** Bytes are numbers; the masks 0x80 and 0x7f are division and remainder by 128. */
  type Byte = x: int | 0 <= x < 256

  const TWO63: nat := 0x8000_0000_0000_0000
  const TWO32: nat := 0x1_0000_0000

  /** The conversion byte(n): the low eight bits. */
  function ToByte(n: nat): Byte { n % 256 }

  /** Exclusive or of two numbers of the given width, bit by bit. */
  function XorBits(a: nat, b: nat, width: nat): nat {
    if width == 0 then 0 else (if a % 2 == b % 2 then 0 else 1) + 2 * XorBits(a / 2, b / 2, width - 1)
  }

  lemma {:induction false} XorBitsInvolutive(a: nat, b: nat, width: nat)
    requires a < Pow2(width)
    ensures XorBits(XorBits(a, b, width), b, width) == a
  {
    if width > 0 {
      var bit, high := if a % 2 == b % 2 then 0 else 1, XorBits(a / 2, b / 2, width - 1);
      XorBitsInvolutive(a / 2, b / 2, width - 1);
      assert (bit + 2 * high) / 2 == high && (bit + 2 * high) % 2 == bit;
    }
  }

  lemma {:induction false} XorBitsRange(a: nat, b: nat, width: nat)
    ensures XorBits(a, b, width) < Pow2(width)
  {
    if width > 0 { XorBitsRange(a / 2, b / 2, width - 1); }
  }

  lemma BytePower() ensures Pow2(8) == 256 {
    assert Pow2(8) == 2 * Pow2(7) && Pow2(7) == 2 * Pow2(6) && Pow2(6) == 2 * Pow2(5) && Pow2(5) == 2 * Pow2(4);
  }

  function Xor(a: Byte, b: Byte): Byte {
    XorBitsRange(a, b, 8);
    BytePower();
    XorBits(a, b, 8)
  }

  /** Bit i of a number, counted from the lowest. */
  function Bit(n: nat, i: nat): (r: nat)
    ensures r < 2
  {
    if i == 0 then n % 2 else Bit(n / 2, i - 1)
  }

  lemma {:induction false} BitIs(n: nat, i: nat)
    ensures Bit(n, i) == n / Pow2(i) % 2
  {
    if i > 0 {
      BitIs(n / 2, i - 1);
      DivideTwice(n, Pow2(i - 1));
    }
  }

  lemma {:induction false} XorBitsBit(a: nat, b: nat, width: nat, i: nat)
    requires i < width
    ensures Bit(XorBits(a, b, width), i) == (Bit(a, i) + Bit(b, i)) % 2
  {
    var low, high := if a % 2 == b % 2 then 0 else 1, XorBits(a / 2, b / 2, width - 1);
    assert (low + 2 * high) % 2 == low && (low + 2 * high) / 2 == high;
    if i > 0 { XorBitsBit(a / 2, b / 2, width - 1, i - 1); }
  }

  /** Bit i of the result is set exactly when it is set in one of the two bytes and not in both. */
  lemma XorBit(a: Byte, b: Byte, i: nat)
    requires i < 8
    ensures Bit(Xor(a, b), i) == (Bit(a, i) + Bit(b, i)) % 2
    ensures Bit(Xor(a, b), i) != Bit(a, i) <==> Bit(b, i) == 1
  {
    XorBitsBit(a, b, 8, i);
  }

  lemma {:induction false} XorBitsZero(a: nat, width: nat)
    requires a < Pow2(width)
    ensures XorBits(a, 0, width) == a
  {
    if width > 0 { XorBitsZero(a / 2, width - 1); }
  }

  // ---------------------------------------------------------------------------
  // Big-endian numbers

  function BigEndian(s: seq<Byte>): nat {
    if s == [] then 0 else 256 * BigEndian(s[..|s| - 1]) + s[|s| - 1]
  }

  function BigEndianBytes(n: nat, width: nat): (s: seq<Byte>)
    ensures |s| == width
  {
    if width == 0 then [] else BigEndianBytes(n / 256, width - 1) + [ToByte(n)]
  }

  function Pow256(k: nat): nat { if k == 0 then 1 else 256 * Pow256(k - 1) }

  lemma {:induction false} BigEndianRoundTrip(n: nat, width: nat)
    requires n < Pow256(width)
    ensures BigEndian(BigEndianBytes(n, width)) == n
  {
    if width > 0 {
      var high := BigEndianBytes(n / 256, width - 1);
      assert n / 256 < Pow256(width - 1);
      BigEndianRoundTrip(n / 256, width - 1);
      BigEndianSnoc(high, ToByte(n));
    }
  }

  /** The first byte is the highest. */
  lemma {:induction false} HighestFirst(first: Byte, rest: seq<Byte>)
    ensures BigEndian([first] + rest) == first * Pow256(|rest|) + BigEndian(rest)
  {
    if rest == [] {
      assert [first] + [] == [first] && [first][..0] == [];
    } else {
      var init, last := rest[..|rest| - 1], rest[|rest| - 1];
      assert [first] + rest == ([first] + init) + [last] && rest == init + [last];
      BigEndianSnoc([first] + init, last);
      BigEndianSnoc(init, last);
      HighestFirst(first, init);
      assert 256 * (first * Pow256(|init|)) == first * (256 * Pow256(|init|));
    }
  }

  lemma BigEndianSnoc(s: seq<Byte>, last: Byte)
    ensures BigEndian(s + [last]) == 256 * BigEndian(s) + last
  {
    assert (s + [last])[..|s|] == s;
  }

  lemma {:induction false} BigEndianInverse(s: seq<Byte>)
    ensures BigEndian(s) < Pow256(|s|)
    ensures BigEndianBytes(BigEndian(s), |s|) == s
  {
    if s != [] {
      var init, last := s[..|s| - 1], s[|s| - 1];
      BigEndianInverse(init);
      var n := BigEndian(s);
      assert n / 256 == BigEndian(init) && n % 256 == last;
      assert s == init + [last];
    }
  }

  lemma Powers()
    ensures Pow256(2) == 0x1_0000 && Pow256(8) == 0x1_0000_0000_0000_0000
  {
    assert Pow256(2) == 256 * Pow256(1);
    assert Pow256(4) == 256 * Pow256(3) && Pow256(3) == 256 * Pow256(2);
    assert Pow256(8) == 256 * Pow256(7) && Pow256(7) == 256 * Pow256(6);
    assert Pow256(6) == 256 * Pow256(5) && Pow256(5) == 256 * Pow256(4);
  }

  lemma FourBytes(b3: Byte, b2: Byte, b1: Byte, b0: Byte)
    ensures BigEndianBytes(0x100_0000 * b3 + 0x1_0000 * b2 + 0x100 * b1 + b0, 8) == [0, 0, 0, 0, b3, b2, b1, b0]
  {
    var m1, m2 := 0x1_0000 * b3 + 0x100 * b2 + b1, 0x100 * b3 + b2;
    var m0 := 0x100 * m1 + b0;
    assert m0 / 256 == m1 && m0 % 256 == b0;
    assert m1 == 0x100 * m2 + b1 && m1 / 256 == m2 && m1 % 256 == b1;
    assert m2 / 256 == b3 && m2 % 256 == b2;
    assert BigEndianBytes(0, 4) == [0, 0, 0, 0] by {
      assert BigEndianBytes(0, 2) == BigEndianBytes(0, 1) + [0];
      assert BigEndianBytes(0, 3) == BigEndianBytes(0, 2) + [0];
    }
    assert BigEndianBytes(b3, 5) == [0, 0, 0, 0] + [b3];
    assert BigEndianBytes(m2, 6) == [0, 0, 0, 0, b3] + [b2];
    assert BigEndianBytes(m1, 7) == [0, 0, 0, 0, b3, b2] + [b1];
  }

  lemma LowBytes(n: nat)
    ensures n % TWO32 == 0x100_0000 * ToByte(n / 0x100_0000) + 0x1_0000 * ToByte(n / 0x1_0000)
                         + 0x100 * ToByte(n / 0x100) + ToByte(n)
  {
    var n1, n2, n3, n4 := n / 0x100, n / 0x1_0000, n / 0x100_0000, n / TWO32;
    assert n == 0x100 * n1 + ToByte(n);
    assert n1 == 0x100 * n2 + ToByte(n1);
    assert n2 == 0x100 * n3 + ToByte(n2);
    assert n3 == 0x100 * n4 + ToByte(n3);
  }

  /** The ten-byte header of the writer spells the length modulo 2^32 in eight bytes. */
  lemma WideBytes(n: nat)
    ensures BigEndianBytes(n % TWO32, 8)
         == [0, 0, 0, 0, ToByte(n / 0x100_0000), ToByte(n / 0x1_0000), ToByte(n / 0x100), ToByte(n)]
  {
    LowBytes(n);
    FourBytes(ToByte(n / 0x100_0000), ToByte(n / 0x1_0000), ToByte(n / 0x100), ToByte(n));
  }

  // ---------------------------------------------------------------------------
  // Frame layout (section 5.2 of RFC 6455), independent of reader and writer

  type MaskKey = k: seq<Byte> | |k| == 4 witness [0, 0, 0, 0]

  /** The three ways to write a payload length: in seven bits, in two bytes, in eight bytes. */
  datatype LengthForm = Short | Medium | Long

  predicate Fits(n: nat, form: LengthForm) {
    match form
    case Short => n <= 125
    case Medium => n < 0x1_0000
    case Long => n < TWO63
  }

  function LengthCode(n: nat, form: LengthForm): (c: Byte)
    requires Fits(n, form)
    ensures c < 128
  {
    match form case Short => n case Medium => 126 case Long => 127
  }

  function ExtensionWidth(form: LengthForm): nat {
    match form case Short => 0 case Medium => 2 case Long => 8
  }

  /** Section 5.3: octet i of the transformed data is octet i XOR key octet i MOD 4. */
  function Masked(data: seq<Byte>, key: MaskKey): (r: seq<Byte>)
    ensures |r| == |data|
  {
    seq(|data|, i requires 0 <= i < |data| => Xor(data[i], key[i % 4]))
  }

  function MaskedBy(data: seq<Byte>, key: Option<MaskKey>): (r: seq<Byte>)
    ensures |r| == |data|
  {
    match key case None => data case Some(k) => Masked(data, k)
  }

  /** A frame as a peer may send it: any first byte, optionally masked, any fitting length form. */
  datatype Frame = Frame(first: Byte, key: Option<MaskKey>, form: LengthForm, payload: seq<Byte>) {
    predicate WellFormed() { Fits(|payload|, form) }

    /** Control opcodes have the top bit of the opcode set (section 5.5). */
    predicate IsControl() { first / 8 % 2 == 1 }
  }

  function KeyBytes(key: Option<MaskKey>): seq<Byte> {
    match key case None => [] case Some(k) => k
  }

  function Head(f: Frame): seq<Byte>
    requires f.WellFormed()
  {
    [f.first, (if f.key.Some? then 128 else 0) + LengthCode(|f.payload|, f.form)]
    + BigEndianBytes(|f.payload|, ExtensionWidth(f.form))
    + KeyBytes(f.key)
  }

  function Encode(f: Frame): seq<Byte>
    requires f.WellFormed()
  {
    Head(f) + MaskedBy(f.payload, f.key)
  }

  lemma MaskInvolutive(data: seq<Byte>, key: Option<MaskKey>)
    ensures MaskedBy(MaskedBy(data, key), key) == data
  {
    BytePower();
    match key
    case None =>
    case Some(k) =>
      forall i | 0 <= i < |data| ensures Masked(Masked(data, k), k)[i] == data[i] {
        XorBitsInvolutive(data[i], k[i % 4], 8);
      }
  }

  // ---------------------------------------------------------------------------
  // wsReadFrame

  /** Panic: a declared length of 2^63 or more is negative as int64, and make fails on it. */
  datatype ReadResult = Payload(bytes: seq<Byte>, rest: seq<Byte>) | Eof | Panic

  function FormOf(b: Byte): LengthForm {
    if b % 128 == 126 then Medium else if b % 128 == 127 then Long else Short
  }

  /** Where the parts of a frame lie, read off its second byte. */
  function KeyStart(b: Byte): nat { 2 + ExtensionWidth(FormOf(b)) }

  function BodyStart(b: Byte): nat { KeyStart(b) + if b / 128 == 1 then 4 else 0 }

  function DeclaredLength(s: seq<Byte>): nat
    requires |s| >= 2 && |s| >= KeyStart(s[1])
  {
    if FormOf(s[1]).Short? then s[1] % 128 else BigEndian(s[2..KeyStart(s[1])])
  }

  predicate HasHead(s: seq<Byte>) { |s| >= 2 && |s| >= BodyStart(s[1]) }

  function KeyIn(s: seq<Byte>): Option<MaskKey>
    requires HasHead(s)
  {
    if s[1] / 128 == 1 then Some(s[KeyStart(s[1])..BodyStart(s[1])]) else None
  }

  /** What one call of the reader returns, as a function of the unread input. */
  function Parse(s: seq<Byte>): (r: ReadResult)
    ensures r.Payload? ==> |r.rest| + 2 <= |s|
  {
    if !HasHead(s) then Eof else
    var start, len := BodyStart(s[1]), DeclaredLength(s);
    if len >= TWO63 then Panic
    else if |s| < start + len then Eof
    else Payload(MaskedBy(s[start..start + len], KeyIn(s)), s[start + len..])
  }

  class Reader {
    var unread: seq<Byte>

    constructor (input: seq<Byte>)
      ensures unread == input
    { unread := input; }

    /** io.ReadFull: all n bytes or an error; on an error whatever was left is gone. */
    method ReadFull(n: nat) returns (ok: bool, bytes: seq<Byte>)
      modifies this
      ensures ok == (n <= |old(unread)|)
      ensures ok ==> bytes == old(unread)[..n] && unread == old(unread)[n..]
      ensures !ok ==> unread == []
    {
      if n <= |unread| {
        ok, bytes, unread := true, unread[..n], unread[n..];
      } else {
        ok, bytes, unread := false, [], [];
      }
    }

    /** Everything in front of the payload: the two fixed bytes, the length, the key. */
    method ReadHead() returns (ok: bool, payloadLen: nat, masked: bool, maskKey: MaskKey)
      modifies this
      ensures ok == HasHead(old(unread))
      ensures ok ==> payloadLen == DeclaredLength(old(unread)) && unread == old(unread)[BodyStart(old(unread)[1])..]
      ensures ok ==> KeyIn(old(unread)) == if masked then Some(maskKey) else None
    {
      ghost var s := unread;
      ok, payloadLen, masked, maskKey := false, 0, false, [0, 0, 0, 0];
      var read, header := ReadFull(2);
      if !read { return; }
      masked, payloadLen := header[1] / 128 == 1, header[1] % 128;
      ghost var ks := KeyStart(s[1]);
      if payloadLen == 126 {
        Slices(s, 2, 2);
        var ext;
        read, ext := ReadFull(2);
        if !read { return; }
        payloadLen := BigEndian(ext);
      } else if payloadLen == 127 {
        Slices(s, 2, 8);
        var ext;
        read, ext := ReadFull(8);
        if !read { return; }
        payloadLen := BigEndian(ext);
      }
      assert |s| >= ks && unread == s[ks..] && payloadLen == DeclaredLength(s);
      if masked {
        Slices(s, ks, 4);
        var key;
        read, key := ReadFull(4);
        if !read { return; }
        maskKey := key;
      }
      ok := true;
    }

    method ReadFrame() returns (r: ReadResult)
      modifies this
      ensures r == Parse(old(unread))
      ensures r.Payload? ==> unread == r.rest
    {
      ghost var s := unread;
      var ok, payloadLen, masked, maskKey := ReadHead();
      if !ok { return Eof; }
      if payloadLen >= TWO63 { return Panic; }
      Slices(s, BodyStart(s[1]), payloadLen);
      var read, body := ReadFull(payloadLen);
      if !read { return Eof; }
      if masked {
        body := Unmask(body, maskKey);
      }
      r := Payload(body, unread);
    }
  }

  method Unmask(body: seq<Byte>, maskKey: MaskKey) returns (r: seq<Byte>)
    ensures r == Masked(body, maskKey)
  {
    var payload := new Byte[|body|](i requires 0 <= i < |body| => body[i]);
    assert payload[..] == body;
    UnmaskInPlace(payload, maskKey);
    r := payload[..];
  }

  /** XORs byte i in place with key byte i mod 4. */
  method UnmaskInPlace(payload: array<Byte>, maskKey: MaskKey)
    modifies payload
    ensures payload[..] == Masked(old(payload[..]), maskKey)
    ensures forall i, k :: 0 <= i < payload.Length && 0 <= k < 8 ==>
      (Bit(payload[i], k) != Bit(old(payload[i]), k) <==> Bit(maskKey[i % 4], k) == 1)
  {
    var i := 0;
    while i < payload.Length
      invariant 0 <= i <= payload.Length
      invariant forall j :: 0 <= j < i ==> payload[j] == Xor(old(payload[j]), maskKey[j % 4])
      invariant forall j :: i <= j < payload.Length ==> payload[j] == old(payload[j])
    {
      payload[i] := Xor(payload[i], maskKey[i % 4]);
      i := i + 1;
    }
    forall i, k | 0 <= i < payload.Length && 0 <= k < 8
      ensures Bit(payload[i], k) != Bit(old(payload[i]), k) <==> Bit(maskKey[i % 4], k) == 1
    {
      XorBit(old(payload[i]), maskKey[i % 4], k);
    }
  }

  lemma Slices<T>(s: seq<T>, from: nat, n: nat)
    ensures from <= |s| && n <= |s| - from ==> s[from..][..n] == s[from..from + n] && s[from..][n..] == s[from + n..]
  {
  }

  lemma Pieces<T>(a: seq<T>, b: seq<T>, c: seq<T>, d: seq<T>, e: seq<T>)
    ensures var s := a + b + c + d + e; var i := |a|; var j := i + |b|; var k := j + |c|; var l := k + |d|;
      && |s| == l + |e| && s[..i] == a && s[i..j] == b && s[j..k] == c && s[k..l] == d && s[l..] == e
  {
  }

  /** The parts of an encoded frame lie where its second byte says. */
  lemma Layout(f: Frame, rest: seq<Byte>)
    requires f.WellFormed()
    ensures var s := Encode(f) + rest; var n := |f.payload|;
      && |s| >= 2 && s[0] == f.first && FormOf(s[1]) == f.form && (s[1] / 128 == 1) == f.key.Some?
      && (f.form.Short? ==> s[1] % 128 == n)
      && |s| >= BodyStart(s[1]) + n
      && s[2..KeyStart(s[1])] == BigEndianBytes(n, ExtensionWidth(f.form))
      && KeyIn(s) == f.key
      && s[BodyStart(s[1])..BodyStart(s[1]) + n] == MaskedBy(f.payload, f.key)
      && s[BodyStart(s[1]) + n..] == rest
  {
    var n := |f.payload|;
    var two := [f.first, (if f.key.Some? then 128 else 0) + LengthCode(n, f.form)];
    var ext, key, body := BigEndianBytes(n, ExtensionWidth(f.form)), KeyBytes(f.key), MaskedBy(f.payload, f.key);
    Pieces(two, ext, key, body, rest);
    var s := two + ext + key + body + rest;
    assert s == Encode(f) + rest;
    assert s[1] == two[1] by { assert s[..2] == two; }
    assert s[0] == two[0] by { assert s[..2] == two; }
    assert FormOf(s[1]) == f.form;
    assert KeyStart(s[1]) == 2 + |ext| && BodyStart(s[1]) == 2 + |ext| + |key|;
  }

  /** The reader returns the payload of every well-formed frame, whatever its key, opcode and
    * length form, and leaves exactly the bytes behind it. */
  lemma ReadsEveryFrame(f: Frame, rest: seq<Byte>)
    requires f.WellFormed()
    ensures Parse(Encode(f) + rest) == Payload(f.payload, rest)
  {
    var n := |f.payload|;
    Layout(f, rest);
    MaskInvolutive(f.payload, f.key);
    Powers();
    if !f.form.Short? { BigEndianRoundTrip(n, ExtensionWidth(f.form)); }
  }

  /** The payload stands there, as the second byte of the header and the length after it say. */
  ghost predicate PayloadAt(s: seq<Byte>, start: nat, len: nat) {
    && |s| >= 2 && start + len <= |s| && len < 0x8000_0000_0000_0000
    && start == (if s[1] % 128 < 126 then 2 else if s[1] % 128 == 126 then 4 else 10) + (if s[1] < 128 then 0 else 4)
    && len == if s[1] % 128 < 126 then s[1] % 128
              else if s[1] % 128 == 126 then 256 * (s[2] as int) + s[3] else BigEndian(s[2..10])
  }

  lemma TwoByteNumber(s: seq<Byte>)
    requires |s| == 2
    ensures BigEndian(s) == 256 * (s[0] as int) + s[1]
  {
    assert s == [s[0]] + [s[1]];
    HighestFirst(s[0], [s[1]]);
    Powers();
  }

  lemma HeadOf(s: seq<Byte>, start: nat, len: nat)
    requires PayloadAt(s, start, len)
    ensures HasHead(s) && BodyStart(s[1]) == start && DeclaredLength(s) == len
    ensures KeyIn(s) == if s[1] < 128 then None else Some(s[start - 4..start])
  {
    if s[1] % 128 == 126 { TwoByteNumber(s[2..4]); }
    assert FormOf(s[1]) == if s[1] % 128 < 126 then Short else if s[1] % 128 == 126 then Medium else Long;
  }

  lemma ReadsPayloadAt(s: seq<Byte>, start: nat, len: nat)
    requires PayloadAt(s, start, len)
    ensures s[1] < 128 ==> Parse(s) == Payload(s[start..start + len], s[start + len..])
    ensures s[1] >= 128 ==> Parse(s) == Payload(Masked(s[start..start + len], s[start - 4..start]), s[start + len..])
  {
    HeadOf(s, start, len);
  }

  /** The masked bytes: exactly those bits are turned over that are set in the key byte at hand. */
  lemma MaskedBits(body: seq<Byte>, key: MaskKey, i: nat, k: nat)
    requires i < |body| && k < 8
    ensures Bit(Masked(body, key)[i], k) != Bit(body[i], k) <==> Bit(key[i % 4], k) == 1
  {
    XorBit(body[i], key[i % 4], k);
  }

  /** What the reader takes for the payload: without a mask the bytes as they stand, with one the
    * bytes in which exactly the bits are turned over that are set in the key byte at hand. */
  lemma PayloadBits(s: seq<Byte>, start: nat, len: nat)
    requires PayloadAt(s, start, len)
    ensures Parse(s).Payload? && Parse(s).rest == s[start + len..] && |Parse(s).bytes| == len
    ensures s[1] < 128 ==> Parse(s).bytes == s[start..start + len]
    ensures s[1] >= 128 ==> forall i, k :: 0 <= i < len && 0 <= k < 8 ==>
      (Bit(Parse(s).bytes[i], k) != Bit(s[start + i], k) <==> Bit(s[start - 4 + i % 4], k) == 1)
    ensures s[1] >= 128 && s[start - 4..start] == [0, 0, 0, 0] ==> Parse(s).bytes == s[start..start + len]
  {
    ReadsPayloadAt(s, start, len);
    if s[1] >= 128 {
      var body, key := s[start..start + len], s[start - 4..start];
      forall i, k | 0 <= i < len && 0 <= k < 8
        ensures Bit(Masked(body, key)[i], k) != Bit(s[start + i], k) <==> Bit(s[start - 4 + i % 4], k) == 1
      {
        MaskedBits(body, key, i, k);
        assert body[i] == s[start + i] && key[i % 4] == s[start - 4 + i % 4];
      }
      ZeroKey(body);
    }
  }

  lemma ZeroKey(body: seq<Byte>)
    ensures Masked(body, [0, 0, 0, 0]) == body
  {
    BytePower();
    forall i | 0 <= i < |body| ensures Masked(body, [0, 0, 0, 0])[i] == body[i] { XorBitsZero(body[i], 8); }
  }

  lemma Reassemble<T>(s: seq<T>, i: nat, j: nat, k: nat, l: nat)
    requires i <= j <= k <= l <= |s|
    ensures s == s[..i] + s[i..j] + s[j..k] + s[k..l] + s[l..]
  {
  }

  lemma DeclaredFits(s: seq<Byte>)
    requires HasHead(s) && DeclaredLength(s) < TWO63
    ensures var form, n := FormOf(s[1]), DeclaredLength(s);
      && Fits(n, form)
      && s[1] == (if KeyIn(s).Some? then 128 else 0) + LengthCode(n, form)
      && BigEndianBytes(n, ExtensionWidth(form)) == s[2..KeyStart(s[1])]
  {
    Powers();
    BigEndianInverse(s[2..KeyStart(s[1])]);
  }

  /** Conversely, everything the reader accepts is a well-formed frame followed by the rest. */
  lemma ReadsOnlyFrames(s: seq<Byte>) returns (f: Frame)
    requires Parse(s).Payload?
    ensures f.WellFormed() && f.payload == Parse(s).bytes && s == Encode(f) + Parse(s).rest
  {
    var ks, start, n, form, key := KeyStart(s[1]), BodyStart(s[1]), DeclaredLength(s), FormOf(s[1]), KeyIn(s);
    var body := s[start..start + n];
    f := Frame(s[0], key, form, MaskedBy(body, key));
    DeclaredFits(s);
    MaskInvolutive(body, key);
    Reassemble(s, 2, ks, start, start + n);
    assert KeyBytes(key) == s[ks..start];
    assert s[..2] == [s[0], s[1]];
    assert Head(f) == s[..2] + s[2..ks] + s[ks..start];
  }

  // ---------------------------------------------------------------------------
  // wsWriteFrame

  function WriterHeader(n: nat): seq<Byte> {
    if n <= 125 then [0x82, ToByte(n)]
    else if n <= 65535 then [0x82, 126, ToByte(n / 0x100), ToByte(n)]
    else [0x82, 127, 0, 0, 0, 0, ToByte(n / 0x100_0000), ToByte(n / 0x1_0000), ToByte(n / 0x100), ToByte(n)]
  }

  function Written(payload: seq<Byte>): seq<Byte> { WriterHeader(|payload|) + payload }

  function ShortestForm(n: nat): LengthForm {
    if n <= 125 then Short else if n <= 65535 then Medium else Long
  }

  /** The frame the writer means to send: FIN and opcode 2, no mask, the shortest form. */
  function Intended(payload: seq<Byte>): Frame { Frame(0x82, None, ShortestForm(|payload|), payload) }

  lemma TwoBytes(n: nat)
    requires n < 0x1_0000
    ensures BigEndianBytes(n, 2) == [ToByte(n / 0x100), ToByte(n)]
  {
    assert BigEndianBytes(n / 256, 1) == BigEndianBytes(n / 256 / 256, 0) + [ToByte(n / 256)];
    assert BigEndianBytes(n, 2) == BigEndianBytes(n / 256, 1) + [ToByte(n)];
  }

  /** The header of an unmasked final frame with opcode 2, in a given length form. */
  function HeaderIn(n: nat, form: LengthForm): seq<Byte>
    requires Fits(n, form)
  {
    [0x82, LengthCode(n, form)] + BigEndianBytes(n, ExtensionWidth(form))
  }

  lemma MediumHeader(n: nat)
    requires 125 < n <= 65535
    ensures Fits(n, Medium) && WriterHeader(n) == HeaderIn(n, Medium)
  {
    TwoBytes(n);
  }

  lemma LongHeader(n: nat)
    requires 65535 < n < TWO32
    ensures Fits(n, Long) && WriterHeader(n) == HeaderIn(n, Long)
  {
    WideBytes(n);
    assert n % TWO32 == n;
  }

  lemma HeaderSpellsLength(n: nat)
    requires n < TWO32
    ensures Fits(n, ShortestForm(n)) && WriterHeader(n) == HeaderIn(n, ShortestForm(n))
  {
    if n > 65535 {
      LongHeader(n);
    } else if n > 125 {
      MediumHeader(n);
    }
  }

  lemma WriterEncodes(payload: seq<Byte>)
    requires |payload| < TWO32
    ensures Intended(payload).WellFormed() && Written(payload) == Encode(Intended(payload))
  {
    HeaderSpellsLength(|payload|);
    assert Head(Intended(payload)) == WriterHeader(|payload|);
  }

  /** From 2^32 bytes on the header declares only the length modulo 2^32. */
  lemma LengthWraps(n: nat, rest: seq<Byte>)
    requires n >= TWO32
    ensures HasHead(WriterHeader(n) + rest) && DeclaredLength(WriterHeader(n) + rest) == n % TWO32
  {
    var s := WriterHeader(n) + rest;
    WideBytes(n);
    assert s[1] == 127 && |WriterHeader(n)| == 10;
    assert s[..10] == WriterHeader(n);
    assert s[2..10] == WriterHeader(n)[2..] == BigEndianBytes(n % TWO32, 8);
    Powers();
    BigEndianRoundTrip(n % TWO32, 8);
  }

  /** A frame written for a payload reads back as that payload exactly when it is shorter
    * than 2^32 bytes: the header spells only the low 32 bits of the length. */
  lemma WriterRoundTrip(payload: seq<Byte>, rest: seq<Byte>)
    ensures Parse(Written(payload) + rest) == Payload(payload, rest) <==> |payload| < TWO32
  {
    var n := |payload|;
    if n < TWO32 {
      WriterEncodes(payload);
      ReadsEveryFrame(Intended(payload), rest);
    } else {
      LengthWraps(n, payload + rest);
      assert Written(payload) + rest == WriterHeader(n) + (payload + rest);
    }
  }

  /** Every written frame is a final one with opcode 2 and without a mask. */
  lemma WritesBinaryFrames(payload: seq<Byte>)
    ensures var s := Written(payload);
      |s| >= 2 && s[0] / 128 == 1 && s[0] / 16 % 8 == 0 && s[0] % 16 == 2 && s[1] < 128
  {
    assert Written(payload)[1] == WriterHeader(|payload|)[1];
  }

  /** No unmasked header that makes the reader return this payload is shorter than the writer's. */
  lemma ShortestHeader(payload: seq<Byte>, header: seq<Byte>)
    requires |header| >= 2 && header[1] < 128
    requires Parse(header + payload) == Payload(payload, [])
    ensures |WriterHeader(|payload|)| <= |header|
  {
    var s := header + payload;
    assert |header| == BodyStart(s[1]);
    if FormOf(s[1]).Medium? {
      BigEndianInverse(s[2..4]);
      Powers();
    }
  }

  // ---------------------------------------------------------------------------
  // The two copy loops

  datatype Stream = Stream(payloads: seq<seq<Byte>>, leftover: seq<Byte>)

  /** The payloads read until the reader fails, and the input it failed on. */
  function ReadAll(s: seq<Byte>): Stream
    decreases |s|
  {
    match Parse(s)
    case Payload(p, rest) => var t := ReadAll(rest); Stream([p] + t.payloads, t.leftover)
    case _ => Stream([], s)
  }

  /** The bytes the client-to-VNC loop writes. */
  function Delivered(s: seq<Byte>): seq<Byte>
    decreases |s|
  {
    match Parse(s)
    case Payload(p, rest) => p + Delivered(rest)
    case _ => []
  }

  lemma {:induction false} DeliveredIsFlattened(s: seq<Byte>)
    ensures Delivered(s) == Flatten(ReadAll(s).payloads)
    decreases |s|
  {
    if Parse(s).Payload? {
      DeliveredIsFlattened(Parse(s).rest);
      assert ReadAll(s).payloads[1..] == ReadAll(Parse(s).rest).payloads;
    }
  }

  /** The first n bytes, all of them if there are fewer. */
  function UpTo(s: seq<Byte>, n: nat): (r: seq<Byte>)
    ensures r <= s && |r| == if n < |s| then n else |s|
  {
    if n < |s| then s[..n] else s
  }

  /** With what is still to be sent, the receiver will have got `goal`. */
  ghost predicate Owes(received: seq<Byte>, room: nat, pending: seq<Byte>, goal: seq<Byte>) {
    received + UpTo(pending, room) == goal
  }

  lemma Sent(received: seq<Byte>, room: nat, part: seq<Byte>, rest: seq<Byte>, goal: seq<Byte>)
    requires Owes(received, room, part + rest, goal)
    ensures |part| <= room ==> Owes(received + UpTo(part, room), room - |part|, rest, goal)
    ensures |part| > room ==> received + UpTo(part, room) == goal
  {
    if |part| <= room {
      assert UpTo(part + rest, room) == part + UpTo(rest, room - |part|);
      assert received + (part + UpTo(rest, room - |part|)) == (received + part) + UpTo(rest, room - |part|);
    } else {
      assert UpTo(part + rest, room) == UpTo(part, room);
    }
  }

  lemma AllSent(received: seq<Byte>, room: nat, goal: seq<Byte>)
    requires Owes(received, room, [], goal)
    ensures received == goal
  {
    assert received + [] == received;
  }

  /** The receiving end of a connection that breaks after `room` more bytes. */
  class Sink {
    var received: seq<Byte>
    var room: nat

    constructor (room: nat)
      ensures received == [] && this.room == room
    {
      received, this.room := [], room;
    }

    method Write(bytes: seq<Byte>) returns (ok: bool)
      modifies this
      ensures ok == (|bytes| <= old(room))
      ensures received == old(received) + UpTo(bytes, old(room))
      ensures room == if ok then old(room) - |bytes| else 0
    {
      received := received + UpTo(bytes, room);
      ok := |bytes| <= room;
      room := if ok then room - |bytes| else 0;
    }
  }

  /** Client to VNC: read a frame, write its payload, until the reader or the write fails. */
  method CopyToVnc(conn: Reader, vnc: Sink)
    modifies conn, vnc
    ensures vnc.received == old(vnc.received) + UpTo(Delivered(old(conn.unread)), old(vnc.room))
  {
    ghost var goal := vnc.received + UpTo(Delivered(conn.unread), vnc.room);
    while true
      invariant Owes(vnc.received, vnc.room, Delivered(conn.unread), goal)
      decreases |conn.unread|
    {
      ghost var pending := Delivered(conn.unread);
      var r := conn.ReadFrame();
      if !r.Payload? {
        AllSent(vnc.received, vnc.room, goal);
        return;
      }
      assert pending == r.bytes + Delivered(r.rest);
      Sent(vnc.received, vnc.room, r.bytes, Delivered(r.rest), goal);
      var ok := vnc.Write(r.bytes);
      if !ok { return; }
    }
  }

  function WrittenAll(chunks: seq<seq<Byte>>): seq<Byte> {
    if chunks == [] then [] else Written(chunks[0]) + WrittenAll(chunks[1..])
  }

  method WriteFrame(w: Sink, payload: seq<Byte>) returns (ok: bool)
    modifies w
    ensures ok == (|Written(payload)| <= old(w.room))
    ensures w.received == old(w.received) + UpTo(Written(payload), old(w.room))
    ensures ok ==> w.room == old(w.room) - |Written(payload)|
  {
    var n := |payload|;
    var header: seq<Byte>;
    if n <= 125 {
      header := [0x82, ToByte(n)];
    } else if n <= 65535 {
      header := [0x82, 126, ToByte(n / 0x100), ToByte(n)];
    } else {
      header := [0x82, 127, 0, 0, 0, 0, ToByte(n / 0x100_0000), ToByte(n / 0x1_0000), ToByte(n / 0x100), ToByte(n)];
    }
    assert header == WriterHeader(n);
    ghost var goal := w.received + UpTo(header + payload, w.room);
    Sent(w.received, w.room, header, payload, goal);
    ok := w.Write(header);
    if !ok { return; }
    ok := w.Write(payload);
  }

  /** VNC to client: the reads of the VNC socket, each put into one frame, until a write fails. */
  method CopyToClient(chunks: seq<seq<Byte>>, conn: Sink)
    modifies conn
    ensures conn.received == old(conn.received) + UpTo(WrittenAll(chunks), old(conn.room))
  {
    ghost var goal := conn.received + UpTo(WrittenAll(chunks), conn.room);
    assert chunks[0..] == chunks;
    for i := 0 to |chunks|
      invariant Owes(conn.received, conn.room, WrittenAll(chunks[i..]), goal)
    {
      assert chunks[i..][1..] == chunks[i + 1..];
      Sent(conn.received, conn.room, Written(chunks[i]), WrittenAll(chunks[i + 1..]), goal);
      var ok := WriteFrame(conn, chunks[i]);
      if !ok { return; }
    }
    AllSent(conn.received, conn.room, goal);
  }

  /** Reading the written frames yields the payloads, in order, and consumes every byte. */
  lemma {:induction false} FrameListRoundTrip(chunks: seq<seq<Byte>>)
    requires forall c :: c in chunks ==> |c| < TWO32
    ensures ReadAll(WrittenAll(chunks)) == Stream(chunks, [])
  {
    if chunks != [] {
      WriterRoundTrip(chunks[0], WrittenAll(chunks[1..]));
      FrameListRoundTrip(chunks[1..]);
    }
  }

  const READ_BUFFER := 32 * 1024

  /** VNC to client, end to end: for any sizes of VNC reads the payloads of the emitted
    * frames concatenate to the bytes read. */
  lemma VncBytesReachClient(chunks: seq<seq<Byte>>)
    requires forall r :: r in chunks ==> |r| <= READ_BUFFER
    ensures Delivered(WrittenAll(chunks)) == Flatten(chunks)
    ensures ReadAll(WrittenAll(chunks)).leftover == []
  {
    FrameListRoundTrip(chunks);
    DeliveredIsFlattened(WrittenAll(chunks));
  }

  function EncodeAll(frames: seq<Frame>): seq<Byte>
    requires forall f :: f in frames ==> f.WellFormed()
  {
    if frames == [] then [] else Encode(frames[0]) + EncodeAll(frames[1..])
  }

  function Payloads(frames: seq<Frame>): seq<seq<Byte>> {
    if frames == [] then [] else [frames[0].payload] + Payloads(frames[1..])
  }

  /** The application data of a fragmented stream: the payloads of the data and continuation
    * frames (section 5.4); control frames may stand between the fragments. */
  function ApplicationData(frames: seq<Frame>): seq<Byte> {
    if frames == [] then []
    else (if frames[0].IsControl() then [] else frames[0].payload) + ApplicationData(frames[1..])
  }

  /** Client to VNC, end to end: whatever the fragmentation, the keys and the length forms,
    * VNC receives the concatenated unmasked payloads; an unfinished last frame adds nothing. */
  lemma {:induction false} ClientBytesReachVnc(frames: seq<Frame>, tail: seq<Byte>)
    requires forall f :: f in frames ==> f.WellFormed()
    requires !Parse(tail).Payload?
    ensures ReadAll(EncodeAll(frames) + tail) == Stream(Payloads(frames), tail)
  {
    if frames == [] {
      assert EncodeAll(frames) + tail == tail;
    } else {
      var rest := EncodeAll(frames[1..]) + tail;
      assert EncodeAll(frames) + tail == Encode(frames[0]) + rest;
      ReadsEveryFrame(frames[0], rest);
      ClientBytesReachVnc(frames[1..], tail);
    }
  }

  lemma {:induction false} PayloadSplit(frames: seq<Frame>)
    ensures |ApplicationData(frames)| <= |Flatten(Payloads(frames))|
    ensures |ApplicationData(frames)| == |Flatten(Payloads(frames))|
       <==> forall f :: f in frames && f.IsControl() ==> f.payload == []
    ensures |ApplicationData(frames)| == |Flatten(Payloads(frames))|
        ==> ApplicationData(frames) == Flatten(Payloads(frames))
  {
    if frames != [] {
      var f, rest := frames[0], frames[1..];
      PayloadSplit(rest);
      assert frames == [f] + rest;
      assert Payloads(frames)[1..] == Payloads(rest);
      assert forall g :: g in frames <==> g == f || g in rest;
    }
  }

  /** The reader ignores the opcode, so VNC receives the application data and nothing else
    * exactly when no control frame carries a payload. */
  lemma OnlyApplicationDataReachesVnc(frames: seq<Frame>, tail: seq<Byte>)
    requires forall f :: f in frames ==> f.WellFormed()
    requires !Parse(tail).Payload?
    ensures Delivered(EncodeAll(frames) + tail) == ApplicationData(frames)
       <==> forall f :: f in frames && f.IsControl() ==> f.payload == []
  {
    ClientBytesReachVnc(frames, tail);
    DeliveredIsFlattened(EncodeAll(frames) + tail);
    PayloadSplit(frames);
  }
}
