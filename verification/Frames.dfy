/**
 WebSocket frames (RFC 6455, sections 5.2 and 5.3) as the workspace channel writes and reads them, and the handler
 that takes them out of a byte stream arriving in chunks of any size.
 */
module Frames {
  import opened Prelude

  const MAX_SAFE_INTEGER := 9007199254740991
  const TWO_64 := 18446744073709551616

  // ----- Bytes -----

  /** Exclusive or of the lowest `n` bits. */
  function XorBits(a: nat, b: nat, n: nat): nat {
    if n == 0 then 0 else 2 * XorBits(a / 2, b / 2, n - 1) + if a % 2 == b % 2 then 0 else 1
  }

  function Power(base: nat, n: nat): nat {
    if n == 0 then 1 else base * Power(base, n - 1)
  }

  lemma {:induction false} XorBitsBound(a: nat, b: nat, n: nat)
    ensures XorBits(a, b, n) < Power(2, n)
  {
    if n > 0 {
      XorBitsBound(a / 2, b / 2, n - 1);
    }
  }

  lemma Halves(half: nat, bit: nat)
    requires bit < 2
    ensures (2 * half + bit) / 2 == half && (2 * half + bit) % 2 == bit
  {
  }

  lemma {:induction false} XorBitsTwice(a: nat, b: nat, n: nat)
    requires a < Power(2, n)
    ensures XorBits(XorBits(a, b, n), b, n) == a
  {
    if n > 0 {
      XorBitsTwice(a / 2, b / 2, n - 1);
      Halves(XorBits(a / 2, b / 2, n - 1), if a % 2 == b % 2 then 0 else 1);
    }
  }

  lemma ByteIsEightBits()
    ensures Power(2, 8) == 256
  {
    assert Power(2, 4) == 16;
  }

  function Xor(a: byte, b: byte): byte {
    XorBitsBound(a, b, 8);
    ByteIsEightBits();
    XorBits(a, b, 8)
  }

  lemma XorTwice(a: byte, b: byte)
    ensures Xor(Xor(a, b), b) == a
  {
    ByteIsEightBits();
    XorBitsTwice(a, b, 8);
  }

  /** Bit `k` of a number. */
  predicate Bit(n: nat, k: nat) {
    if k == 0 then n % 2 == 1 else Bit(n / 2, k - 1)
  }

  lemma {:induction false} BitsOfXor(a: nat, b: nat, n: nat, k: nat)
    requires k < n
    ensures Bit(XorBits(a, b, n), k) <==> Bit(a, k) != Bit(b, k)
  {
    Halves(XorBits(a / 2, b / 2, n - 1), XorBits(a, b, n) % 2);
    if k > 0 {
      BitsOfXor(a / 2, b / 2, n - 1, k - 1);
    }
  }

  /** The exclusive or of bytes: a bit is set exactly where the two differ. */
  lemma XorIsBitwise(a: byte, b: byte, k: nat)
    requires k < 8
    ensures Bit(Xor(a, b), k) <==> Bit(a, k) != Bit(b, k)
  {
    BitsOfXor(a, b, 8, k);
  }

  /** Eight bits make a byte. */
  lemma BitsDetermine(a: byte, b: byte)
    requires forall k: nat :: k < 8 ==> Bit(a, k) == Bit(b, k)
    ensures a == b
  {
    ByteIsEightBits();
    SameBits(a, b, 8);
  }

  lemma {:induction false} SameBits(a: nat, b: nat, n: nat)
    requires a < Power(2, n) && b < Power(2, n)
    requires forall k: nat :: k < n ==> Bit(a, k) == Bit(b, k)
    ensures a == b
  {
    if n > 0 {
      assert Bit(a, 0) == Bit(b, 0);
      forall k: nat | k < n - 1 ensures Bit(a / 2, k) == Bit(b / 2, k) {
        assert Bit(a, k + 1) == Bit(b, k + 1);
      }
      SameBits(a / 2, b / 2, n - 1);
    }
  }

  lemma XorWithZero(a: byte)
    ensures Xor(a, 0) == a
  {
    forall k: nat | k < 8 ensures Bit(Xor(a, 0), k) == Bit(a, k) {
      XorIsBitwise(a, 0, k);
      ZeroHasNoBits(k);
    }
    BitsDetermine(Xor(a, 0), a);
  }

  lemma {:induction false} ZeroHasNoBits(k: nat)
    ensures !Bit(0, k)
  {
    if k > 0 {
      ZeroHasNoBits(k - 1);
    }
  }

  function BigEndian(n: nat, k: nat): (bytes: seq<byte>)
    ensures |bytes| == k
  {
    if k == 0 then [] else BigEndian(n / 256, k - 1) + [n % 256]
  }

  function Value(bytes: seq<byte>): nat {
    if bytes == [] then 0 else 256 * Value(bytes[..|bytes| - 1]) + bytes[|bytes| - 1]
  }

  lemma {:induction false} BigEndianRoundTrip(n: nat, k: nat)
    requires n < Power(256, k)
    ensures Value(BigEndian(n, k)) == n
  {
    if k > 0 {
      BigEndianRoundTrip(n / 256, k - 1);
      assert BigEndian(n, k)[..k - 1] == BigEndian(n / 256, k - 1);
    }
  }

  /** Network order: the first byte counts most. */
  lemma {:induction false} FirstByteCountsMost(first: byte, rest: seq<byte>)
    ensures Value([first] + rest) == first * Power(256, |rest|) + Value(rest)
  {
    if rest == [] {
      assert ([first] + rest)[..0] == [];
    } else {
      var shorter, last := rest[..|rest| - 1], rest[|rest| - 1];
      assert ([first] + rest)[..|rest|] == [first] + shorter;
      FirstByteCountsMost(first, shorter);
    }
  }

  lemma WidthsOfLengths()
    ensures Power(256, 2) == 65536 && Power(256, 8) == TWO_64
  {
    assert Power(256, 4) == 4294967296;
    assert Power(256, 6) == 281474976710656;
  }

  // ----- Masking -----

  type Mask = m: seq<byte> | |m| == 4 witness [0, 0, 0, 0]

  function Masked(payload: seq<byte>, mask: Mask): (r: seq<byte>)
    ensures |r| == |payload| && forall k :: 0 <= k < |r| ==> r[k] == Xor(payload[k], mask[k % 4])
  {
    if payload == [] then []
    else
      var last := |payload| - 1;
      Masked(payload[..last], mask) + [Xor(payload[last], mask[last % 4])]
  }

  lemma MaskedTwice(payload: seq<byte>, mask: Mask)
    ensures Masked(Masked(payload, mask), mask) == payload
  {
    forall k | 0 <= k < |payload| ensures Masked(Masked(payload, mask), mask)[k] == payload[k] {
      XorTwice(payload[k], mask[k % 4]);
    }
  }

  /** A mask of zeros hides nothing. */
  lemma MaskedWithZeros(payload: seq<byte>)
    ensures Masked(payload, [0, 0, 0, 0]) == payload
  {
    var zeros: Mask := [0, 0, 0, 0];
    forall k | 0 <= k < |payload| ensures Masked(payload, zeros)[k] == payload[k] {
      XorWithZero(payload[k]);
    }
  }

  method UnmaskInPlace(payload: array<byte>, mask: Mask)
    modifies payload
    ensures payload[..] == Masked(old(payload[..]), mask)
  {
    for i := 0 to payload.Length
      invariant forall k :: 0 <= k < i ==> payload[k] == Masked(old(payload[..]), mask)[k]
      invariant forall k :: i <= k < payload.Length ==> payload[k] == old(payload[k])
    {
      payload[i] := Xor(payload[i], mask[i % 4]);
    }
  }

  // ----- Frames on the wire -----

  /** The length in its shortest form; `flag` is the mask bit. */
  function LengthBytes(length: nat, flag: nat): seq<byte>
    requires length < TWO_64 && flag in {0, 128}
  {
    if length < 126 then [flag + length]
    else if length < 65536 then [flag + 126] + BigEndian(length, 2)
    else [flag + 127] + BigEndian(length, 8)
  }

  /** `0x80 | opcode`. */
  function Final(opcode: byte): byte {
    if opcode < 128 then opcode + 128 else opcode
  }

  /** `encodeFramePayload`. */
  function Encode(payload: seq<byte>, opcode: byte): seq<byte>
    requires |payload| < TWO_64
  {
    [Final(opcode)] + LengthBytes(|payload|, 0) + payload
  }

  /** A frame as a client sends it, under a mask of its choice and with any fragment and reserved bits. */
  function ClientFrame(first: byte, payload: seq<byte>, mask: Mask): seq<byte>
    requires |payload| < TWO_64
  {
    [first] + LengthBytes(|payload|, 128) + mask + Masked(payload, mask)
  }

  // ----- Decoding -----

  datatype Header = Short | Oversize | Header(opcode: nat, masked: bool, length: nat, size: nat)

  datatype Decoded = Incomplete | TooLarge | Frame(opcode: nat, payload: seq<byte>, rest: seq<byte>)

  function ReadHeader(buffer: seq<byte>): Header {
    if |buffer| < 2 then Short
    else
      var opcode, masked, short := buffer[0] % 16, buffer[1] >= 128, buffer[1] % 128;
      if short == 126 then
        if |buffer| < 4 then Short else Header(opcode, masked, Value(buffer[2..4]), 4)
      else if short == 127 then
        if |buffer| < 10 then Short
        else
          var length := Value(buffer[2..10]);
          if length > MAX_SAFE_INTEGER then Oversize else Header(opcode, masked, length, 10)
      else Header(opcode, masked, short, 2)
  }

  function Start(h: Header): nat
    requires h.Header?
  {
    h.size + if h.masked then 4 else 0
  }

  function Decode(buffer: seq<byte>): Decoded {
    match ReadHeader(buffer)
    case Short => Incomplete
    case Oversize => TooLarge
    case Header(opcode, masked, length, size) =>
      var start := Start(ReadHeader(buffer));
      if |buffer| < start + length then Incomplete
      else
        var raw := buffer[start..start + length];
        Frame(opcode, if masked then Masked(raw, buffer[size..size + 4]) else raw, buffer[start + length..])
  }

  /** A copy of the payload, unmasked if there is a mask. */
  method Copied(raw: seq<byte>, mask: Option<Mask>) returns (copy: seq<byte>)
    ensures copy == if mask.Some? then Masked(raw, mask.value) else raw
  {
    var payload := new byte[|raw|](i requires 0 <= i < |raw| => raw[i]);
    assert payload[..] == raw;
    if mask.Some? {
      UnmaskInPlace(payload, mask.value);
    }
    copy := payload[..];
  }

  /** The first half of `tryDecodeFrame`: the length and where the mask or the payload starts. */
  method ReadLength(buffer: seq<byte>) returns (h: Header)
    ensures h == ReadHeader(buffer)
  {
    if |buffer| < 2 {
      return Short;
    }
    var masked := buffer[1] >= 128;
    var length: nat := buffer[1] % 128;
    var offset := 2;
    if length == 126 {
      if |buffer| < offset + 2 {
        return Short;
      }
      length := Value(buffer[offset..offset + 2]);
      offset := offset + 2;
    } else if length == 127 {
      if |buffer| < offset + 8 {
        return Short;
      }
      length := Value(buffer[offset..offset + 8]);
      if length > MAX_SAFE_INTEGER {
        return Oversize;
      }
      offset := offset + 8;
    }
    h := Header(buffer[0] % 16, masked, length, offset);
  }

  /** `tryDecodeFrame`, unmasking its own copy of the payload in place. */
  method TryDecodeFrame(buffer: seq<byte>) returns (r: Decoded)
    ensures r == Decode(buffer)
  {
    var h := ReadLength(buffer);
    match h {
      case Short => return Incomplete;
      case Oversize => return TooLarge;
      case Header(opcode, masked, length, maskOffset) =>
        var offset := if masked then maskOffset + 4 else maskOffset;
        if |buffer| < offset + length {
          return Incomplete;
        }
        var raw := buffer[offset..offset + length];
        var payload := Copied(raw, if masked then Some(buffer[maskOffset..maskOffset + 4]) else None);
        r := Frame(opcode, payload, buffer[offset + length..]);
    }
  }

  // ----- Round trips -----

  /** The bytes of an extended length are where the decoder looks for them. */
  lemma ExtendedLength(first: byte, second: byte, length: nat, k: nat, tail: seq<byte>)
    requires length < Power(256, k)
    ensures var buffer := [first] + ([second] + BigEndian(length, k)) + tail;
            |buffer| >= 2 + k && buffer[0] == first && buffer[1] == second && Value(buffer[2..2 + k]) == length
  {
    var buffer := [first] + ([second] + BigEndian(length, k)) + tail;
    BigEndianRoundTrip(length, k);
    assert buffer[2..2 + k] == BigEndian(length, k);
  }

  lemma HeaderOfLength(first: byte, length: nat, flag: nat, tail: seq<byte>)
    requires length < TWO_64 && flag in {0, 128}
    ensures var size := 1 + |LengthBytes(length, flag)|;
            ReadHeader([first] + LengthBytes(length, flag) + tail)
            == if length <= MAX_SAFE_INTEGER then Header(first % 16, flag == 128, length, size) else Oversize
  {
    WidthsOfLengths();
    if length < 126 {
    } else if length < 65536 {
      ExtendedLength(first, flag + 126, length, 2, tail);
    } else {
      ExtendedLength(first, flag + 127, length, 8, tail);
    }
  }

  /** An encoded frame followed by any bytes decodes to its opcode, its payload and those bytes. */
  lemma EncodedFrameDecodes(payload: seq<byte>, opcode: byte, rest: seq<byte>)
    requires |payload| < TWO_64
    ensures Decode(Encode(payload, opcode) + rest)
            == if |payload| <= MAX_SAFE_INTEGER then Frame(opcode % 16, payload, rest) else TooLarge
  {
    HeaderOfLength(Final(opcode), |payload|, 0, payload + rest);
    var head := [Final(opcode)] + LengthBytes(|payload|, 0);
    assert Encode(payload, opcode) + rest == head + (payload + rest);
    assert (head + (payload + rest))[|head|..|head| + |payload|] == payload;
    assert (head + (payload + rest))[|head| + |payload|..] == rest;
  }

  lemma SlicesOf(head: seq<byte>, middle: seq<byte>, tail: seq<byte>)
    ensures (head + middle + tail)[|head|..|head| + |middle|] == middle
    ensures (head + middle + tail)[|head| + |middle|..] == tail
  {
  }

  lemma DecodeMasked(head: seq<byte>, mask: Mask, hidden: seq<byte>, rest: seq<byte>, opcode: nat)
    requires ReadHeader(head + mask + hidden + rest) == Header(opcode, true, |hidden|, |head|)
    ensures Decode(head + mask + hidden + rest) == Frame(opcode, Masked(hidden, mask), rest)
  {
    SlicesOf(head, mask, hidden + rest);
    SlicesOf(head + mask, hidden, rest);
    assert head + mask + (hidden + rest) == head + mask + hidden + rest;
  }

  /** A client's frame decodes to the payload it masked, whatever the mask. */
  lemma ClientFrameDecodes(first: byte, payload: seq<byte>, mask: Mask, rest: seq<byte>)
    requires |payload| < TWO_64
    ensures Decode(ClientFrame(first, payload, mask) + rest)
            == if |payload| <= MAX_SAFE_INTEGER then Frame(first % 16, payload, rest) else TooLarge
  {
    var hidden := Masked(payload, mask);
    var head := [first] + LengthBytes(|payload|, 128);
    HeaderOfLength(first, |payload|, 128, mask + hidden + rest);
    assert head + (mask + hidden + rest) == ClientFrame(first, payload, mask) + rest == head + mask + hidden + rest;
    if |payload| <= MAX_SAFE_INTEGER {
      DecodeMasked(head, mask, hidden, rest, first % 16);
      MaskedTwice(payload, mask);
    }
  }

  const HELLO: seq<byte> := [0x48, 0x65, 0x6c, 0x6c, 0x6f]
  const HELLO_MASK: Mask := [0x37, 0xfa, 0x21, 0x3d]

  /** The examples of RFC 6455, section 5.7: "Hello" unmasked and masked. */
  lemma StandardHello(rest: seq<byte>)
    ensures Encode(HELLO, 1) == [0x81, 0x05] + HELLO
    ensures Decode([0x81, 0x05] + HELLO + rest) == Frame(1, HELLO, rest)
    ensures Decode([0x81, 0x85] + HELLO_MASK + [0x7f, 0x9f, 0x4d, 0x51, 0x58] + rest) == Frame(1, HELLO, rest)
  {
    HelloEncoded();
    EncodedFrameDecodes(HELLO, 1, rest);
    HelloMasked();
    ClientFrameDecodes(0x81, HELLO, HELLO_MASK, rest);
  }

  lemma HelloEncoded()
    ensures Encode(HELLO, 1) == [0x81, 0x05] + HELLO
  {
    assert [Final(1)] + LengthBytes(5, 0) == [0x81, 0x05];
  }

  lemma HelloMasked()
    ensures ClientFrame(0x81, HELLO, HELLO_MASK) == [0x81, 0x85] + HELLO_MASK + [0x7f, 0x9f, 0x4d, 0x51, 0x58]
  {
    MaskedHello();
    assert [0x81] + LengthBytes(5, 128) == [0x81, 0x85];
  }

  /** Binary messages of 256 bytes and 64 KiB, from the same section. */
  lemma StandardLengths(binary: seq<byte>)
    ensures |binary| == 256 ==> Encode(binary, 2) == [0x82, 0x7e, 0x01, 0x00] + binary
    ensures |binary| == 65536 ==> Encode(binary, 2) == [0x82, 0x7f, 0, 0, 0, 0, 0, 1, 0, 0] + binary
  {
    LongLengths();
    assert [Final(2)] + [0x7e, 0x01, 0x00] == [0x82, 0x7e, 0x01, 0x00];
    assert [Final(2)] + [0x7f, 0, 0, 0, 0, 0, 1, 0, 0] == [0x82, 0x7f, 0, 0, 0, 0, 0, 1, 0, 0];
  }

  lemma MaskedHello()
    ensures Masked(HELLO, HELLO_MASK) == [0x7f, 0x9f, 0x4d, 0x51, 0x58]
  {
    HelloFirst();
    HelloSecond();
    HelloThird();
    HelloFourth();
    HelloFifth();
    var masked := Masked(HELLO, HELLO_MASK);
    assert masked[0] == Xor(HELLO[0], HELLO_MASK[0]) && masked[1] == Xor(HELLO[1], HELLO_MASK[1]);
    assert masked[2] == Xor(HELLO[2], HELLO_MASK[2]) && masked[3] == Xor(HELLO[3], HELLO_MASK[3]);
    assert masked[4] == Xor(HELLO[4], HELLO_MASK[0]);
  }

  /** One byte at a time, and within it from the highest bits on. */
  lemma HelloFirst()
    ensures Xor(0x48, 0x37) == 0x7f
  {
    assert XorBits(0x01, 0x00, 2) == 0x01;
    assert XorBits(0x02, 0x01, 3) == 0x03;
    assert XorBits(0x04, 0x03, 4) == 0x07;
    assert XorBits(0x09, 0x06, 5) == 0x0f;
    assert XorBits(0x12, 0x0d, 6) == 0x1f;
    assert XorBits(0x24, 0x1b, 7) == 0x3f;
    assert XorBits(0x48, 0x37, 8) == 0x7f;
  }

  lemma HelloSecond()
    ensures Xor(0x65, 0xfa) == 0x9f
  {
    assert XorBits(0x01, 0x03, 2) == 0x02;
    assert XorBits(0x03, 0x07, 3) == 0x04;
    assert XorBits(0x06, 0x0f, 4) == 0x09;
    assert XorBits(0x0c, 0x1f, 5) == 0x13;
    assert XorBits(0x19, 0x3e, 6) == 0x27;
    assert XorBits(0x32, 0x7d, 7) == 0x4f;
    assert XorBits(0x65, 0xfa, 8) == 0x9f;
  }

  lemma HelloThird()
    ensures Xor(0x6c, 0x21) == 0x4d
  {
    assert XorBits(0x01, 0x00, 2) == 0x01;
    assert XorBits(0x03, 0x01, 3) == 0x02;
    assert XorBits(0x06, 0x02, 4) == 0x04;
    assert XorBits(0x0d, 0x04, 5) == 0x09;
    assert XorBits(0x1b, 0x08, 6) == 0x13;
    assert XorBits(0x36, 0x10, 7) == 0x26;
    assert XorBits(0x6c, 0x21, 8) == 0x4d;
  }

  lemma HelloFourth()
    ensures Xor(0x6c, 0x3d) == 0x51
  {
    assert XorBits(0x01, 0x00, 2) == 0x01;
    assert XorBits(0x03, 0x01, 3) == 0x02;
    assert XorBits(0x06, 0x03, 4) == 0x05;
    assert XorBits(0x0d, 0x07, 5) == 0x0a;
    assert XorBits(0x1b, 0x0f, 6) == 0x14;
    assert XorBits(0x36, 0x1e, 7) == 0x28;
    assert XorBits(0x6c, 0x3d, 8) == 0x51;
  }

  lemma HelloFifth()
    ensures Xor(0x6f, 0x37) == 0x58
  {
    assert XorBits(0x01, 0x00, 2) == 0x01;
    assert XorBits(0x03, 0x01, 3) == 0x02;
    assert XorBits(0x06, 0x03, 4) == 0x05;
    assert XorBits(0x0d, 0x06, 5) == 0x0b;
    assert XorBits(0x1b, 0x0d, 6) == 0x16;
    assert XorBits(0x37, 0x1b, 7) == 0x2c;
    assert XorBits(0x6f, 0x37, 8) == 0x58;
  }

  lemma LongLengths()
    ensures LengthBytes(256, 0) == [0x7e, 0x01, 0x00]
    ensures LengthBytes(65536, 0) == [0x7f, 0, 0, 0, 0, 0, 1, 0, 0]
  {
    assert BigEndian(256, 2) == [1, 0];
    assert BigEndian(65536, 8) == [0, 0, 0, 0, 0, 1, 0, 0];
  }

  // ----- Prefix stability -----

  lemma SliceIsStable(buffer: seq<byte>, more: seq<byte>, i: nat, j: nat)
    requires i <= j <= |buffer|
    ensures (buffer + more)[i..j] == buffer[i..j]
  {
  }

  lemma TailIsStable(buffer: seq<byte>, more: seq<byte>, i: nat)
    requires i <= |buffer|
    ensures (buffer + more)[i..] == buffer[i..] + more
  {
  }

  lemma HeaderIsStable(buffer: seq<byte>, more: seq<byte>)
    requires !ReadHeader(buffer).Short?
    ensures ReadHeader(buffer + more) == ReadHeader(buffer)
  {
    if |buffer| >= 4 {
      SliceIsStable(buffer, more, 2, 4);
    }
    if |buffer| >= 10 {
      SliceIsStable(buffer, more, 2, 10);
    }
  }

  /** The part of a frame behind its header. */
  lemma BodyIsStable(buffer: seq<byte>, more: seq<byte>, h: Header)
    requires ReadHeader(buffer) == h && h.Header? && Start(h) + h.length <= |buffer|
    ensures var start := Start(h);
            && (buffer + more)[start..start + h.length] == buffer[start..start + h.length]
            && (buffer + more)[start + h.length..] == buffer[start + h.length..] + more
            && (h.masked ==> (buffer + more)[h.size..h.size + 4] == buffer[h.size..h.size + 4])
  {
    var start := Start(h);
    SliceIsStable(buffer, more, start, start + h.length);
    TailIsStable(buffer, more, start + h.length);
    if h.masked {
      SliceIsStable(buffer, more, h.size, h.size + 4);
    }
  }

  /** Bytes that arrive later change neither a decoded frame nor a refusal, and a frame consumes at least two bytes. */
  lemma DecodeIsStable(buffer: seq<byte>, more: seq<byte>)
    ensures match Decode(buffer)
            case Incomplete => true
            case TooLarge => Decode(buffer + more) == TooLarge
            case Frame(opcode, payload, rest) =>
              |rest| + 2 <= |buffer| && Decode(buffer + more) == Frame(opcode, payload, rest + more)
  {
    var h := ReadHeader(buffer);
    if !h.Short? {
      HeaderIsStable(buffer, more);
      if h.Header? && Start(h) + h.length <= |buffer| {
        BodyIsStable(buffer, more, h);
      }
    }
  }

  // ----- The data handler -----

  datatype Event = Request(payload: seq<byte>) | CloseReply | TooLargeReply

  datatype Outcome = Waiting | Closed | Failed

  datatype Drained = Drained(events: seq<Event>, outcome: Outcome, pending: seq<byte>)

  /** What a frame makes the handler do; control frames other than close are dropped. */
  function React(opcode: nat, payload: seq<byte>): seq<Event> {
    if opcode == 8 then [CloseReply] else if opcode in {1, 2} then [Request(payload)] else []
  }

  function Then(events: seq<Event>, d: Drained): Drained {
    Drained(events + d.events, d.outcome, d.pending)
  }

  /** Takes frames until one is incomplete, refused, or a close. */
  function Drain(buffer: seq<byte>): (d: Drained)
    ensures |d.pending| <= |buffer|
    decreases |buffer|
  {
    match Decode(buffer)
    case Incomplete => Drained([], Waiting, buffer)
    case TooLarge => Drained([TooLargeReply], Failed, buffer)
    case Frame(opcode, payload, rest) =>
      DecodeIsStable(buffer, []);
      if opcode == 8 then Drained([CloseReply], Closed, rest) else Then(React(opcode, payload), Drain(rest))
  }

  lemma ThenInOrder(events: seq<Event>, more: seq<Event>, d: Drained)
    ensures Then(events, Then(more, d)) == Then(events + more, d) && events + [] == events
  {
    assert events + (more + d.events) == (events + more) + d.events;
  }

  lemma NothingFirst(d: Drained)
    ensures Then([], d) == d
  {
    assert [] + d.events == d.events;
  }

  lemma OneTurn(events: seq<Event>, pending: seq<byte>)
    ensures Decode(pending).Frame? && Decode(pending).opcode != 8
            ==> var f := Decode(pending);
                && |f.rest| < |pending|
                && Then(events, Drain(pending))
                   == Then(if f.opcode in {1, 2} then events + [Request(f.payload)] else events, Drain(f.rest))
    ensures Decode(pending).Incomplete? ==> Then(events, Drain(pending)) == Drained(events, Waiting, pending)
  {
    DecodeIsStable(pending, []);
    if Decode(pending).Frame? && Decode(pending).opcode != 8 {
      var f := Decode(pending);
      ThenInOrder(events, React(f.opcode, f.payload), Drain(f.rest));
    }
  }

  class Channel {
    var pending: seq<byte>
    var events: seq<Event>

    constructor ()
      ensures pending == [] && events == []
    {
      pending, events := [], [];
    }

    /** The `data` handler: each turn of the loop consumes bytes, so it ends. */
    method OnData(chunk: seq<byte>)
      modifies this
      ensures var d := Drain(old(pending) + chunk);
              pending == d.pending && events == old(events) + d.events
    {
      pending := pending + chunk;
      ghost var whole := Drain(pending);
      var handling := true;
      while handling
        invariant handling ==> Then(events, Drain(pending)) == Then(old(events), whole)
        invariant !handling ==> pending == whole.pending && events == old(events) + whole.events
        decreases handling, |pending|
      {
        DecodeIsStable(pending, []);
        OneTurn(events, pending);
        var frame := TryDecodeFrame(pending);
        match frame {
          case Incomplete =>
            handling := false;
          case TooLarge =>
            events := events + [TooLargeReply];
            handling := false;
          case Frame(opcode, payload, rest) =>
            pending := rest;
            if opcode == 8 {
              events := events + [CloseReply];
              handling := false;
            } else if opcode == 1 || opcode == 2 {
              events := events + [Request(payload)];
            }
        }
      }
    }
  }

  // ----- Chunking -----

  lemma {:induction false} DrainInTwoSteps(buffer: seq<byte>, more: seq<byte>)
    ensures var d := Drain(buffer);
            Drain(buffer + more)
            == if d.outcome.Waiting? then Then(d.events, Drain(d.pending + more))
               else Drained(d.events, d.outcome, d.pending + more)
    decreases |buffer|
  {
    DecodeIsStable(buffer, more);
    match Decode(buffer) {
      case Incomplete =>
        NothingFirst(Drain(buffer + more));
      case TooLarge =>
      case Frame(opcode, payload, rest) =>
        if opcode != 8 {
          DrainInTwoSteps(rest, more);
          ThenInOrder(React(opcode, payload), Drain(rest).events, Drain(Drain(rest).pending + more));
        }
    }
  }

  function Concat(chunks: seq<seq<byte>>): seq<byte> {
    if chunks == [] then [] else Concat(chunks[..|chunks| - 1]) + chunks[|chunks| - 1]
  }

  datatype State = State(pending: seq<byte>, events: seq<Event>)

  /** What `Channel` does over a sequence of `data` events. */
  function Receive(chunks: seq<seq<byte>>): State {
    if chunks == [] then State([], [])
    else
      var s := Receive(chunks[..|chunks| - 1]);
      var d := Drain(s.pending + chunks[|chunks| - 1]);
      State(d.pending, s.events + d.events)
  }

  /** The events up to and including the first close or refusal. */
  function UpToStop(events: seq<Event>): seq<Event> {
    if events == [] then []
    else if events[0].Request? then [events[0]] + UpToStop(events[1..])
    else [events[0]]
  }

  predicate OnlyRequests(events: seq<Event>) {
    forall e :: e in events ==> e.Request?
  }

  lemma {:induction false} UpToStopOfRequests(requests: seq<Event>, events: seq<Event>)
    requires OnlyRequests(requests)
    ensures UpToStop(requests + events) == requests + UpToStop(events)
  {
    if requests == [] {
      assert requests + events == events;
    } else {
      UpToStopOfRequests(requests[1..], events);
      assert (requests + events)[1..] == requests[1..] + events;
      assert requests == [requests[0]] + requests[1..];
    }
  }

  lemma {:induction false} UpToStopKeepsStop(events: seq<Event>)
    ensures OnlyRequests(UpToStop(events)) <==> OnlyRequests(events)
  {
    if events != [] && events[0].Request? {
      UpToStopKeepsStop(events[1..]);
      assert events == [events[0]] + events[1..];
    }
  }

  lemma {:induction false} UpToStopStays(events: seq<Event>, more: seq<Event>)
    requires !OnlyRequests(events)
    ensures UpToStop(events + more) == UpToStop(events)
  {
    if events[0].Request? {
      UpToStopStays(events[1..], more);
      assert (events + more)[1..] == events[1..] + more;
    }
  }

  lemma {:induction false} DrainStopsOnce(buffer: seq<byte>)
    ensures var d := Drain(buffer);
            && UpToStop(d.events) == d.events
            && (d.outcome.Waiting? <==> OnlyRequests(d.events))
    decreases |buffer|
  {
    match Decode(buffer) {
      case Incomplete =>
      case TooLarge =>
      case Frame(opcode, payload, rest) =>
        DecodeIsStable(buffer, []);
        if opcode != 8 {
          DrainStopsOnce(rest);
          UpToStopOfRequests(React(opcode, payload), Drain(rest).events);
        }
    }
  }

  /** While nothing has stopped the handler, its state is that of one chunk. */
  lemma {:induction false} ReceivedSoFar(chunks: seq<seq<byte>>)
    ensures var s, d := Receive(chunks), Drain(Concat(chunks));
            && UpToStop(s.events) == d.events
            && (d.outcome.Waiting? ==> s == State(d.pending, d.events))
  {
    if chunks != [] {
      var before, chunk := chunks[..|chunks| - 1], chunks[|chunks| - 1];
      ReceivedSoFar(before);
      var s, d := Receive(before), Drain(Concat(before));
      var next := Drain(s.pending + chunk);
      DrainInTwoSteps(Concat(before), chunk);
      DrainStopsOnce(Concat(before));
      DrainStopsOnce(s.pending + chunk);
      if d.outcome.Waiting? {
        UpToStopOfRequests(s.events, next.events);
      } else {
        UpToStopKeepsStop(s.events);
        UpToStopStays(s.events, next.events);
      }
    }
  }

  /**
   Chunking independence: two ways of cutting the same byte stream give the same events up to the first close or
   refusal, namely those of decoding the stream at once.
   */
  lemma ChunkingDoesNotMatter(chunks: seq<seq<byte>>, others: seq<seq<byte>>)
    requires Concat(chunks) == Concat(others)
    ensures UpToStop(Receive(chunks).events) == UpToStop(Receive(others).events) == Drain(Concat(chunks)).events
  {
    ReceivedSoFar(chunks);
    ReceivedSoFar(others);
  }

  // ----- Messages -----

  datatype ClientMessage = ClientMessage(first: byte, payload: seq<byte>, mask: Mask)

  predicate Sendable(messages: seq<ClientMessage>) {
    forall m :: m in messages ==> |m.payload| <= MAX_SAFE_INTEGER
  }

  /** What a client puts on the wire. */
  function Wire(messages: seq<ClientMessage>): seq<byte>
    requires Sendable(messages)
  {
    if messages == [] then []
    else ClientFrame(messages[0].first, messages[0].payload, messages[0].mask) + Wire(messages[1..])
  }

  /** What it expects: its text and binary payloads in order, up to its first close, which is answered. */
  function Handled(messages: seq<ClientMessage>): seq<Event> {
    if messages == [] then []
    else
      var opcode := messages[0].first % 16;
      if opcode == 8 then [CloseReply]
      else if opcode == 1 || opcode == 2 then [Request(messages[0].payload)] + Handled(messages[1..])
      else Handled(messages[1..])
  }

  lemma {:induction false} WireDrains(messages: seq<ClientMessage>)
    requires Sendable(messages)
    ensures Drain(Wire(messages)).events == Handled(messages)
  {
    if messages == [] {
      assert Drain([]) == Drained([], Waiting, []);
    } else {
      var m := messages[0];
      ClientFrameDecodes(m.first, m.payload, m.mask, Wire(messages[1..]));
      WireDrains(messages[1..]);
    }
  }

  /**
   End to end: however the network cuts a client's messages, and whatever its masks, the requests handled up to the
   first close are its text and binary messages, in order and with the payloads it sent.
   */
  lemma MessagesArriveInOrder(messages: seq<ClientMessage>, chunks: seq<seq<byte>>)
    requires Sendable(messages) && Concat(chunks) == Wire(messages)
    ensures UpToStop(Receive(chunks).events) == Handled(messages)
  {
    ReceivedSoFar(chunks);
    WireDrains(messages);
  }

  /** After a refused length the channel only repeats the refusal, once a chunk. */
  lemma RefusalIsForever(pending: seq<byte>, chunk: seq<byte>)
    requires Decode(pending).TooLarge?
    ensures Drain(pending + chunk) == Drained([TooLargeReply], Failed, pending + chunk)
    ensures Decode(pending + chunk).TooLarge?
  {
    DecodeIsStable(pending, chunk);
  }

  // ----- Where the cuts matter -----

  /** A refusal is noticed with the last byte of the longest header. */
  const HEADER_SIZE := 10

  /** The handler does nothing about these bytes: control frames other than close, then at most part of a frame. */
  predicate Silent(bytes: seq<byte>)
    decreases |bytes|
  {
    match Decode(bytes)
    case Incomplete => true
    case TooLarge => false
    case Frame(opcode, _, rest) =>
      DecodeIsStable(bytes, []);
      opcode !in {1, 2, 8} && Silent(rest)
  }

  /** Nothing that matters follows the first close, and nothing at all the first refused header. */
  predicate AnyCutsWillDo(bytes: seq<byte>)
    decreases |bytes|
  {
    match Decode(bytes)
    case Incomplete => true
    case TooLarge => |bytes| == HEADER_SIZE
    case Frame(opcode, _, rest) =>
      DecodeIsStable(bytes, []);
      if opcode == 8 then Silent(rest) else AnyCutsWillDo(rest)
  }

  /** A byte stream cut into data events, each of which carries something. */
  predicate Cuts(chunks: seq<seq<byte>>, bytes: seq<byte>) {
    Concat(chunks) == bytes && forall chunk :: chunk in chunks ==> chunk != []
  }

  lemma {:induction false} SilentIsWithoutEvents(bytes: seq<byte>)
    ensures Silent(bytes) <==> Drain(bytes).events == []
    decreases |bytes|
  {
    DecodeIsStable(bytes, []);
    if Decode(bytes).Frame? {
      SilentIsWithoutEvents(Decode(bytes).rest);
    }
  }

  predicate Harmless(d: Drained) {
    match d.outcome
    case Waiting => true
    case Closed => Drain(d.pending).events == []
    case Failed => |d.pending| == HEADER_SIZE
  }

  lemma {:induction false} AnyCutsIsHarmless(bytes: seq<byte>)
    ensures AnyCutsWillDo(bytes) <==> Harmless(Drain(bytes))
    decreases |bytes|
  {
    DecodeIsStable(bytes, []);
    if Decode(bytes).Frame? {
      SilentIsWithoutEvents(Decode(bytes).rest);
      AnyCutsIsHarmless(Decode(bytes).rest);
    }
  }

  /** What the handler waits with is not a complete frame. */
  lemma {:induction false} WaitsForMore(bytes: seq<byte>)
    requires Drain(bytes).outcome.Waiting?
    ensures Drain(Drain(bytes).pending) == Drained([], Waiting, Drain(bytes).pending)
    decreases |bytes|
  {
    DecodeIsStable(bytes, []);
    if Decode(bytes).Frame? {
      WaitsForMore(Decode(bytes).rest);
    }
  }

  lemma {:induction false} RefusedIsHeader(bytes: seq<byte>)
    requires Drain(bytes).outcome.Failed?
    ensures |Drain(bytes).pending| >= HEADER_SIZE && Decode(Drain(bytes).pending).TooLarge?
    decreases |bytes|
  {
    DecodeIsStable(bytes, []);
    if Decode(bytes).Frame? {
      RefusedIsHeader(Decode(bytes).rest);
    }
  }

  /** A stream whose cuts do not matter begins with such streams. */
  lemma HarmlessBefore(bytes: seq<byte>, chunk: seq<byte>)
    requires Harmless(Drain(bytes + chunk)) && chunk != []
    ensures Harmless(Drain(bytes)) && !Drain(bytes).outcome.Failed?
  {
    var d := Drain(bytes);
    DrainInTwoSteps(bytes, chunk);
    if d.outcome.Failed? {
      RefusedIsHeader(bytes);
      assert false;
    }
    if d.outcome.Closed? {
      DrainInTwoSteps(d.pending, chunk);
      DrainStopsOnce(d.pending);
    }
  }

  /** The state is that of one chunk; behind a close, up to control frames that are or are not taken out yet. */
  predicate LikeOne(s: State, d: Drained) {
    && s.events == d.events
    && (d.outcome.Waiting? ==> s.pending == d.pending)
    && (d.outcome.Closed? ==>
          && Drain(s.pending).events == [] && Drain(s.pending).outcome.Waiting?
          && Drain(s.pending).pending == Drain(d.pending).pending)
  }

  /** Two buffers that leave the same behind, without events, stay alike. */
  lemma DrainAlike(a: seq<byte>, b: seq<byte>, chunk: seq<byte>)
    requires Drain(a).events == [] == Drain(b).events && Drain(a).outcome.Waiting? && Drain(b).outcome.Waiting?
    requires Drain(a).pending == Drain(b).pending
    ensures Drain(a + chunk) == Drain(b + chunk)
  {
    DrainInTwoSteps(a, chunk);
    DrainInTwoSteps(b, chunk);
  }

  lemma NoEventsIsWaiting(bytes: seq<byte>)
    requires Drain(bytes).events == []
    ensures Drain(bytes).outcome.Waiting?
  {
    DrainStopsOnce(bytes);
  }

  lemma LikeOneBehindClose(s: State, bytes: seq<byte>, chunk: seq<byte>)
    requires Drain(bytes).outcome.Closed? && LikeOne(s, Drain(bytes))
    requires Harmless(Drain(bytes)) && Harmless(Drain(bytes + chunk))
    ensures var next := Drain(s.pending + chunk);
            LikeOne(State(next.pending, s.events + next.events), Drain(bytes + chunk))
  {
    var d := Drain(bytes);
    DrainInTwoSteps(bytes, chunk);
    NoEventsIsWaiting(d.pending);
    DrainAlike(s.pending, d.pending, chunk);
    NoEventsIsWaiting(d.pending + chunk);
    WaitsForMore(d.pending + chunk);
  }

  lemma LikeOneWhileWaiting(s: State, bytes: seq<byte>, chunk: seq<byte>)
    requires Drain(bytes).outcome.Waiting? && LikeOne(s, Drain(bytes)) && Harmless(Drain(bytes + chunk))
    ensures var next := Drain(s.pending + chunk);
            LikeOne(State(next.pending, s.events + next.events), Drain(bytes + chunk))
  {
    DrainInTwoSteps(bytes, chunk);
    if Drain(bytes + chunk).outcome.Closed? {
      NoEventsIsWaiting(Drain(bytes + chunk).pending);
    }
  }

  lemma {:induction false} HarmlessCuts(chunks: seq<seq<byte>>, bytes: seq<byte>)
    requires Cuts(chunks, bytes) && Harmless(Drain(bytes))
    ensures LikeOne(Receive(chunks), Drain(bytes))
  {
    if chunks != [] {
      var shorter, chunk := chunks[..|chunks| - 1], chunks[|chunks| - 1];
      var before, s := Concat(shorter), Receive(shorter);
      assert chunks == shorter + [chunk];
      assert chunk in chunks && forall c :: c in shorter ==> c in chunks;
      assert Cuts(shorter, before);
      HarmlessBefore(before, chunk);
      HarmlessCuts(shorter, before);
      if Drain(before).outcome.Closed? {
        LikeOneBehindClose(s, before, chunk);
      } else {
        LikeOneWhileWaiting(s, before, chunk);
      }
    }
  }

  /** A frame needs none of the bytes behind it. */
  lemma FrameWithLess(bytes: seq<byte>, n: nat)
    requires Decode(bytes).Frame? && n <= |Decode(bytes).rest|
    ensures n <= |bytes|
    ensures var f := Decode(bytes);
            Decode(bytes[..|bytes| - n]) == Frame(f.opcode, f.payload, f.rest[..|f.rest| - n])
  {
    var f, m := Decode(bytes), |bytes| - n;
    var front, back := bytes[..m], bytes[m..];
    assert bytes == front + back;
    assert |bytes| >= 4 && m >= 4 ==> front[2..4] == bytes[2..4];
    assert |bytes| >= 10 && m >= 10 ==> front[2..10] == bytes[2..10];
    assert ReadHeader(front) == ReadHeader(bytes);
    DecodeIsStable(front, back);
    assert (Decode(front).rest + back)[..|f.rest| - n] == Decode(front).rest;
  }

  lemma RefusalWithLess(bytes: seq<byte>, n: nat)
    requires Decode(bytes).TooLarge? && n + HEADER_SIZE <= |bytes|
    ensures Decode(bytes[..|bytes| - n]).TooLarge?
  {
    assert bytes[..|bytes| - n][2..10] == bytes[2..10];
  }

  lemma DrainOfFrame(bytes: seq<byte>, opcode: nat, payload: seq<byte>, rest: seq<byte>)
    requires Decode(bytes) == Frame(opcode, payload, rest) && opcode != 8
    ensures Drain(bytes) == Then(React(opcode, payload), Drain(rest))
  {
  }

  /** Where the handler stops depends on no byte behind that place. */
  lemma {:induction false} StopsWithLess(bytes: seq<byte>, n: nat)
    requires var d := Drain(bytes);
             !d.outcome.Waiting? && n + (if d.outcome.Failed? then HEADER_SIZE else 0) <= |d.pending|
    ensures var d := Drain(bytes);
            Drain(bytes[..|bytes| - n]) == Drained(d.events, d.outcome, d.pending[..|d.pending| - n])
    decreases |bytes|
  {
    DecodeIsStable(bytes, []);
    match Decode(bytes) {
      case Incomplete =>
      case TooLarge => RefusalWithLess(bytes, n);
      case Frame(opcode, payload, rest) =>
        FrameWithLess(bytes, n);
        if opcode != 8 {
          StopsWithLess(rest, n);
          DrainOfFrame(bytes[..|bytes| - n], opcode, payload, rest[..|rest| - n]);
        }
    }
  }

  lemma ReceiveMore(chunks: seq<seq<byte>>, chunk: seq<byte>)
    ensures Concat(chunks + [chunk]) == Concat(chunks) + chunk
    ensures var s := Receive(chunks);
            var d := Drain(s.pending + chunk);
            Receive(chunks + [chunk]) == State(d.pending, s.events + d.events)
  {
    assert (chunks + [chunk])[..|chunks|] == chunks;
  }

  lemma ReceiveFirst(chunk: seq<byte>)
    ensures Concat([chunk]) == chunk && Receive([chunk]) == State(Drain(chunk).pending, Drain(chunk).events)
  {
    ReceiveMore([], chunk);
    assert [] + [chunk] == [chunk] && [] + chunk == chunk && [] + Drain(chunk).events == Drain(chunk).events;
  }

  lemma ReceiveTwo(first: seq<byte>, second: seq<byte>)
    requires first != [] && second != []
    ensures Cuts([first, second], first + second) && Cuts([first + second], first + second)
    ensures Receive([first + second]).events == Drain(first + second).events
    ensures Receive([first, second]).events == Drain(first).events + Drain(Drain(first).pending + second).events
  {
    ReceiveFirst(first);
    ReceiveFirst(first + second);
    ReceiveMore([first], second);
    assert [first] + [second] == [first, second];
  }

  /** The second of two chunks makes the handler act although it does not as part of one. */
  predicate ActsOnItsOwn(front: seq<byte>, back: seq<byte>) {
    && front != [] && back != []
    && Drain(front).events == Drain(front + back).events
    && Drain(Drain(front).pending + back).events != []
  }

  /** Cut right behind a close, the second chunk is drained from its start. */
  lemma CutBehindClose(bytes: seq<byte>) returns (front: seq<byte>, back: seq<byte>)
    requires Drain(bytes).outcome.Closed? && !Harmless(Drain(bytes))
    ensures bytes == front + back && ActsOnItsOwn(front, back)
  {
    var d := Drain(bytes);
    var n := |bytes| - |d.pending|;
    front, back := bytes[..n], bytes[n..];
    StopsWithLess(bytes, |d.pending|);
    assert bytes == front + back;
    DrainInTwoSteps(front, back);
    assert Drain(front).pending == [] && [] + back == back;
  }

  lemma RefusedAgain(refused: seq<byte>, back: seq<byte>)
    requires Decode(refused).TooLarge? && |refused| > HEADER_SIZE
    ensures Drain(refused[..|refused| - 1] + back).events == [TooLargeReply]
  {
    RefusalWithLess(refused, 1);
    RefusalIsForever(refused[..|refused| - 1], back);
  }

  /** Cut before the last byte behind a refused header, the second chunk is refused as well. */
  lemma CutBehindRefusal(bytes: seq<byte>) returns (front: seq<byte>, back: seq<byte>)
    requires Drain(bytes).outcome.Failed? && !Harmless(Drain(bytes))
    ensures bytes == front + back && ActsOnItsOwn(front, back)
  {
    var d := Drain(bytes);
    RefusedIsHeader(bytes);
    front, back := bytes[..|bytes| - 1], bytes[|bytes| - 1..];
    assert bytes == front + back;
    StopsWithLess(bytes, 1);
    RefusedAgain(d.pending, back);
  }

  lemma ActingDiffers(front: seq<byte>, back: seq<byte>)
    requires ActsOnItsOwn(front, back)
    ensures Cuts([front, back], front + back) && Cuts([front + back], front + back)
    ensures Receive([front, back]).events != Receive([front + back]).events
  {
    ReceiveTwo(front, back);
  }

  /** Cuts whose second chunk adds events to those of the whole. */
  lemma HarmfulCut(bytes: seq<byte>) returns (front: seq<byte>, back: seq<byte>)
    requires !Harmless(Drain(bytes))
    ensures bytes == front + back && ActsOnItsOwn(front, back)
  {
    if Drain(bytes).outcome.Closed? {
      front, back := CutBehindClose(bytes);
    } else {
      front, back := CutBehindRefusal(bytes);
    }
  }

  /**
   The cuts of a byte stream change what the channel does exactly if a text, binary or close frame or a refused header
   follows the first close, or anything at all the first refused header.
   */
  lemma CutsMatterExactly(bytes: seq<byte>)
    ensures (forall chunks, others :: Cuts(chunks, bytes) && Cuts(others, bytes) ==>
               Receive(chunks).events == Receive(others).events)
            <==> AnyCutsWillDo(bytes)
  {
    AnyCutsIsHarmless(bytes);
    if AnyCutsWillDo(bytes) {
      forall chunks | Cuts(chunks, bytes) ensures Receive(chunks).events == Drain(bytes).events {
        HarmlessCuts(chunks, bytes);
      }
    } else {
      var front, back := HarmfulCut(bytes);
      ActingDiffers(front, back);
    }
  }

  // ----- A pair of cuts that differ -----

  const CLOSE: seq<byte> := [136, 0]
  const EMPTY_TEXT: seq<byte> := [129, 0]

  lemma ShortFrames(rest: seq<byte>)
    ensures Decode(CLOSE + rest) == Frame(8, [], rest) && Decode(EMPTY_TEXT + rest) == Frame(1, [], rest)
  {
    EncodedFrameDecodes([], 8, rest);
    EncodedFrameDecodes([], 1, rest);
    assert Encode([], 8) == CLOSE && Encode([], 1) == EMPTY_TEXT;
  }

  lemma DrainShortFrames()
    ensures Drain(CLOSE + EMPTY_TEXT) == Drained([CloseReply], Closed, EMPTY_TEXT)
    ensures Drain(CLOSE) == Drained([CloseReply], Closed, [])
    ensures Drain(EMPTY_TEXT) == Drained([Request([])], Waiting, [])
  {
    ShortFrames([]);
    ShortFrames(EMPTY_TEXT);
    assert CLOSE + [] == CLOSE && EMPTY_TEXT + [] == EMPTY_TEXT;
    assert Drain([]) == Drained([], Waiting, []);
    assert [Request([])] + [] == [Request([])];
  }

  /**
   Such a stream: behind the close the handler leaves the text alone within the chunk, but takes it when another chunk
   arrives.
   */
  lemma ChunkingMattersAfterClose()
    ensures Receive([CLOSE + EMPTY_TEXT]).events == [CloseReply]
    ensures Receive([CLOSE, EMPTY_TEXT]).events == [CloseReply, Request([])]
  {
    DrainShortFrames();
    ReceiveFirst(CLOSE + EMPTY_TEXT);
    ReceiveTwo(CLOSE, EMPTY_TEXT);
    assert [] + EMPTY_TEXT == EMPTY_TEXT;
  }
}
