/** WebSocket frames on the wire (RFC 6455 section 5.2): the format, the decoding of a byte stream,
    and why cutting the stream does not matter. */
module WebSocketFrame {
  import opened Bytes

  // ---------- octet arithmetic ----------

  /** The exclusive or of the low `n` bits. */
  function XorBits(a: nat, b: nat, n: nat): (r: nat)
  {
    if n == 0 then 0 else 2 * XorBits(a / 2, b / 2, n - 1) + (if a % 2 == b % 2 then 0 else 1)
  }

  function PowerOfTwo(n: nat): nat {
    if n == 0 then 1 else 2 * PowerOfTwo(n - 1)
  }

  lemma {:induction false} XorBounded(a: nat, b: nat, n: nat)
    ensures XorBits(a, b, n) < PowerOfTwo(n)
  {
    if n > 0 {
      XorBounded(a / 2, b / 2, n - 1);
    }
  }

  lemma {:induction false} XorBitsTwice(a: nat, b: nat, n: nat)
    requires a < PowerOfTwo(n)
    ensures XorBits(XorBits(a, b, n), b, n) == a
  {
    if n > 0 {
      XorBitsTwice(a / 2, b / 2, n - 1);
    }
  }

  lemma EightBits()
    ensures PowerOfTwo(8) == 256
  {
    assert PowerOfTwo(3) == 8 && PowerOfTwo(5) == 32 && PowerOfTwo(7) == 128;
  }

  /** `a ^ b` */
  function Xor(a: byte, b: byte): byte {
    XorBounded(a, b, 8);
    EightBits();
    XorBits(a, b, 8)
  }

  lemma XorBitsPairs(a: nat, b: nat, n: nat)
    ensures XorBits(a, b, 0) == 0
    ensures XorBits(a, b, n + 2) == 4 * XorBits(a / 4, b / 4, n) + PairXor(a, b)
  {
    assert XorBits(a, b, n + 2) == 2 * XorBits(a / 2, b / 2, n + 1) + (if a % 2 == b % 2 then 0 else 1);
    assert a / 2 / 2 == a / 4 && b / 2 / 2 == b / 4;
  }

  /** The exclusive or of the low two bits. */
  function PairXor(a: nat, b: nat): nat {
    (if a / 2 % 2 == b / 2 % 2 then 0 else 2) + if a % 2 == b % 2 then 0 else 1
  }

  /** The exclusive or, two bits at a time. */
  lemma XorPairs(a: byte, b: byte)
    ensures Xor(a, b) == 64 * PairXor(a / 64, b / 64) + 16 * PairXor(a / 16, b / 16) + 4 * PairXor(a / 4, b / 4) + PairXor(a, b)
  {
    hide XorBits, PairXor;
    assert a / 4 / 4 == a / 16 && b / 4 / 4 == b / 16 && a / 16 / 4 == a / 64 && b / 16 / 4 == b / 64;
    XorBitsPairs(a, b, 6);
    XorBitsPairs(a / 4, b / 4, 4);
    XorBitsPairs(a / 16, b / 16, 2);
    XorBitsPairs(a / 64, b / 64, 0);
    XorBitsPairs(a / 64 / 4, b / 64 / 4, 0);
  }

  lemma XorTwice(a: byte, b: byte)
    ensures Xor(Xor(a, b), b) == a
  {
    EightBits();
    XorBitsTwice(a, b, 8);
  }

  /** Bit `i` of a number. */
  function Bit(n: nat, i: nat): nat {
    if i == 0 then n % 2 else Bit(n / 2, i - 1)
  }

  lemma {:induction false} XorBitsExact(a: nat, b: nat, n: nat, i: nat)
    requires i < n
    ensures Bit(XorBits(a, b, n), i) == if Bit(a, i) != Bit(b, i) then 1 else 0
  {
    if i > 0 {
      XorBitsExact(a / 2, b / 2, n - 1, i - 1);
    }
  }

  /** Each of the eight bits of `a ^ b` is set if and only if the bits of the two octets differ. */
  lemma XorExact(a: byte, b: byte)
    ensures forall i :: 0 <= i < 8 ==> (Bit(Xor(a, b), i) == 1 <==> Bit(a, i) != Bit(b, i))
  {
    forall i | 0 <= i < 8 ensures Bit(Xor(a, b), i) == 1 <==> Bit(a, i) != Bit(b, i) {
      XorBitsExact(a, b, 8, i);
    }
  }

  lemma {:induction false} XorBitsZero(a: nat, n: nat)
    requires a < PowerOfTwo(n)
    ensures XorBits(a, 0, n) == a
  {
    if n > 0 {
      XorBitsZero(a / 2, n - 1);
    }
  }

  lemma XorZero(a: byte)
    ensures Xor(a, 0) == a
  {
    EightBits();
    XorBitsZero(a, 8);
  }

  /** Masking of a payload (RFC 6455 section 5.3). */
  function Masked(payload: seq<byte>, key: seq<byte>): (r: seq<byte>)
    requires |key| == 4
    ensures |r| == |payload| && forall i :: 0 <= i < |r| ==> r[i] == Xor(payload[i], key[i % 4])
  {
    seq(|payload|, i requires 0 <= i < |payload| => Xor(payload[i], key[i % 4]))
  }

  lemma MaskedTwice(payload: seq<byte>, key: seq<byte>)
    requires |key| == 4
    ensures Masked(Masked(payload, key), key) == payload
  {
    hide Xor;
    forall i | 0 <= i < |payload| ensures Masked(Masked(payload, key), key)[i] == payload[i] {
      XorTwice(payload[i], key[i % 4]);
    }
  }

  /** The key of four zeros leaves a payload as it is. */
  lemma MaskedByZero(payload: seq<byte>)
    ensures Masked(payload, [0, 0, 0, 0]) == payload
  {
    hide Xor;
    forall i | 0 <= i < |payload| ensures Masked(payload, [0, 0, 0, 0])[i] == payload[i] {
      XorZero(payload[i]);
    }
  }

  // ---------- numbers ----------

  function Power256(k: nat): nat {
    if k == 0 then 1 else 256 * Power256(k - 1)
  }

  /** The number whose octets are `s`, most significant first. */
  function BigEndian(s: seq<byte>): nat {
    if s == [] then 0 else BigEndian(s[..|s| - 1]) * 256 + s[|s| - 1]
  }

  /** The same, least significant first: how a little-endian host reads memory. */
  function LittleEndian(s: seq<byte>): nat {
    if s == [] then 0 else s[0] + 256 * LittleEndian(s[1..])
  }

  /** `n` in `k` octets, most significant first. */
  function ToBigEndian(n: nat, k: nat): (s: seq<byte>)
    ensures |s| == k
  {
    if k == 0 then [] else ToBigEndian(n / 256, k - 1) + [n % 256]
  }

  lemma {:induction false} BigEndianRoundTrip(n: nat, k: nat)
    requires n < Power256(k)
    ensures BigEndian(ToBigEndian(n, k)) == n
  {
    if k > 0 {
      BigEndianRoundTrip(n / 256, k - 1);
      var s := ToBigEndian(n, k);
      assert s[..|s| - 1] == ToBigEndian(n / 256, k - 1);
    }
  }

  lemma {:induction false} BigEndianBounded(s: seq<byte>)
    ensures BigEndian(s) < Power256(|s|)
    decreases |s|
  {
    if s != [] {
      BigEndianBounded(s[..|s| - 1]);
    }
  }

  function Reversed(s: seq<byte>): (r: seq<byte>)
    ensures |r| == |s| && forall i :: 0 <= i < |s| ==> r[i] == s[|s| - 1 - i]
  {
    seq(|s|, i requires 0 <= i < |s| => s[|s| - 1 - i])
  }

  /** Reversing the octets converts between network order and the order of the host. */
  lemma {:induction false} ReversedOrder(s: seq<byte>)
    ensures LittleEndian(Reversed(s)) == BigEndian(s)
    decreases |s|
  {
    if s != [] {
      assert Reversed(s)[1..] == Reversed(s[..|s| - 1]);
      ReversedOrder(s[..|s| - 1]);
    }
  }

  // ---------- the format ----------

  /** A frame as a sender describes it. `key` is the masking key, if the payload is masked. */
  datatype Frame = Frame(fin: bool, opcode: int, key: Option<seq<byte>>, payload: seq<byte>)

  const LENGTH_LIMIT: nat := Power256(8)

  predicate IsFrame(f: Frame) {
    0 <= f.opcode < 16 && |f.payload| < LENGTH_LIMIT && (f.key.Some? ==> |f.key.value| == 4)
  }

  /** The shortest of the three length encodings: the 7-bit field and the octets after it. */
  function LengthCode(n: nat): (c: nat)
    ensures c < 128
  {
    if n < 126 then n else if n < 65536 then 126 else 127
  }

  function LengthOctets(n: nat): seq<byte> {
    if n < 126 then [] else if n < 65536 then ToBigEndian(n, 2) else ToBigEndian(n, 8)
  }

  function FrameHeader(f: Frame): seq<byte>
    requires IsFrame(f)
  {
    [(if f.fin then 128 else 0) + f.opcode, (if f.key.Some? then 128 else 0) + LengthCode(|f.payload|)]
      + LengthOctets(|f.payload|)
  }

  /** The octets of a frame. */
  function Encode(f: Frame): seq<byte>
    requires IsFrame(f)
  {
    FrameHeader(f)
      + (match f.key case None => f.payload case Some(key) => key + Masked(f.payload, key))
  }

  /** The octets of a frame, one by one: FIN and opcode, the mask bit with the 7-bit length, the extended length of
      two or eight octets, the key, and the payload, under the key if there is one. */
  predicate FrameOctets(s: seq<byte>, f: Frame) {
    var n, at := |f.payload|, if |f.payload| < 126 then 2 else if |f.payload| < 65536 then 4 else 10;
    var start := at + if f.key.Some? then 4 else 0;
    && |s| == start + n
    && s[0] == (if f.fin then 128 else 0) + f.opcode
    && s[1] == (if f.key.Some? then 128 else 0) + (if at == 2 then n else if at == 4 then 126 else 127)
    && (at == 4 ==> 0x100 * (s[2] as int) + s[3] == n)
    && (at == 10 ==>
          0x100_0000_0000_0000 * (s[2] as int) + 0x1_0000_0000_0000 * (s[3] as int)
          + 0x100_0000_0000 * (s[4] as int) + 0x1_0000_0000 * (s[5] as int)
          + 0x100_0000 * (s[6] as int) + 0x1_0000 * (s[7] as int) + 0x100 * (s[8] as int) + s[9] == n)
    && if f.key.Some? then
         && s[at..start] == f.key.value && |f.key.value| == 4
         && forall i :: 0 <= i < n ==> s[start + i] == Xor(f.payload[i], f.key.value[i % 4])
       else s[start..] == f.payload
  }

  lemma NextTwo(s: seq<byte>, k: nat)
    requires k + 2 <= |s|
    ensures BigEndian(s[..k + 2]) == 0x1_0000 * BigEndian(s[..k]) + 0x100 * (s[k] as int) + s[k + 1]
  {
    assert s[..k + 2][..k + 1] == s[..k + 1] && s[..k + 1][..k] == s[..k];
  }

  lemma EmptyNumber(s: seq<byte>)
    ensures BigEndian(s[..0]) == 0
  {
  }

  /** What the octets of a number are worth. */
  lemma BigEndianWorth(s: seq<byte>)
    ensures |s| == 2 ==> BigEndian(s) == 0x100 * (s[0] as int) + s[1]
    ensures |s| == 8 ==>
      BigEndian(s) ==
      0x100_0000_0000_0000 * (s[0] as int) + 0x1_0000_0000_0000 * (s[1] as int)
      + 0x100_0000_0000 * (s[2] as int) + 0x1_0000_0000 * (s[3] as int)
      + 0x100_0000 * (s[4] as int) + 0x1_0000 * (s[5] as int) + 0x100 * (s[6] as int) + s[7]
  {
    hide BigEndian;
    EmptyNumber(s);
    assert s[..|s|] == s;
    if |s| == 2 {
      NextTwo(s, 0);
    } else if |s| == 8 {
      NextTwo(s, 0);
      NextTwo(s, 2);
      NextTwo(s, 4);
      NextTwo(s, 6);
    }
  }

  /** The encoding of a frame, octet by octet. */
  lemma EncodeExact(f: Frame)
    requires IsFrame(f)
    ensures FrameOctets(Encode(f), f)
  {
    hide BigEndian, ToBigEndian, Xor;
    var n, h := |f.payload|, FrameHeader(f);
    LengthFits(n);
    BigEndianWorth(LengthOctets(n));
    assert h[2..] == LengthOctets(n);
    match f.key {
      case None => assert Encode(f) == h + f.payload;
      case Some(key) => assert Encode(f) == h + key + Masked(f.payload, key);
    }
  }

  // ---------- decoding one frame ----------

  datatype Message = Message(opcode: int, payload: seq<byte>)

  /** What the octets so far amount to: not yet a frame, or a message and the octets it took. */
  datatype Decoded = Partial | Complete(message: Message, size: nat)

  /** The octets before the mask: the two fixed ones and the extended length. */
  function FixedSize(code: nat): nat {
    if code < 126 then 2 else if code == 126 then 4 else 10
  }

  predicate HasLength(s: seq<byte>) {
    |s| >= 2 && |s| >= FixedSize(s[1] % 128)
  }

  /** The declared payload length. */
  function DeclaredLength(s: seq<byte>): nat
    requires HasLength(s)
  {
    var code := s[1] % 128;
    if code < 126 then code else BigEndian(s[2..FixedSize(code)])
  }

  function FrameSize(s: seq<byte>): nat
    requires HasLength(s)
  {
    FixedSize(s[1] % 128) + DeclaredLength(s) + (if s[1] >= 128 then 4 else 0)
  }

  function Payload(s: seq<byte>): seq<byte>
    requires HasLength(s) && |s| >= FrameSize(s)
  {
    var at := FixedSize(s[1] % 128);
    if s[1] >= 128 then Masked(s[at + 4..FrameSize(s)], s[at..at + 4]) else s[at..FrameSize(s)]
  }

  lemma DeclaredFits(s: seq<byte>)
    requires HasLength(s)
    ensures DeclaredLength(s) < (if FixedSize(s[1] % 128) == 10 then LENGTH_LIMIT else 65536)
  {
    hide BigEndian;
    assert Power256(2) == 65536;
    if s[1] % 128 >= 126 {
      BigEndianBounded(s[2..FixedSize(s[1] % 128)]);
    }
  }

  function Decode(s: seq<byte>): Decoded {
    if !HasLength(s) || |s| < FrameSize(s) then Partial
    else Complete(Message(s[0] % 16, Payload(s)), FrameSize(s))
  }

  /** More octets do not change a frame that is complete, nor a length that is known. */
  lemma DecodeMore(a: seq<byte>, b: seq<byte>)
    ensures HasLength(a) ==> HasLength(a + b) && DeclaredLength(a + b) == DeclaredLength(a) && FrameSize(a + b) == FrameSize(a)
    ensures Decode(a).Complete? ==> Decode(a + b) == Decode(a)
  {
    hide Masked, BigEndian;
    var s := a + b;
    if HasLength(a) {
      var at := FixedSize(a[1] % 128);
      assert s[1] == a[1] && s[0] == a[0];
      assert at > 2 ==> s[2..at] == a[2..at];
      var n := FrameSize(a);
      if |a| >= n {
        assert s[at..n] == a[at..n];
        if a[1] >= 128 {
          assert s[at + 4..n] == a[at + 4..n] && s[at..at + 4] == a[at..at + 4];
        }
      }
    }
  }

  // ---------- decoding a stream ----------

  /** The messages in `s` and the octets left over. */
  datatype Stream = Stream(messages: seq<Message>, rest: seq<byte>)

  function DecodeAll(s: seq<byte>): (r: Stream)
    ensures Decode(r.rest).Partial? && |r.rest| <= |s|
    decreases |s|
  {
    match Decode(s)
    case Partial => Stream([], s)
    case Complete(m, n) =>
      var r := DecodeAll(s[n..]);
      Stream([m] + r.messages, r.rest)
  }

  /** Decoding what was left over together with what arrives next is as good as decoding it all at once. */
  lemma {:induction false} DecodeSplit(a: seq<byte>, b: seq<byte>)
    ensures var first := DecodeAll(a);
      var then_ := DecodeAll(first.rest + b);
      DecodeAll(a + b) == Stream(first.messages + then_.messages, then_.rest)
    decreases |a|
  {
    hide Decode, DecodeAll;
    DecodeMore(a, b);
    DecodeUnfold(a);
    if Decode(a).Complete? {
      var m, n := Decode(a).message, Decode(a).size;
      CompleteSize(a);
      DecodeUnfold(a + b);
      assert (a + b)[n..] == a[n..] + b;
      DecodeSplit(a[n..], b);
      var first := DecodeAll(a[n..]);
      var then_ := DecodeAll(first.rest + b);
      assert [m] + (first.messages + then_.messages) == [m] + first.messages + then_.messages;
    } else {
      var then_ := DecodeAll(a + b);
      assert [] + then_.messages == then_.messages;
    }
  }

  lemma DecodeUnfold(s: seq<byte>)
    ensures Decode(s).Partial? ==> DecodeAll(s) == Stream([], s)
    ensures Decode(s).Complete? ==>
      && Decode(s).size <= |s|
      && var r := DecodeAll(s[Decode(s).size..]);
         DecodeAll(s) == Stream([Decode(s).message] + r.messages, r.rest)
  {
    hide Decode;
    if Decode(s).Complete? {
      CompleteSize(s);
    }
  }

  lemma CompleteSize(s: seq<byte>)
    requires Decode(s).Complete?
    ensures 2 <= Decode(s).size <= |s|
  {
    hide BigEndian, Masked;
  }

  // ---------- frames in, messages out ----------

  lemma LengthFits(n: nat)
    requires n < LENGTH_LIMIT
    ensures n < 65536 ==> n < Power256(2)
    ensures BigEndian(LengthOctets(n)) == if n < 126 then 0 else n
  {
    assert Power256(2) == 65536;
    if 126 <= n < 65536 {
      BigEndianRoundTrip(n, 2);
    } else if n >= 65536 {
      BigEndianRoundTrip(n, 8);
    }
  }

  lemma HeaderRead(f: Frame, t: seq<byte>)
    requires IsFrame(f)
    ensures var s := FrameHeader(f) + t;
      && HasLength(s) && FixedSize(s[1] % 128) == |FrameHeader(f)| && DeclaredLength(s) == |f.payload|
      && s[0] % 16 == f.opcode && (s[1] >= 128 <==> f.key.Some?)
  {
    hide BigEndian, ToBigEndian;
    var s, n := FrameHeader(f) + t, |f.payload|;
    LengthFits(n);
    assert s[1] % 128 == LengthCode(n);
    assert s[2..|FrameHeader(f)|] == LengthOctets(n);
  }

  /** A frame is read back, whatever follows it and whichever length encoding and mask it uses. */
  lemma FrameRoundTrip(f: Frame, t: seq<byte>)
    requires IsFrame(f)
    ensures Decode(Encode(f) + t) == Complete(Message(f.opcode, f.payload), |Encode(f)|)
  {
    hide FrameHeader, HasLength, DeclaredLength, FixedSize, Masked;
    var h := FrameHeader(f);
    match f.key {
      case None =>
        assert Encode(f) + t == h + (f.payload + t);
        HeaderRead(f, f.payload + t);
        assert (h + (f.payload + t))[|h|..|h| + |f.payload|] == f.payload;
      case Some(key) =>
        var body := Masked(f.payload, key);
        assert Encode(f) + t == h + (key + body + t);
        HeaderRead(f, key + body + t);
        var s := h + (key + body + t);
        assert s[|h|..|h| + 4] == key;
        assert s[|h| + 4..|h| + 4 + |body|] == body;
        MaskedTwice(f.payload, key);
    }
  }

  lemma {:induction false} BigEndianInverse(s: seq<byte>)
    ensures ToBigEndian(BigEndian(s), |s|) == s
    decreases |s|
  {
    if s != [] {
      BigEndianInverse(s[..|s| - 1]);
      assert s == s[..|s| - 1] + [s[|s| - 1]];
    }
  }

  /** The octets of a frame are those of its encoding and no others. */
  lemma OctetsEncoded(s: seq<byte>, f: Frame)
    requires IsFrame(f) && FrameOctets(s, f)
    ensures s == Encode(f)
  {
    hide BigEndian, ToBigEndian, Xor;
    var n, at := |f.payload|, if |f.payload| < 126 then 2 else if |f.payload| < 65536 then 4 else 10;
    var number := s[2..at];
    BigEndianWorth(number);
    BigEndianInverse(number);
    assert number == LengthOctets(n);
    assert s[..at] == FrameHeader(f);
    match f.key {
      case None =>
      case Some(key) => assert s[at + 4..] == Masked(f.payload, key);
    }
  }

  /** What the octets of a frame, read one by one, are decoded to, whatever follows them. */
  lemma OctetsDecoded(s: seq<byte>, f: Frame, t: seq<byte>)
    requires IsFrame(f) && FrameOctets(s, f)
    ensures Decode(s + t) == Complete(Message(f.opcode, f.payload), |s|)
  {
    hide Decode, Encode, IsFrame, FrameOctets;
    OctetsEncoded(s, f);
    FrameRoundTrip(f, t);
  }

  function EncodeFrames(fs: seq<Frame>): seq<byte>
    requires forall i :: 0 <= i < |fs| ==> IsFrame(fs[i])
  {
    if fs == [] then [] else Encode(fs[0]) + EncodeFrames(fs[1..])
  }

  function MessagesOf(fs: seq<Frame>): seq<Message> {
    if fs == [] then [] else [Message(fs[0].opcode, fs[0].payload)] + MessagesOf(fs[1..])
  }

  /** Any concatenation of frames, followed by an incomplete one, is decoded to its messages in order. */
  lemma {:induction false} FramesRoundTrip(fs: seq<Frame>, tail: seq<byte>)
    requires forall i :: 0 <= i < |fs| ==> IsFrame(fs[i])
    requires Decode(tail).Partial?
    ensures DecodeAll(EncodeFrames(fs) + tail) == Stream(MessagesOf(fs), tail)
    decreases |fs|
  {
    hide Encode, IsFrame, Decode;
    if fs == [] {
      assert [] + tail == tail;
    } else {
      var more := EncodeFrames(fs[1..]) + tail;
      assert EncodeFrames(fs) + tail == Encode(fs[0]) + more;
      FrameRoundTrip(fs[0], more);
      assert (Encode(fs[0]) + more)[|Encode(fs[0])|..] == more;
      FramesRoundTrip(fs[1..], tail);
    }
  }
}
