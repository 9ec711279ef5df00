/** The WebSocketParser class: a buffering decoder that unmasks in place, and the client's encoder. */
module WebSocketParser {
  import opened Bytes
  import opened WebSocketFrame

  const MAX_FRAME_SIZE: nat := 4 * 1024 * 1024

  /** Arithmetic in `size_t`. */
  function SizeT(n: nat): nat {
    n % LENGTH_LIMIT
  }

  /** A first frame that is not there and yet passes for complete: its declared size wraps around in a `size_t`
      to one that the buffer holds, and what precedes a mask is there or wraps around as well. */
  predicate Misjudged(s: seq<byte>) {
    HasLength(s) &&
    var unmasked := FixedSize(s[1] % 128) + DeclaredLength(s);
    && 0 <= FrameSize(s) - LENGTH_LIMIT <= |s|
    && (unmasked >= LENGTH_LIMIT || |s| >= unmasked)
  }

  // ---------- byte order ----------

  /** ws_ntoh and ws_hton: swaps the two halves octet by octet; an odd length is left alone. */
  method SwapOrder(mem: array<byte>, len: byte)
    requires len <= mem.Length
    modifies mem
    ensures mem[..len] == if len % 2 == 0 then Reversed(old(mem[..len])) else old(mem[..len])
    ensures mem[len..] == old(mem[len..])
  {
    if len % 2 != 0 {
      return;
    }
    var mid := len / 2;
    for i := 0 to mid
      invariant forall k :: 0 <= k < i ==> mem[k] == old(mem[len - 1 - k]) && mem[len - 1 - k] == old(mem[k])
      invariant forall k :: i <= k < len - i ==> mem[k] == old(mem[k])
      invariant mem[len..] == old(mem[len..])
    {
      var tmp := mem[i];
      mem[i] := mem[len - i - 1];
      mem[len - i - 1] := tmp;
    }
    forall k | 0 <= k < len ensures mem[k] == old(mem[len - 1 - k]) {
      if k >= mid {
        assert mem[len - 1 - (len - 1 - k)] == old(mem[len - 1 - k]);
      }
    }
  }

  /** A big-endian number copied into a host integer and swapped. */
  method ReadNumber(s: seq<byte>) returns (n: nat)
    requires |s| == 2 || |s| == 8
    ensures n == BigEndian(s)
  {
    var mem := new byte[|s|](i requires 0 <= i < |s| => s[i]);
    assert mem[..|s|] == s;
    SwapOrder(mem, |s|);
    assert mem[..] == mem[..|s|];
    ReversedOrder(s);
    n := LittleEndian(mem[..]);
  }

  /** The memory of a host integer of `k` octets. */
  function HostOctets(n: nat, k: nat): (s: seq<byte>)
    ensures |s| == k
  {
    if k == 0 then [] else [n % 256] + HostOctets(n / 256, k - 1)
  }

  lemma {:induction false} HostReversed(n: nat, k: nat)
    ensures Reversed(HostOctets(n, k)) == ToBigEndian(n, k)
  {
    if k > 0 {
      HostReversed(n / 256, k - 1);
      var s, r := HostOctets(n, k), Reversed(HostOctets(n, k));
      assert r[..k - 1] == Reversed(s[1..]);
      assert r == r[..k - 1] + [r[k - 1]];
    }
  }

  /** A host integer swapped into network order, octet by octet. */
  method WriteNumber(n: nat, k: nat) returns (s: seq<byte>)
    requires k == 2 || k == 8
    ensures s == ToBigEndian(n, k)
  {
    var h := HostOctets(n, k);
    var mem := new byte[k](i requires 0 <= i < |h| => h[i]);
    assert mem[..k] == h;
    SwapOrder(mem, k);
    HostReversed(n, k);
    s := mem[..];
    assert s == mem[..k];
  }

  /** Where the parts of a complete first frame lie, before and after unmasking in place. */
  lemma FirstFrame(s: seq<byte>)
    requires HasLength(s) && |s| >= FrameSize(s)
    ensures var at, n, size := FixedSize(s[1] % 128), DeclaredLength(s), FrameSize(s);
      && 2 <= at
      && if s[1] >= 128 then
           && size == at + 4 + n
           && var t := s[..at + 4] + Masked(s[at + 4..at + 4 + n], s[at..at + 4]) + s[at + 4 + n..];
              t[at + 4..at + 4 + n] == Payload(s) && t[at + 4 + n..] == s[size..]
         else size == at + n && s[at..at + n] == Payload(s)
  {
    hide BigEndian, Xor;
  }

  lemma TooShort(s: seq<byte>)
    ensures HasLength(s) ==> |s| >= 2
    ensures !HasLength(s) ==> Decode(s).Partial? && !Misjudged(s)
  {
  }

  /** The tests of the buffer against the declared size, made in a `size_t`: passed by exactly the complete frames
      and the misjudged ones. */
  lemma TestsExact(s: seq<byte>)
    requires HasLength(s) && |s| < LENGTH_LIMIT
    ensures var at, n, size := FixedSize(s[1] % 128), DeclaredLength(s), FrameSize(s);
      && size == at + n + (if s[1] >= 128 then 4 else 0)
      && (|s| >= SizeT(at + n) && (s[1] >= 128 ==> |s| >= SizeT(size)) <==> |s| >= size || Misjudged(s))
      && (Misjudged(s) ==> |s| < size)
      && Decode(s) == if |s| < size then Partial else Complete(Message(s[0] % 16, Payload(s)), size)
  {
    hide BigEndian, Masked, Payload, SizeT, Power256;
    DeclaredFits(s);
    LimitIs();
    SizeTIs(FixedSize(s[1] % 128) + DeclaredLength(s));
    SizeTIs(FrameSize(s));
  }

  lemma LimitIs()
    ensures LENGTH_LIMIT == 0x1_0000_0000_0000_0000
  {
    assert Power256(4) == 0x1_0000_0000;
  }

  lemma SizeTIs(n: nat)
    requires n < 2 * LENGTH_LIMIT
    ensures SizeT(n) == if n < LENGTH_LIMIT then n else n - LENGTH_LIMIT
  {
    LimitIs();
    hide Power256;
  }

  /** For a buffer that leaves its size some room below 2^64: the misjudged frames are the ones that declare one of
      the ten largest lengths, as soon as the few octets are there that the size wraps around to. */
  lemma MisjudgedLengths(s: seq<byte>)
    requires HasLength(s) && |s| + 4 < LENGTH_LIMIT
    ensures Misjudged(s) <==>
      DeclaredLength(s) + 10 >= LENGTH_LIMIT && (s[1] >= 128 ==> DeclaredLength(s) + 14 - LENGTH_LIMIT <= |s|)
  {
    hide BigEndian, Power256;
    DeclaredFits(s);
    LimitIs();
  }

  const LARGEST: seq<byte> := [255, 255, 255, 255, 255, 255, 255, 255]

  /** Ten octets that the decoder takes for a whole frame of 2^64 + 9 octets. */
  lemma LargestMisjudged()
    ensures Misjudged([130, 127] + LARGEST) && Decode([130, 127] + LARGEST).Partial?
  {
    hide BigEndian, Power256, SizeT, Payload;
    var s := [130, 127] + LARGEST;
    assert s[2..10] == LARGEST;
    LargestLength();
    LimitIs();
    MisjudgedLengths(s);
    TestsExact(s);
  }

  lemma LargestLength()
    ensures BigEndian(LARGEST) == 0xFFFF_FFFF_FFFF_FFFF
  {
    assert LARGEST[..7][..6] == LARGEST[..6] && LARGEST[..6][..5] == LARGEST[..5] && LARGEST[..5][..4] == LARGEST[..4];
    assert LARGEST[..4][..3] == LARGEST[..3] && LARGEST[..3][..2] == LARGEST[..2] && LARGEST[..2][..1] == LARGEST[..1];
    assert BigEndian(LARGEST[..1]) == 255;
    assert BigEndian(LARGEST[..2]) == 0xFFFF;
    assert BigEndian(LARGEST[..3]) == 0xFF_FFFF;
    assert BigEndian(LARGEST[..4]) == 0xFFFF_FFFF;
    assert BigEndian(LARGEST[..5]) == 0xFF_FFFF_FFFF;
    assert BigEndian(LARGEST[..6]) == 0xFFFF_FFFF_FFFF;
    assert BigEndian(LARGEST[..7]) == 0xFF_FFFF_FFFF_FFFF;
  }

  /** Whatever follows a misjudged frame, it stays one, and is never complete. */
  lemma MisjudgedStays(s: seq<byte>, t: seq<byte>)
    requires Misjudged(s) && |s + t| < LENGTH_LIMIT
    ensures Misjudged(s + t) && DecodeAll(s + t) == Stream([], s + t)
  {
    hide BigEndian, Power256, SizeT, Payload, FixedSize, DeclaredLength;
    assert (s + t)[1] == s[1];
    DecodeMore(s, t);
    TestsExact(s + t);
  }

  /** One call of many. `said` are the messages before it. */
  lemma PieceStep(buffer: seq<byte>, pieces: seq<seq<byte>>, i: nat, said: seq<Message>)
    requires i < |pieces| && |buffer + Flatten(pieces[i..])| < LENGTH_LIMIT
    ensures var all, now, later := buffer + Flatten(pieces[i..]), DecodeAll(buffer + pieces[i]), Flatten(pieces[i + 1..]);
      && |now.rest + later| <= |all| && |buffer + pieces[i]| <= |all|
      && said + DecodeAll(all).messages == said + now.messages + DecodeAll(now.rest + later).messages
      && DecodeAll(all).rest == DecodeAll(now.rest + later).rest
      && (Misjudged(now.rest) ==> DecodeAll(all) == Stream(now.messages, now.rest + later) && Misjudged(now.rest + later))
  {
    hide Decode, Misjudged, Power256;
    var was, later := buffer + pieces[i], Flatten(pieces[i + 1..]);
    assert pieces[i..][0] == pieces[i] && pieces[i..][1..] == pieces[i + 1..];
    assert buffer + Flatten(pieces[i..]) == was + later;
    DecodeSplit(was, later);
    var now := DecodeAll(was);
    assert said + (now.messages + DecodeAll(now.rest + later).messages)
        == said + now.messages + DecodeAll(now.rest + later).messages;
    if Misjudged(now.rest) {
      MisjudgedStays(now.rest, later);
      assert now.messages + [] == now.messages;
    }
  }

  lemma NothingLeft(buffer: seq<byte>, pieces: seq<seq<byte>>, said: seq<Message>)
    requires Decode(buffer).Partial? && pieces == []
    ensures var r := DecodeAll(buffer + Flatten(pieces)); said + r.messages == said && r.rest == buffer
  {
    hide Decode;
    assert buffer + [] == buffer;
  }

  // ---------- the object ----------

  class WebSocketParser {
    /** m_buffer */
    var buffer: seq<byte>
    /** The calls made to the user's onMessage so far. */
    var messages: seq<Message>
    /** m_sendBuffer */
    var sendBuffer: array?<byte>

    constructor ()
      ensures buffer == [] && messages == [] && sendBuffer == null && Idle()
    {
      buffer, messages, sendBuffer := [], [], null;
    }

    /** The unmasking loop: `n` octets from `at` on, in place. */
    method Unmask(at: nat, n: nat, mask: seq<byte>)
      requires |mask| == 4 && at + n <= |buffer|
      modifies this`buffer
      ensures buffer == old(buffer)[..at] + Masked(old(buffer)[at..at + n], mask) + old(buffer)[at + n..]
    {
      hide Xor;
      var i := 0;
      while i < n
        invariant 0 <= i <= n && |buffer| == |old(buffer)|
        invariant forall k :: 0 <= k < i ==> buffer[at + k] == Xor(old(buffer)[at + k], mask[k % 4])
        invariant forall k :: 0 <= k < |buffer| && !(at <= k < at + i) ==> buffer[k] == old(buffer)[k]
      {
        buffer := buffer[at + i := Xor(buffer[at + i], mask[i % 4])];
        i := i + 1;
      }
      var was := old(buffer);
      forall k | 0 <= k < |buffer| ensures buffer[k] == (was[..at] + Masked(was[at..at + n], mask) + was[at + n..])[k] {
        if at <= k < at + n {
          assert buffer[at + (k - at)] == Xor(was[at + (k - at)], mask[(k - at) % 4]);
        }
      }
    }

    /** The payload is handed over, and the frame is erased from the buffer. */
    method Deliver(opcode: int, at: nat, n: nat)
      requires at + n <= |buffer|
      modifies this`buffer, this`messages
      ensures messages == old(messages) + [Message(opcode, old(buffer)[at..at + n])]
      ensures buffer == old(buffer)[at + n..]
    {
      messages := messages + [Message(opcode, buffer[at..at + n])];
      buffer := buffer[at + n..];
    }

    /** The length field: the octets before the mask and the payload length, once they are there. */
    method ReadLength() returns (known: bool, offset: nat, n: nat)
      requires |buffer| >= 2
      ensures known <==> HasLength(buffer)
      ensures known ==> offset == FixedSize(buffer[1] % 128) && n == DeclaredLength(buffer)
    {
      known, offset, n := true, 2, buffer[1] % 128;
      if buffer[1] % 128 == 126 {
        if |buffer| < 4 {
          known := false;
        } else {
          n := ReadNumber(buffer[2..4]);
          offset := 4;
        }
      } else if buffer[1] % 128 == 127 {
        if |buffer| < 10 {
          known := false;
        } else {
          n := ReadNumber(buffer[2..10]);
          offset := 10;
        }
      }
    }

    /** One round of the loop: delivers the first frame, or finds that it is not complete. `fault` is an access behind
        the end of the buffer: it happens if and only if the first frame is misjudged. */
    method FeedFrame() returns (more: bool, fault: bool)
      requires |buffer| < LENGTH_LIMIT
      modifies this`buffer, this`messages
      ensures more <==> Decode(old(buffer)).Complete?
      ensures fault <==> Misjudged(old(buffer))
      ensures if more then
                && messages == old(messages) + [Decode(old(buffer)).message]
                && buffer == old(buffer)[Decode(old(buffer)).size..] && |buffer| + 2 <= |old(buffer)|
              else messages == old(messages) && buffer == old(buffer)
    {
      hide BigEndian, Masked, FixedSize, DeclaredLength, HasLength, FrameSize, Payload, Decode, Misjudged, SizeT;
      TooShort(buffer);
      if |buffer| < 2 {
        return false, false;
      }
      var opcode, masked := buffer[0] % 16, buffer[1] >= 128;
      var known, offset, n := ReadLength();
      if known {
        TestsExact(buffer);
      }
      if !known || |buffer| < SizeT(offset + n) {
        return false, false;
      }
      if masked && |buffer| < SizeT(offset + n + 4) {
        return false, false;
      }
      if |buffer| < offset + n + (if masked then 4 else 0) {
        return false, true;
      }
      FirstFrame(buffer);
      if masked {
        var mask := buffer[offset..offset + 4];
        offset := offset + 4;
        Unmask(offset, n, mask);
      }
      Deliver(opcode, offset, n);
      return true, false;
    }

    /** feedRecvData, with onMessage set: the messages of what was left over and of the new octets. The call runs into
        an access behind the buffer if and only if what is left behind the complete frames is misjudged. */
    method FeedRecvData(data: seq<byte>) returns (len: nat, fault: bool)
      requires |buffer + data| < LENGTH_LIMIT
      modifies this`buffer, this`messages
      ensures len == |data| && (!fault ==> Idle())
      ensures fault <==> Misjudged(DecodeAll(old(buffer) + data).rest)
      ensures messages == old(messages) + DecodeAll(old(buffer) + data).messages
      ensures buffer == DecodeAll(old(buffer) + data).rest
    {
      hide Decode, Misjudged;
      len, fault := |data|, false;
      buffer := buffer + data;
      ghost var all, before := buffer, messages;
      var more := true;
      while more
        invariant |buffer| <= |all| && before <= messages
        invariant DecodeAll(all) == Stream(messages[|before|..] + DecodeAll(buffer).messages, DecodeAll(buffer).rest)
        invariant !more ==> Decode(buffer).Partial? && (fault <==> Misjudged(buffer))
        decreases |buffer|, more
      {
        ghost var was, said := buffer, messages;
        more, fault := FeedFrame();
        if more {
          assert messages[|before|..] == said[|before|..] + [Decode(was).message];
          assert said[|before|..] + ([Decode(was).message] + DecodeAll(buffer).messages)
              == messages[|before|..] + DecodeAll(buffer).messages;
        }
      }
      assert messages[|before|..] + [] == messages[|before|..];
    }

    /** Between two calls the buffer holds no complete frame, and none that passes for one. */
    ghost predicate Idle()
      reads this
    {
      Decode(buffer).Partial? && !Misjudged(buffer)
    }

    /** Any way of cutting a stream into calls delivers the same messages, leaves the same octets over and runs into
        a misjudged frame exactly when one call on the whole stream does. */
    method FeedEach(pieces: seq<seq<byte>>) returns (fault: bool)
      requires Idle() && |buffer + Flatten(pieces)| < LENGTH_LIMIT
      modifies this`buffer, this`messages
      ensures fault <==> Misjudged(DecodeAll(old(buffer) + Flatten(pieces)).rest)
      ensures messages == old(messages) + DecodeAll(old(buffer) + Flatten(pieces)).messages
      ensures !fault ==> Idle() && buffer == DecodeAll(old(buffer) + Flatten(pieces)).rest
    {
      hide Decode, Misjudged, DecodeAll, Flatten;
      ghost var all, before := buffer + Flatten(pieces), messages;
      var i := 0;
      assert pieces[0..] == pieces;
      while i < |pieces|
        invariant 0 <= i <= |pieces| && Idle()
        invariant |buffer + Flatten(pieces[i..])| <= |all| && before <= messages
        invariant var r := DecodeAll(buffer + Flatten(pieces[i..]));
          DecodeAll(all) == Stream(messages[|before|..] + r.messages, r.rest)
      {
        ghost var said := messages[|before|..];
        PieceStep(buffer, pieces, i, said);
        var len, wrong := FeedRecvData(pieces[i]);
        if wrong {
          return true;
        }
        i := i + 1;
      }
      NothingLeft(buffer, pieces[|pieces|..], messages[|before|..]);
      fault := false;
    }

    /** buildFrame: a masked frame in the send buffer, or nothing if the payload is too long. `mask` stands
        for the four random octets. The payload alone is tested against the size of the buffer: `overrun` is a write
        behind its end, for exactly the payloads that fit while their frames do not; the buffer is then full of the
        frame's beginning. */
    method BuildFrame(data: seq<byte>, opcode: byte, mask: seq<byte>) returns (built: bool, overrun: bool, sendLen: nat)
      requires |mask| == 4 && (sendBuffer != null ==> sendBuffer.Length == MAX_FRAME_SIZE)
      modifies this`sendBuffer, sendBuffer
      ensures built || overrun <==> |data| <= MAX_FRAME_SIZE
      ensures overrun <==> |data| <= MAX_FRAME_SIZE < |data| + 14
      ensures old(sendBuffer) != null || |data| > MAX_FRAME_SIZE ==> sendBuffer == old(sendBuffer)
      ensures |data| <= MAX_FRAME_SIZE ==>
        && sendBuffer != null && sendBuffer.Length == MAX_FRAME_SIZE && (old(sendBuffer) == null ==> fresh(sendBuffer))
        && IsFrame(ClientFrame(data, opcode, mask))
        && (overrun <==> |Encode(ClientFrame(data, opcode, mask))| > MAX_FRAME_SIZE)
        && if overrun then sendBuffer[..] == Encode(ClientFrame(data, opcode, mask))[..MAX_FRAME_SIZE]
           else sendLen <= sendBuffer.Length && sendBuffer[..sendLen] == Encode(ClientFrame(data, opcode, mask))
      ensures |data| <= MAX_FRAME_SIZE ==>
        && sendBuffer[0] == 128 + opcode % 16 && sendBuffer[1] >= 128
        && sendBuffer[1] % 128 == if |data| < 126 then |data| else if |data| < 65536 then 126 else 127
      ensures !(built && overrun)
      ensures built ==> FrameOctets(sendBuffer[..sendLen], Frame(true, opcode % 16, Some(mask), data))
    {
      hide FrameHeader, Masked, IsFrame, Encode, FrameOctets;
      built, overrun, sendLen := false, false, 0;
      if |data| > MAX_FRAME_SIZE {
        return;
      }
      if sendBuffer == null {
        sendBuffer := new byte[MAX_FRAME_SIZE];
      }
      var buf: array<byte> := sendBuffer;
      forall i | 0 <= i < buf.Length {
        buf[i] := 0;
      }
      overrun, sendLen := FillFrame(buf, data, opcode, mask);
      built := !overrun;
      EncodeExact(ClientFrame(data, opcode, mask));
      FirstOctets(Encode(ClientFrame(data, opcode, mask)), ClientFrame(data, opcode, mask));
    }
  }

  /** What buildFrame sends: a final, masked frame. */
  function ClientFrame(data: seq<byte>, opcode: byte, mask: seq<byte>): Frame {
    Frame(true, opcode % 16, Some(mask), data)
  }

  lemma FirstOctets(s: seq<byte>, f: Frame)
    requires FrameOctets(s, f)
    ensures |s| >= 2 && s[0] == (if f.fin then 128 else 0) + f.opcode
    ensures (s[1] >= 128 <==> f.key.Some?)
    ensures s[1] % 128 == if |f.payload| < 126 then |f.payload| else if |f.payload| < 65536 then 126 else 127
  {
  }

  lemma MaskedStart(data: seq<byte>, mask: seq<byte>, n: nat)
    requires |mask| == 4 && n <= |data|
    ensures Masked(data[..n], mask) == Masked(data, mask)[..n]
  {
    hide Xor;
  }

  lemma ClientFits(data: seq<byte>, opcode: byte, mask: seq<byte>)
    requires |data| <= MAX_FRAME_SIZE && |mask| == 4
    ensures var f := ClientFrame(data, opcode, mask);
      && |data| < LENGTH_LIMIT && IsFrame(f) && |FrameHeader(f)| <= 10 && (|data| > 65535 ==> |FrameHeader(f)| == 10)
      && FrameHeader(f) == FrameHeader(ClientFrame(data, opcode, [0, 0, 0, 0]))
      && Encode(f) == FrameHeader(f) + mask + Masked(data, mask)
  {
    hide Masked, ToBigEndian;
    assert Power256(4) == 0x1_0000_0000;
    assert Power256(8) >= Power256(4);
  }

  /** memcpy */
  method Store(buf: array<byte>, at: nat, s: seq<byte>)
    requires at + |s| <= buf.Length
    modifies buf
    ensures buf[..at + |s|] == old(buf[..at]) + s
    ensures forall k :: at + |s| <= k < buf.Length ==> buf[k] == old(buf[k])
  {
    forall i | 0 <= i < |s| {
      buf[at + i] := s[i];
    }
  }

  /** The two fixed octets and the extended length. */
  method PutHeader(buf: array<byte>, data: seq<byte>, opcode: byte) returns (offset: nat)
    requires buf.Length >= 10 && |data| < LENGTH_LIMIT
    modifies buf
    ensures var f := ClientFrame(data, opcode, [0, 0, 0, 0]);
      IsFrame(f) && offset == |FrameHeader(f)| && buf[..offset] == FrameHeader(f)
  {
    hide ToBigEndian;
    var code := if |data| > 65535 then 127 else if |data| > 125 then 126 else |data|;
    buf[0] := 128 + opcode % 16;
    buf[1] := 128 + code;
    offset := 2;
    assert buf[..2] == [128 + opcode % 16, 128 + code];
    if code == 126 {
      var length := WriteNumber(|data|, 2);
      Store(buf, offset, length);
      offset := offset + 2;
    } else if code == 127 {
      var length := WriteNumber(|data|, 8);
      Store(buf, offset, length);
      offset := offset + 8;
    }
  }

  /** The masking loop of buildFrame. */
  method PutMasked(buf: array<byte>, at: nat, data: seq<byte>, mask: seq<byte>)
    requires |mask| == 4 && at + |data| <= buf.Length
    modifies buf
    ensures buf[..at + |data|] == old(buf[..at]) + Masked(data, mask)
    ensures forall k :: at + |data| <= k < buf.Length ==> buf[k] == old(buf[k])
  {
    hide Xor;
    var i := 0;
    while i < |data|
      invariant 0 <= i <= |data| && buf[..at] == old(buf[..at])
      invariant forall k :: at + |data| <= k < buf.Length ==> buf[k] == old(buf[k])
      invariant forall k :: 0 <= k < i ==> buf[at + k] == Xor(data[k], mask[k % 4])
    {
      buf[i + at] := Xor(data[i], mask[i % 4]);
      i := i + 1;
    }
    assert buf[at..at + |data|] == Masked(data, mask);
    assert buf[..at + |data|] == buf[..at] + buf[at..at + |data|];
  }

  /** Header, mask and masked payload, as far as the buffer goes. */
  method FillFrame(buf: array<byte>, data: seq<byte>, opcode: byte, mask: seq<byte>) returns (overrun: bool, sendLen: nat)
    requires |mask| == 4 && buf.Length == MAX_FRAME_SIZE && |data| <= MAX_FRAME_SIZE
    modifies buf
    ensures var f := ClientFrame(data, opcode, mask);
      && IsFrame(f) && (overrun <==> |Encode(f)| > MAX_FRAME_SIZE) && (overrun <==> |data| + 14 > MAX_FRAME_SIZE)
      && if overrun then buf[..] == Encode(f)[..MAX_FRAME_SIZE]
         else sendLen <= buf.Length && buf[..sendLen] == Encode(f)
  {
    hide FrameHeader, Masked, IsFrame, Encode;
    ClientFits(data, opcode, mask);
    var offset := PutHeader(buf, data, opcode);
    Store(buf, offset, mask);
    offset, sendLen := offset + 4, 0;
    overrun := offset + |data| > buf.Length;
    if overrun {
      PutMasked(buf, offset, data[..buf.Length - offset], mask);
      FrameStart(data, opcode, mask, buf.Length - offset);
      assert buf[..] == buf[..buf.Length];
    } else {
      PutMasked(buf, offset, data, mask);
      sendLen := offset + |data|;
    }
  }

  lemma FrameStart(data: seq<byte>, opcode: byte, mask: seq<byte>, n: nat)
    requires |mask| == 4 && n <= |data| <= MAX_FRAME_SIZE
    ensures var f := ClientFrame(data, opcode, mask);
      IsFrame(f) && Encode(f)[..|FrameHeader(f)| + 4 + n] == FrameHeader(f) + mask + Masked(data[..n], mask)
  {
    hide FrameHeader, Masked, Encode, IsFrame;
    ClientFits(data, opcode, mask);
    MaskedStart(data, mask, n);
  }

  // ---------- frames sent, messages received ----------

  /** Whatever frames are sent, one after another and cut anywhere: a stream that fits a size_t meets the
      precondition of FeedEach, its messages are the frames' opcodes and payloads in order, and nothing is left over,
      nothing misjudged. */
  lemma FramesDelivered(fs: seq<Frame>, pieces: seq<seq<byte>>)
    requires forall i :: 0 <= i < |fs| ==> IsFrame(fs[i])
    requires |EncodeFrames(fs)| < LENGTH_LIMIT
    requires Flatten(pieces) == EncodeFrames(fs)
    ensures |[] + Flatten(pieces)| < LENGTH_LIMIT && Decode([]).Partial? && !Misjudged([])
    ensures DecodeAll([] + Flatten(pieces)) == Stream(MessagesOf(fs), [])
  {
    hide DecodeAll, Encode, IsFrame, Power256;
    TooShort([]);
    FramesRoundTrip(fs, []);
    assert EncodeFrames(fs) + [] == EncodeFrames(fs) == [] + Flatten(pieces);
  }

  // ---------- both ends together ----------

  /** A payload to be sent, with its opcode and the four random octets drawn for it. */
  datatype Outgoing = Outgoing(data: seq<byte>, opcode: byte, mask: seq<byte>)

  predicate IsOutgoing(d: Outgoing) {
    |d.mask| == 4 && |d.data| + 14 <= MAX_FRAME_SIZE
  }

  predicate Sendable(ds: seq<Outgoing>) {
    forall i :: 0 <= i < |ds| ==> IsOutgoing(ds[i])
  }

  /** The frame that buildFrame makes of a payload. */
  function FrameOf(d: Outgoing): (f: Frame)
    requires IsOutgoing(d)
    ensures IsFrame(f) && f.opcode == d.opcode % 16 && f.payload == d.data
  {
    ClientFits(d.data, d.opcode, d.mask);
    ClientFrame(d.data, d.opcode, d.mask)
  }

  function FramesOf(ds: seq<Outgoing>): (fs: seq<Frame>)
    requires Sendable(ds)
    ensures forall i :: 0 <= i < |fs| ==> IsFrame(fs[i])
  {
    hide IsFrame, IsOutgoing;
    if ds == [] then [] else [FrameOf(ds[0])] + FramesOf(ds[1..])
  }

  function SentMessages(ds: seq<Outgoing>): seq<Message> {
    if ds == [] then [] else [Message(ds[0].opcode % 16, ds[0].data)] + SentMessages(ds[1..])
  }

  lemma {:induction false} MessagesSent(ds: seq<Outgoing>)
    requires Sendable(ds)
    ensures MessagesOf(FramesOf(ds)) == SentMessages(ds)
    decreases |ds|
  {
    hide IsFrame, IsOutgoing;
    if ds != [] {
      MessagesSent(ds[1..]);
      assert FramesOf(ds)[1..] == FramesOf(ds[1..]);
    }
  }

  lemma FramesCons(f: Frame, fs: seq<Frame>)
    requires IsFrame(f) && forall i :: 0 <= i < |fs| ==> IsFrame(fs[i])
    ensures EncodeFrames([f] + fs) == Encode(f) + EncodeFrames(fs)
  {
    hide Encode, IsFrame;
    assert ([f] + fs)[1..] == fs;
  }

  lemma {:induction false} FramesSnoc(ds: seq<Outgoing>, d: Outgoing)
    requires Sendable(ds) && IsOutgoing(d)
    ensures EncodeFrames(FramesOf(ds + [d])) == EncodeFrames(FramesOf(ds)) + Encode(FrameOf(d))
    decreases |ds|
  {
    hide Encode, IsFrame, IsOutgoing, FrameOf;
    if ds == [] {
      assert ds + [d] == [d] && [d][1..] == [];
      FramesCons(FrameOf(d), []);
      assert Encode(FrameOf(d)) + [] == [] + Encode(FrameOf(d));
    } else {
      assert (ds + [d])[0] == ds[0] && (ds + [d])[1..] == ds[1..] + [d];
      FramesSnoc(ds[1..], d);
      FramesCons(FrameOf(ds[0]), FramesOf(ds[1..] + [d]));
      FramesCons(FrameOf(ds[0]), FramesOf(ds[1..]));
    }
  }

  /** The octets that a payload takes on the wire. */
  function WireSize(d: Outgoing): nat {
    (if |d.data| < 126 then 6 else if |d.data| < 65536 then 8 else 14) + |d.data|
  }

  /** One frame behind another: each is final and masked, and has its payload's octets in the place. */
  predicate OnWire(wire: seq<byte>, ds: seq<Outgoing>)
    decreases |ds|
  {
    if ds == [] then wire == []
    else
      && WireSize(ds[0]) <= |wire|
      && FrameOctets(wire[..WireSize(ds[0])], Frame(true, ds[0].opcode % 16, Some(ds[0].mask), ds[0].data))
      && wire[0] == 128 + ds[0].opcode % 16
      && OnWire(wire[WireSize(ds[0])..], ds[1..])
  }

  lemma FrameOnWire(d: Outgoing)
    requires IsOutgoing(d)
    ensures var s, f := Encode(FrameOf(d)), Frame(true, d.opcode % 16, Some(d.mask), d.data);
      FrameOctets(s, f) && |s| == WireSize(d) && |s| > 0 && s[0] == 128 + d.opcode % 16
  {
    hide Encode;
    EncodeExact(FrameOf(d));
  }

  lemma {:induction false} AllOnWire(ds: seq<Outgoing>)
    requires Sendable(ds)
    ensures OnWire(EncodeFrames(FramesOf(ds)), ds)
    decreases |ds|
  {
    hide Encode, IsFrame, IsOutgoing, FrameOctets, WireSize, FrameOf;
    if ds != [] {
      var first, rest := Encode(FrameOf(ds[0])), EncodeFrames(FramesOf(ds[1..]));
      FramesCons(FrameOf(ds[0]), FramesOf(ds[1..]));
      FrameOnWire(ds[0]);
      assert (first + rest)[..|first|] == first && (first + rest)[|first|..] == rest;
      assert (first + rest)[0] == first[0];
      AllOnWire(ds[1..]);
    }
  }

  /** The octets one end puts on the wire: buildFrame for one payload after another. */
  method SendAll(sender: WebSocketParser, ds: seq<Outgoing>) returns (wire: seq<byte>)
    requires Sendable(ds) && (sender.sendBuffer != null ==> sender.sendBuffer.Length == MAX_FRAME_SIZE)
    modifies sender`sendBuffer, sender.sendBuffer
    ensures wire == EncodeFrames(FramesOf(ds)) && OnWire(wire, ds)
  {
    hide Encode, IsFrame, FrameOctets, OnWire;
    wire := [];
    var i := 0;
    while i < |ds|
      invariant 0 <= i <= |ds| && wire == EncodeFrames(FramesOf(ds[..i]))
      invariant sender.sendBuffer == old(sender.sendBuffer) || fresh(sender.sendBuffer)
      invariant sender.sendBuffer != null ==> sender.sendBuffer.Length == MAX_FRAME_SIZE
    {
      assert IsOutgoing(ds[i]);
      var built, overrun, n := sender.BuildFrame(ds[i].data, ds[i].opcode, ds[i].mask);
      FramesSnoc(ds[..i], ds[i]);
      assert ds[..i + 1] == ds[..i] + [ds[i]];
      wire := wire + sender.sendBuffer[..n];
      i := i + 1;
    }
    assert ds[..i] == ds;
    AllOnWire(ds);
  }

  /** The pieces in which a stream arrives, by their sizes; what is left over comes last. */
  function Cut(s: seq<byte>, sizes: seq<nat>): (pieces: seq<seq<byte>>)
    ensures Flatten(pieces) == s
    decreases |sizes|
  {
    if sizes == [] || sizes[0] > |s| then FlattenOne(s); [s]
    else FlattenMore(s[..sizes[0]], Cut(s[sizes[0]..], sizes[1..])); [s[..sizes[0]]] + Cut(s[sizes[0]..], sizes[1..])
  }

  lemma FlattenOne(s: seq<byte>)
    ensures Flatten([s]) == s
  {
    assert [s][1..] == [];
  }

  lemma FlattenMore(s: seq<byte>, rest: seq<seq<byte>>)
    ensures Flatten([s] + rest) == s + Flatten(rest)
  {
    assert ([s] + rest)[1..] == rest;
  }

  /** End to end: whatever one end sends with buildFrame, the other end receives with feedRecvData, in order and
      unchanged, however the connection cuts the stream. */
  method Exchange(sender: WebSocketParser, receiver: WebSocketParser, ds: seq<Outgoing>, sizes: seq<nat>)
    requires Sendable(ds) && (sender.sendBuffer != null ==> sender.sendBuffer.Length == MAX_FRAME_SIZE)
    requires receiver.buffer == [] && |EncodeFrames(FramesOf(ds))| < LENGTH_LIMIT
    modifies sender`sendBuffer, sender.sendBuffer, receiver`buffer, receiver`messages
    ensures receiver.messages == old(receiver.messages) + SentMessages(ds) && receiver.buffer == []
  {
    hide Encode, IsFrame, Decode, Misjudged, DecodeAll, Cut, Flatten, Sendable, FramesOf, SentMessages;
    var wire := SendAll(sender, ds);
    var pieces := Cut(wire, sizes);
    MessagesSent(ds);
    FramesDelivered(FramesOf(ds), pieces);
    var fault := receiver.FeedEach(pieces);
  }

  // ---------- the frames of section 5.7 of RFC 6455 ----------

  const HELLO: seq<byte> := [0x48, 0x65, 0x6c, 0x6c, 0x6f]
  const HELLO_KEY: seq<byte> := [0x37, 0xfa, 0x21, 0x3d]
  const HELLO_FRAME: seq<byte> := [0x81, 0x85, 0x37, 0xfa, 0x21, 0x3d, 0x7f, 0x9f, 0x4d, 0x51, 0x58]

  lemma HelloMasked()
    ensures Masked(HELLO, HELLO_KEY) == [0x7f, 0x9f, 0x4d, 0x51, 0x58]
  {
    hide Xor;
    HelloXors();
    HelloXorsTwoEls();
    assert HELLO_KEY[4 % 4] == 0x37;
  }

  lemma HelloXors()
    ensures Xor(0x48, 0x37) == 0x7f && Xor(0x65, 0xfa) == 0x9f && Xor(0x6f, 0x37) == 0x58
  {
    hide Xor;
    XorPairs(0x48, 0x37);
    XorPairs(0x65, 0xfa);
    XorPairs(0x6f, 0x37);
  }

  lemma HelloXorsTwoEls()
    ensures Xor(0x6c, 0x21) == 0x4d && Xor(0x6c, 0x3d) == 0x51
  {
    hide Xor;
    XorPairs(0x6c, 0x21);
    XorPairs(0x6c, 0x3d);
  }

  lemma HelloEncoded()
    ensures var f := ClientFrame(HELLO, 1, HELLO_KEY); IsFrame(f) && Encode(f) == HELLO_FRAME
  {
    hide Masked;
    HelloMasked();
    ClientFits(HELLO, 1, HELLO_KEY);
  }

  /** The masked "Hello" of the standard is what buildFrame sends for it, and what feedRecvData takes for it. */
  method Hello(sender: WebSocketParser, receiver: WebSocketParser) returns (sent: seq<byte>)
    requires sender.sendBuffer == null && receiver.buffer == []
    modifies sender`sendBuffer, receiver`buffer, receiver`messages
    ensures sent == [0x81, 0x85, 0x37, 0xfa, 0x21, 0x3d, 0x7f, 0x9f, 0x4d, 0x51, 0x58]
    ensures receiver.buffer == []
    ensures receiver.messages == old(receiver.messages) + [Message(1, [0x48, 0x65, 0x6c, 0x6c, 0x6f])]
  {
    hide Decode, Misjudged, DecodeAll, FrameOctets, Encode, ClientFrame;
    HelloEncoded();
    var built, overrun, n := sender.BuildFrame(HELLO, 1, HELLO_KEY);
    sent := sender.sendBuffer[..n];
    HelloReceived();
    var len, fault := receiver.FeedRecvData(sent);
  }

  lemma HelloReceived()
    ensures DecodeAll([] + HELLO_FRAME) == Stream([Message(1, HELLO)], [])
  {
    hide Encode, Decode, DecodeAll;
    var f := ClientFrame(HELLO, 1, HELLO_KEY);
    HelloEncoded();
    TooShort([]);
    assert EncodeFrames([f]) == Encode(f) + EncodeFrames([f][1..]);
    assert EncodeFrames([f]) + [] == HELLO_FRAME;
    FramesRoundTrip([f], []);
    assert MessagesOf([f]) == [Message(1, HELLO)] + MessagesOf([f][1..]);
    assert [] + HELLO_FRAME == HELLO_FRAME;
  }
}
