/** ws_util: the server's frame encoder, with its hand-written length field. */
module WsUtil {
  import opened Bytes
  import opened WebSocketFrame
  import opened WebSocketParser

  const INT_MAX: nat := 0x7FFF_FFFF

  /** The size of the frame around `n` payload octets. */
  function EncodedSize(n: nat, masked: bool): nat {
    2 + |LengthOctets(n)| + (if masked then 4 else 0) + n
  }

  lemma EncodedSizeOf(f: Frame)
    requires IsFrame(f)
    ensures |Encode(f)| == EncodedSize(|f.payload|, f.key.Some?)
  {
    hide Masked, LengthOctets;
  }

  /** ws_calc_frame_size. The sum is an int: it overflows exactly if the frame is larger than one. */
  method CalcFrameSize(dataLen: nat, hasMask: bool) returns (frameSize: nat, overflow: bool)
    requires dataLen <= INT_MAX
    ensures overflow <==> EncodedSize(dataLen, hasMask) > INT_MAX
    ensures !overflow ==> frameSize == EncodedSize(dataLen, hasMask)
  {
    frameSize := 2;
    if dataLen < 126 {
      frameSize := frameSize + 0;
    } else if dataLen <= 65535 {
      frameSize := frameSize + 2;
    } else {
      frameSize := frameSize + 8;
    }
    if hasMask {
      frameSize := frameSize + 4;
    }
    overflow := frameSize > INT_MAX - dataLen;
    if !overflow {
      frameSize := frameSize + dataLen;
    }
  }

  // ---------- the eight length octets ----------

  /** What the shifts by 56, 48, 40, 24, 16, 8 and 0 put behind a zero octet. */
  function HandShifted(n: nat): (s: seq<byte>)
    ensures |s| == 8
  {
    [0, n / 0x100_0000_0000_0000 % 256, n / 0x1_0000_0000_0000 % 256, n / 0x100_0000_0000 % 256,
     n / 0x100_0000 % 256, n / 0x1_0000 % 256, n / 0x100 % 256, n % 256]
  }

  lemma FourOctets(n: nat)
    ensures ToBigEndian(n, 4) == [n / 0x100_0000 % 256, n / 0x1_0000 % 256, n / 0x100 % 256, n % 256]
  {
    assert n / 0x100 / 256 == n / 0x1_0000 && n / 0x1_0000 / 256 == n / 0x100_0000;
    assert ToBigEndian(n / 0x100_0000 / 256, 0) == [];
    assert ToBigEndian(n / 0x1_0000 / 256, 1) == [] + [n / 0x100_0000 % 256];
    assert ToBigEndian(n / 0x100 / 256, 2) == [n / 0x100_0000 % 256] + [n / 0x1_0000 % 256];
    assert ToBigEndian(n / 256, 3) == [n / 0x100_0000 % 256, n / 0x1_0000 % 256] + [n / 0x100 % 256];
  }

  lemma {:induction false} TwoHalves(n: nat, k: nat)
    ensures ToBigEndian(n, k + 4) == ToBigEndian(n / 0x1_0000_0000, k) + ToBigEndian(n, 4)
  {
    assert n / 256 / 256 / 256 / 256 == n / 0x1_0000_0000;
    assert ToBigEndian(n, k + 4) == ToBigEndian(n / 256, k + 3) + [n % 256];
    assert ToBigEndian(n / 256, k + 3) == ToBigEndian(n / 256 / 256, k + 2) + [n / 256 % 256];
    assert ToBigEndian(n / 256 / 256, k + 2) == ToBigEndian(n / 256 / 256 / 256, k + 1) + [n / 256 / 256 % 256];
    assert ToBigEndian(n / 256 / 256 / 256, k + 1)
        == ToBigEndian(n / 256 / 256 / 256 / 256, k) + [n / 256 / 256 / 256 % 256];
    FourOctets(n);
  }

  lemma TwoOctets(n: nat)
    ensures ToBigEndian(n, 2) == [n / 256 % 256, n % 256]
  {
    assert ToBigEndian(n / 256 / 256, 0) == [];
    assert ToBigEndian(n / 256, 1) == [] + [n / 256 % 256];
  }

  lemma FourZeros(n: nat)
    requires n < 0x1_0000_0000
    ensures n / 0x100_0000 % 256 == 0 && n / 0x1_0000 % 256 == 0 && n / 0x100 % 256 == 0 && n % 256 == 0 ==> n == 0
  {
    assert n / 0x1_0000 == n / 0x100 / 256 && n / 0x100_0000 == n / 0x1_0000 / 256;
  }

  lemma Limits()
    ensures LENGTH_LIMIT == 0x1_0000_0000_0000_0000
  {
    assert Power256(4) == 0x1_0000_0000;
    assert Power256(5) == 0x100_0000_0000 && Power256(6) == 0x1_0000_0000_0000 && Power256(7) == 0x100_0000_0000_0000;
  }

  /** The hand-written length field skips the shift by 32: it is the big-endian length exactly for
      lengths below 2^32, which covers every `int`. */
  lemma HandShiftedExact(n: nat)
    requires n < LENGTH_LIMIT
    ensures HandShifted(n) == ToBigEndian(n, 8) <==> n < 0x1_0000_0000
  {
    hide ToBigEndian, Power256;
    Limits();
    var high := n / 0x1_0000_0000;
    TwoHalves(n, 4);
    FourOctets(n);
    FourOctets(high);
    HighHalf(n);
    FourZeros(high);
    var big, hand := ToBigEndian(n, 8), HandShifted(n);
    assert big == [high / 0x100_0000 % 256, high / 0x1_0000 % 256, high / 0x100 % 256, high % 256,
                   n / 0x100_0000 % 256, n / 0x1_0000 % 256, n / 0x100 % 256, n % 256];
    assert hand == [0, high / 0x100_0000 % 256, high / 0x1_0000 % 256, high / 0x100 % 256,
                    n / 0x100_0000 % 256, n / 0x1_0000 % 256, n / 0x100 % 256, n % 256];
    if hand == big {
      assert hand[0] == big[0] && hand[1] == big[1] && hand[2] == big[2] && hand[3] == big[3];
    }
  }

  lemma HighHalf(n: nat)
    ensures var high := n / 0x1_0000_0000;
      && n / 0x100_0000_0000 == high / 0x100 && n / 0x1_0000_0000_0000 == high / 0x1_0000
      && n / 0x100_0000_0000_0000 == high / 0x100_0000
  {
  }

  /** The extended length, octet by octet as the encoder writes it. */
  lemma ShiftedLength(n: nat)
    requires n <= INT_MAX
    ensures 126 <= n < 65536 ==> LengthOctets(n) == [n / 256 % 256, n % 256]
    ensures n >= 65536 ==> LengthOctets(n) == HandShifted(n)
  {
    hide ToBigEndian, Power256;
    TwoOctets(n);
    Limits();
    HandShiftedExact(n);
  }

  // ---------- the encoder ----------

  function ServerFrame(data: seq<byte>, mask: seq<byte>, hasMask: bool, opcode: byte, fin: bool): Frame {
    Frame(fin, opcode % 16, if hasMask then Some(mask) else None, data)
  }

  /** The length of a long frame, shift by shift. */
  method PutShifted(out: array<byte>, at: nat, len64: nat)
    requires at + 8 <= out.Length
    modifies out
    ensures out[..at + 8] == old(out[..at]) + HandShifted(len64)
    ensures forall k :: at + 8 <= k < out.Length ==> out[k] == old(out[k])
  {
    out[at] := 0;
    out[at + 1] := len64 / 0x100_0000_0000_0000 % 256;
    out[at + 2] := len64 / 0x1_0000_0000_0000 % 256;
    out[at + 3] := len64 / 0x100_0000_0000 % 256;
    out[at + 4] := len64 / 0x100_0000 % 256;
    out[at + 5] := len64 / 0x1_0000 % 256;
    out[at + 6] := len64 / 0x100 % 256;
    out[at + 7] := len64 % 256;
    assert out[at..at + 8] == HandShifted(len64);
    assert out[..at + 8] == out[..at] + out[at..at + 8];
  }

  /** The first two octets and the length. */
  method PutServerHeader(out: array<byte>, dataLen: nat, hasMask: bool, opcode: byte, fin: bool) returns (frameLen: nat)
    requires dataLen <= INT_MAX && out.Length >= 2 + |LengthOctets(dataLen)|
    modifies out
    ensures frameLen == 2 + |LengthOctets(dataLen)|
    ensures forall k :: frameLen <= k < out.Length ==> out[k] == old(out[k])
    ensures out[..frameLen] ==
      [(if fin then 128 else 0) + opcode % 16, (if hasMask then 128 else 0) + LengthCode(dataLen)] + LengthOctets(dataLen)
  {
    hide ToBigEndian, HandShifted, Power256;
    ShiftedLength(dataLen);
    frameLen := 0;
    out[frameLen] := (if fin then 0x80 else 0) + opcode % 16;
    frameLen := frameLen + 1;
    if dataLen < 126 {
      out[frameLen] := (if hasMask then 0x80 else 0) + dataLen % 128;
      frameLen := frameLen + 1;
    } else if dataLen <= 65535 {
      out[frameLen] := (if hasMask then 0x80 else 0) + 0x7E;
      frameLen := frameLen + 1;
      out[frameLen] := dataLen / 256 % 256;
      out[frameLen + 1] := dataLen % 256;
      frameLen := frameLen + 2;
    } else {
      out[frameLen] := (if hasMask then 0x80 else 0) + 0x7F;
      frameLen := frameLen + 1;
      PutShifted(out, frameLen, dataLen);
      frameLen := frameLen + 8;
    }
  }

  /** build_ws_frame: exactly the frame, in exactly the octets that ws_calc_frame_size promised. */
  method BuildWsFrame(out: array<byte>, data: seq<byte>, dataLen: nat, mask: seq<byte>, hasMask: bool, opcode: byte, fin: bool)
    returns (frameLen: nat)
    requires dataLen <= |data| && |mask| == 4
    requires EncodedSize(dataLen, hasMask) <= INT_MAX && EncodedSize(dataLen, hasMask) <= out.Length
    modifies out
    ensures frameLen == EncodedSize(dataLen, hasMask)
    ensures forall k :: frameLen <= k < out.Length ==> out[k] == old(out[k])
    ensures var f := ServerFrame(data[..dataLen], mask, hasMask, opcode, fin);
      IsFrame(f) && out[..frameLen] == Encode(f)
    ensures FrameOctets(out[..frameLen], Frame(fin, opcode % 16, if hasMask then Some(mask) else None, data[..dataLen]))
  {
    hide LengthOctets, LengthCode, Masked, Encode, IsFrame, FrameOctets;
    frameLen := PutServerHeader(out, dataLen, hasMask, opcode, fin);
    ServerFits(data[..dataLen], mask, hasMask, opcode, fin);
    ghost var header := out[..frameLen];
    if hasMask {
      Store(out, frameLen, mask);
      frameLen := frameLen + 4;
    }
    if hasMask {
      PutMasked(out, frameLen, data[..dataLen], mask);
      assert out[..frameLen + dataLen] == header + (mask + Masked(data[..dataLen], mask));
    } else {
      Store(out, frameLen, data[..dataLen]);
      assert out[..frameLen + dataLen] == header + data[..dataLen];
    }
    frameLen := frameLen + dataLen;
    EncodeExact(ServerFrame(data[..dataLen], mask, hasMask, opcode, fin));
  }

  lemma ServerFits(data: seq<byte>, mask: seq<byte>, hasMask: bool, opcode: byte, fin: bool)
    requires |data| <= INT_MAX && |mask| == 4
    ensures var f := ServerFrame(data, mask, hasMask, opcode, fin);
      && IsFrame(f)
      && Encode(f) == [(if fin then 128 else 0) + opcode % 16, (if hasMask then 128 else 0) + LengthCode(|data|)]
                      + LengthOctets(|data|) + (if hasMask then mask + Masked(data, mask) else data)
  {
    hide Masked, LengthOctets;
    assert Power256(4) == 0x1_0000_0000;
    assert Power256(8) >= Power256(4);
  }
}
