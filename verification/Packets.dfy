/** Datagram headers and the split of a message into datagrams. */
module Packets {
  import opened Wrappers

  type byte = b: int | 0 <= b < 256

  const HEADER_SIZE: nat := 19
  const PACKET_SIZE: nat := 75
  const PAYLOAD_PER_PACKET: nat := 56

  datatype Interpretation = Message | Signal

  datatype Header = Header(
    msgId: nat, seqNum: nat, maxSeqNum: nat, msgSize: nat, destSize: nat, intp: Interpretation)

  predicate InRange(h: Header) {
    && h.msgId < 0x1_0000_0000_0000_0000 && h.msgSize < 0x1_0000_0000
    && h.seqNum < 0x1_0000 && h.maxSeqNum < 0x1_0000 && h.destSize < 0x1_0000
  }

  /** What `try_from` insists on beyond the field widths. */
  predicate WellFormed(h: Header) {
    InRange(h) && h.seqNum <= h.maxSeqNum && h.destSize > 0
  }

  function BigEndian(x: nat, n: nat): (bytes: seq<byte>)
    ensures |bytes| == n
  {
    if n == 0 then [] else BigEndian(x / 256, n - 1) + [x % 256]
  }

  function FromBigEndian(bytes: seq<byte>): nat {
    if bytes == [] then 0 else FromBigEndian(bytes[..|bytes| - 1]) * 256 + bytes[|bytes| - 1]
  }

  function Pow256(n: nat): nat {
    if n == 0 then 1 else 256 * Pow256(n - 1)
  }

  lemma {:induction false} DecodeEncode(x: nat, n: nat)
    requires x < Pow256(n)
    ensures FromBigEndian(BigEndian(x, n)) == x
  {
    if n > 0 {
      DecodeEncode(x / 256, n - 1);
      assert BigEndian(x, n)[..n - 1] == BigEndian(x / 256, n - 1);
    }
  }

  lemma {:induction false} EncodeDecode(bytes: seq<byte>)
    ensures BigEndian(FromBigEndian(bytes), |bytes|) == bytes
    ensures FromBigEndian(bytes) < Pow256(|bytes|)
  {
    if bytes != [] {
      var init := bytes[..|bytes| - 1];
      var last := bytes[|bytes| - 1];
      EncodeDecode(init);
      assert FromBigEndian(bytes) / 256 == FromBigEndian(init) && FromBigEndian(bytes) % 256 == last;
      assert bytes == init + [last];
    }
  }

  function IntpByte(intp: Interpretation): byte {
    match intp case Message => 0 case Signal => 1
  }

  /** The wire format: 8 + 2 + 2 + 4 + 2 + 1 bytes, big endian. */
  function Encode(h: Header): (bytes: seq<byte>)
    ensures |bytes| == HEADER_SIZE
  {
    BigEndian(h.msgId, 8) + BigEndian(h.seqNum, 2) + BigEndian(h.maxSeqNum, 2) + BigEndian(h.msgSize, 4)
    + BigEndian(h.destSize, 2) + [IntpByte(h.intp)]
  }

  lemma Powers()
    ensures Pow256(2) == 0x1_0000 && Pow256(4) == 0x1_0000_0000 && Pow256(8) == 0x1_0000_0000_0000_0000
  {
  }

  lemma Bytes2(x: nat)
    requires x < 0x1_0000
    ensures BigEndian(x, 2) == [x / 0x100 % 256, x % 256]
  {
  }

  lemma Bytes4(x: nat)
    requires x < 0x1_0000_0000
    ensures BigEndian(x, 4) == [x / 0x100_0000 % 256, x / 0x1_0000 % 256, x / 0x100 % 256, x % 256]
  {
    Bytes2(x / 0x1_0000);
    assert BigEndian(x / 256, 3) == BigEndian(x / 256 / 256, 2) + [x / 256 % 256];
    assert x / 256 / 256 == x / 0x1_0000 && x / 0x1_0000 / 0x100 == x / 0x100_0000;
  }

  lemma Bytes8(x: nat)
    requires x < 0x1_0000_0000_0000_0000
    ensures BigEndian(x, 8) == [x / 0x100_0000_0000_0000 % 256, x / 0x1_0000_0000_0000 % 256,
                                x / 0x100_0000_0000 % 256, x / 0x1_0000_0000 % 256,
                                x / 0x100_0000 % 256, x / 0x1_0000 % 256, x / 0x100 % 256, x % 256]
  {
    var y := x / 0x1_0000_0000;
    Bytes4(y);
    assert BigEndian(x, 8) == BigEndian(x / 256, 7) + [x % 256];
    assert BigEndian(x / 256, 7) == BigEndian(x / 256 / 256, 6) + [x / 256 % 256];
    assert BigEndian(x / 256 / 256, 6) == BigEndian(x / 256 / 256 / 256, 5) + [x / 256 / 256 % 256];
    assert BigEndian(x / 256 / 256 / 256, 5) == BigEndian(y, 4) + [x / 256 / 256 / 256 % 256];
    assert x / 256 / 256 == x / 0x1_0000 && x / 256 / 256 / 256 == x / 0x100_0000;
    assert y / 0x100 == x / 0x100_0000_0000 && y / 0x1_0000 == x / 0x1_0000_0000_0000;
    assert y / 0x100_0000 == x / 0x100_0000_0000_0000;
  }

  lemma Value2(bytes: seq<byte>)
    requires |bytes| == 2
    ensures FromBigEndian(bytes) == bytes[0] as int * 0x100 + bytes[1]
  {
    assert FromBigEndian(bytes[..1]) == FromBigEndian(bytes[..1][..0]) * 256 + bytes[0];
  }

  lemma Value4(bytes: seq<byte>)
    requires |bytes| == 4
    ensures FromBigEndian(bytes)
            == bytes[0] as int * 0x100_0000 + bytes[1] as int * 0x1_0000 + bytes[2] as int * 0x100 + bytes[3]
  {
    var b3 := bytes[..3];
    assert b3[..2] == bytes[..2];
    Value2(bytes[..2]);
    assert FromBigEndian(b3) == FromBigEndian(bytes[..2]) * 256 + bytes[2];
  }

  lemma Value8(bytes: seq<byte>)
    requires |bytes| == 8
    ensures FromBigEndian(bytes)
            == bytes[0] as int * 0x100_0000_0000_0000 + bytes[1] as int * 0x1_0000_0000_0000
               + bytes[2] as int * 0x100_0000_0000 + bytes[3] as int * 0x1_0000_0000
               + bytes[4] as int * 0x100_0000 + bytes[5] as int * 0x1_0000 + bytes[6] as int * 0x100 + bytes[7]
  {
    Value4(bytes[..4]);
    var b5, b6, b7 := bytes[..5], bytes[..6], bytes[..7];
    assert b5[..4] == bytes[..4] && b6[..5] == b5 && b7[..6] == b6;
    assert FromBigEndian(b5) == FromBigEndian(bytes[..4]) * 256 + bytes[4];
    assert FromBigEndian(b6) == FromBigEndian(b5) * 256 + bytes[5];
    assert FromBigEndian(b7) == FromBigEndian(b6) * 256 + bytes[6];
  }

  /** Each byte of an encoded header has its weight, the first one the most. */
  lemma EncodedBytes(h: Header)
    requires InRange(h)
    ensures var e := Encode(h);
            && h.msgId == e[0] as int * 0x100_0000_0000_0000 + e[1] as int * 0x1_0000_0000_0000
                          + e[2] as int * 0x100_0000_0000 + e[3] as int * 0x1_0000_0000
                          + e[4] as int * 0x100_0000 + e[5] as int * 0x1_0000 + e[6] as int * 0x100 + e[7]
            && h.seqNum == e[8] as int * 0x100 + e[9]
            && h.maxSeqNum == e[10] as int * 0x100 + e[11]
            && h.msgSize == e[12] as int * 0x100_0000 + e[13] as int * 0x1_0000 + e[14] as int * 0x100 + e[15]
            && h.destSize == e[16] as int * 0x100 + e[17]
            && e[18] == if h.intp.Message? then 0 else 1
  {
    var e := Encode(h);
    Powers();
    Fields(h);
    DecodeEncode(h.msgId, 8);
    DecodeEncode(h.seqNum, 2);
    DecodeEncode(h.maxSeqNum, 2);
    DecodeEncode(h.msgSize, 4);
    DecodeEncode(h.destSize, 2);
    hide Encode, BigEndian, FromBigEndian;
    Value8(e[0..8]);
    Value2(e[8..10]);
    Value2(e[10..12]);
    Value4(e[12..16]);
    Value2(e[16..18]);
  }

  /** `DatagramHeader::put`, which panics on a buffer of any other size. */
  method Put(h: Header, buf: array<byte>)
    requires InRange(h) && buf.Length == HEADER_SIZE
    modifies buf
    ensures buf[..] == Encode(h)
    ensures h.msgId
            == buf[0] as int * 0x100_0000_0000_0000 + buf[1] as int * 0x1_0000_0000_0000
               + buf[2] as int * 0x100_0000_0000 + buf[3] as int * 0x1_0000_0000
               + buf[4] as int * 0x100_0000 + buf[5] as int * 0x1_0000 + buf[6] as int * 0x100 + buf[7]
    ensures h.seqNum == buf[8] as int * 0x100 + buf[9]
    ensures h.maxSeqNum == buf[10] as int * 0x100 + buf[11]
    ensures h.msgSize
            == buf[12] as int * 0x100_0000 + buf[13] as int * 0x1_0000 + buf[14] as int * 0x100 + buf[15]
    ensures h.destSize == buf[16] as int * 0x100 + buf[17]
    ensures buf[18] == if h.intp.Message? then 0 else 1
  {
    EncodedBytes(h);
    Bytes8(h.msgId);
    Bytes2(h.seqNum);
    Bytes2(h.maxSeqNum);
    Bytes4(h.msgSize);
    Bytes2(h.destSize);
    buf[0] := h.msgId / 0x100_0000_0000_0000 % 256;
    buf[1] := h.msgId / 0x1_0000_0000_0000 % 256;
    buf[2] := h.msgId / 0x100_0000_0000 % 256;
    buf[3] := h.msgId / 0x1_0000_0000 % 256;
    buf[4] := h.msgId / 0x100_0000 % 256;
    buf[5] := h.msgId / 0x1_0000 % 256;
    buf[6] := h.msgId / 0x100 % 256;
    buf[7] := h.msgId % 256;
    buf[8] := h.seqNum / 0x100 % 256;
    buf[9] := h.seqNum % 256;
    buf[10] := h.maxSeqNum / 0x100 % 256;
    buf[11] := h.maxSeqNum % 256;
    buf[12] := h.msgSize / 0x100_0000 % 256;
    buf[13] := h.msgSize / 0x1_0000 % 256;
    buf[14] := h.msgSize / 0x100 % 256;
    buf[15] := h.msgSize % 256;
    buf[16] := h.destSize / 0x100 % 256;
    buf[17] := h.destSize % 256;
    buf[18] := IntpByte(h.intp);
  }

  /** The header a buffer denotes, or None for a wrong length, an unknown interpretation byte, a sequence number
      beyond the maximum, or an empty destination. */
  function Parse(buf: seq<byte>): Option<Header> {
    if |buf| != HEADER_SIZE || buf[18] > 1 then None else
      var h := Header(
        FromBigEndian(buf[0..8]), FromBigEndian(buf[8..10]), FromBigEndian(buf[10..12]),
        FromBigEndian(buf[12..16]), FromBigEndian(buf[16..18]), if buf[18] == 0 then Message else Signal);
      if h.seqNum > h.maxSeqNum || h.destSize == 0 then None else Some(h)
  }

  /** `DatagramHeader::try_from`: the shifted bytes occupy disjoint bits, so or-ing them into a field adds them. */
  method TryFrom(buf: array<byte>) returns (r: Option<Header>)
    ensures r == Parse(buf[..])
    ensures r.Some? <==>
              && buf.Length == HEADER_SIZE && buf[18] <= 1
              && buf[8] as int * 0x100 + buf[9] <= buf[10] as int * 0x100 + buf[11]
              && (buf[16] != 0 || buf[17] != 0)
    ensures r.Some? ==>
              && r.value.msgId
                 == buf[0] as int * 0x100_0000_0000_0000 + buf[1] as int * 0x1_0000_0000_0000
                    + buf[2] as int * 0x100_0000_0000 + buf[3] as int * 0x1_0000_0000
                    + buf[4] as int * 0x100_0000 + buf[5] as int * 0x1_0000 + buf[6] as int * 0x100 + buf[7]
              && r.value.seqNum == buf[8] as int * 0x100 + buf[9]
              && r.value.maxSeqNum == buf[10] as int * 0x100 + buf[11]
              && r.value.msgSize
                 == buf[12] as int * 0x100_0000 + buf[13] as int * 0x1_0000 + buf[14] as int * 0x100 + buf[15]
              && r.value.destSize == buf[16] as int * 0x100 + buf[17]
              && (r.value.intp.Message? <==> buf[18] == 0) && (r.value.intp.Signal? <==> buf[18] == 1)
  {
    if buf.Length != HEADER_SIZE {
      return None;
    }
    var intp;
    match buf[18] {
      case 0 => intp := Message;
      case 1 => intp := Signal;
      case _ => return None;
    }
    var msgId: int := buf[0] as int * 0x100_0000_0000_0000;
    msgId := msgId + buf[1] as int * 0x1_0000_0000_0000;
    msgId := msgId + buf[2] as int * 0x100_0000_0000;
    msgId := msgId + buf[3] as int * 0x1_0000_0000;
    msgId := msgId + buf[4] as int * 0x100_0000;
    msgId := msgId + buf[5] as int * 0x1_0000;
    msgId := msgId + buf[6] as int * 0x100;
    msgId := msgId + buf[7];
    var seqNum: int := buf[8] as int * 0x100;
    seqNum := seqNum + buf[9];
    var maxSeqNum: int := buf[10] as int * 0x100;
    maxSeqNum := maxSeqNum + buf[11];
    var msgSize: int := buf[12] as int * 0x100_0000;
    msgSize := msgSize + buf[13] as int * 0x1_0000;
    msgSize := msgSize + buf[14] as int * 0x100;
    msgSize := msgSize + buf[15];
    var destSize: int := buf[16] as int * 0x100;
    destSize := destSize + buf[17];
    Value8(buf[..][0..8]);
    Value2(buf[..][8..10]);
    Value2(buf[..][10..12]);
    Value4(buf[..][12..16]);
    Value2(buf[..][16..18]);
    if seqNum > maxSeqNum || destSize == 0 {
      return None;
    }
    r := Some(Header(msgId, seqNum, maxSeqNum, msgSize, destSize, intp));
  }

  /** Every accepted buffer is the encoding of what it parses to. */
  lemma ParseThenPut(buf: seq<byte>)
    requires Parse(buf).Some?
    ensures WellFormed(Parse(buf).value) && Encode(Parse(buf).value) == buf
  {
    Powers();
    EncodeDecode(buf[0..8]);
    EncodeDecode(buf[8..10]);
    EncodeDecode(buf[10..12]);
    EncodeDecode(buf[12..16]);
    EncodeDecode(buf[16..18]);
    assert buf == buf[0..8] + buf[8..10] + buf[10..12] + buf[12..16] + buf[16..18] + [buf[18]];
  }

  lemma Fields(h: Header)
    ensures var e := Encode(h);
            && e[0..8] == BigEndian(h.msgId, 8) && e[8..10] == BigEndian(h.seqNum, 2)
            && e[10..12] == BigEndian(h.maxSeqNum, 2) && e[12..16] == BigEndian(h.msgSize, 4)
            && e[16..18] == BigEndian(h.destSize, 2) && e[18] == IntpByte(h.intp)
  {
  }

  /** A header survives the wire exactly when it is well formed: a sequence number beyond the maximum or an
      empty destination is rejected. */
  lemma PutThenParse(h: Header)
    requires InRange(h)
    ensures Parse(Encode(h)) == if WellFormed(h) then Some(h) else None
  {
    Powers();
    Fields(h);
    DecodeEncode(h.msgId, 8);
    DecodeEncode(h.seqNum, 2);
    DecodeEncode(h.maxSeqNum, 2);
    DecodeEncode(h.msgSize, 4);
    DecodeEncode(h.destSize, 2);
  }
}
