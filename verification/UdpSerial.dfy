/** Cutting a serialised message and its destination into datagrams. */
module UdpSerial {
  import opened Packets

  /** What is sent: an id, the serialised item and the serialised destination. */
  datatype Parcel = Parcel(id: nat, item: seq<byte>, dest: seq<byte>, intp: Interpretation)

  function Body(p: Parcel): seq<byte> {
    p.item + p.dest
  }

  /** The highest sequence number of a message of `total` bytes. */
  function MaxSeq(total: nat): nat
    requires total > 0
  {
    (total - 1) / PAYLOAD_PER_PACKET
  }

  /** The header's fields hold the sizes without truncation, and there is a destination. */
  predicate Fits(p: Parcel) {
    && p.id < 0x1_0000_0000_0000_0000
    && |p.item| < 0x1_0000_0000 && 0 < |p.dest| < 0x1_0000
    && MaxSeq(|Body(p)|) < 0x1_0000
  }

  function Top(p: Parcel): nat
    requires Fits(p)
  {
    MaxSeq(|Body(p)|)
  }

  function HeaderOf(p: Parcel, i: nat): Header
    requires Fits(p)
  {
    Header(p.id, i, Top(p), |p.item|, |p.dest|, p.intp)
  }

  /** Where payload `i` ends in the body. */
  function ChunkEnd(p: Parcel, i: nat): (e: nat)
    requires Fits(p) && i <= Top(p)
    ensures i * PAYLOAD_PER_PACKET < e <= |Body(p)|
    ensures e == |Body(p)| || e == (i + 1) * PAYLOAD_PER_PACKET
    ensures e == |Body(p)| <==> i == Top(p) || (i + 1) * PAYLOAD_PER_PACKET == |Body(p)|
  {
    if i == Top(p) then |Body(p)| else (i + 1) * PAYLOAD_PER_PACKET
  }

  function Chunk(p: Parcel, i: nat): seq<byte>
    requires Fits(p) && i <= Top(p)
  {
    Body(p)[i * PAYLOAD_PER_PACKET..ChunkEnd(p, i)]
  }

  function Datagram(p: Parcel, i: nat): seq<byte>
    requires Fits(p) && i <= Top(p)
  {
    Encode(HeaderOf(p, i)) + Chunk(p, i)
  }

  /** A datagram byte by byte: a header of 19 bytes that numbers it from 0 and gives the sizes of the item and of the
      destination, then its share of up to 56 bytes of the item followed by the destination. */
  lemma DatagramBytes(p: Parcel, i: nat)
    requires Fits(p) && i <= Top(p)
    ensures Top(p) == (|p.item| + |p.dest| - 1) / 56
    ensures var d, rest := Datagram(p, i), |p.item| + |p.dest| - 56 * i;
            && |d| == 19 + (if rest < 56 then rest else 56)
            && p.id == d[0] as int * 0x100_0000_0000_0000 + d[1] as int * 0x1_0000_0000_0000
                       + d[2] as int * 0x100_0000_0000 + d[3] as int * 0x1_0000_0000
                       + d[4] as int * 0x100_0000 + d[5] as int * 0x1_0000 + d[6] as int * 0x100 + d[7]
            && i == d[8] as int * 0x100 + d[9]
            && Top(p) == d[10] as int * 0x100 + d[11]
            && |p.item| == d[12] as int * 0x100_0000 + d[13] as int * 0x1_0000 + d[14] as int * 0x100 + d[15]
            && |p.dest| == d[16] as int * 0x100 + d[17]
            && d[18] == (if p.intp.Message? then 0 else 1)
            && forall k: nat :: 19 <= k < |d| ==>
                 var n := 56 * i + k - 19;
                 d[k] == if n < |p.item| then p.item[n] else p.dest[n - |p.item|]
  {
    var h := HeaderOf(p, i);
    EncodedBytes(h);
    assert Datagram(p, i)[..19] == Encode(h) && Datagram(p, i)[19..] == Chunk(p, i);
    assert forall k :: 0 <= k < 19 ==> Datagram(p, i)[k] == Encode(h)[k];
    hide Encode;
  }

  /** The first `n` datagrams, one after the other. */
  function Joined(p: Parcel, n: nat): seq<byte>
    requires Fits(p) && n <= Top(p) + 1
  {
    if n == 0 then [] else Joined(p, n - 1) + Datagram(p, n - 1)
  }

  lemma {:induction false} JoinedLength(p: Parcel, n: nat)
    requires Fits(p) && n <= Top(p) + 1
    ensures |Joined(p, n)| == if n <= Top(p) then n * PACKET_SIZE else |Body(p)| + n * HEADER_SIZE
  {
    if n > 0 {
      JoinedLength(p, n - 1);
    }
  }

  /** The payloads, put together again, are the body. */
  lemma {:induction false} ChunksCoverBody(p: Parcel, buf: seq<byte>)
    requires Fits(p) && |buf| == |Body(p)|
    requires forall i: nat | i <= Top(p) :: buf[i * PAYLOAD_PER_PACKET..ChunkEnd(p, i)] == Chunk(p, i)
    ensures buf == Body(p)
  {
    forall k | 0 <= k < |buf|
      ensures buf[k] == Body(p)[k]
    {
      var i := k / PAYLOAD_PER_PACKET;
      assert i <= Top(p);
      var start := i * PAYLOAD_PER_PACKET;
      assert start <= k < ChunkEnd(p, i);
      assert buf[start..ChunkEnd(p, i)][k - start] == Chunk(p, i)[k - start];
    }
  }

  datatype UdpSerial = UdpSerial(bytes: seq<byte>) {
    predicate Carries(p: Parcel) {
      Fits(p) && bytes == Joined(p, Top(p) + 1)
    }

    function Packets(): nat
      requires |bytes| > 0
    {
      |bytes| / PACKET_SIZE - (if |bytes| % PACKET_SIZE == 0 then 1 else 0) + 1
    }

    function PayloadLen(): int
      requires |bytes| > 0
    {
      |bytes| - HEADER_SIZE * Packets()
    }

    /** One packet per sequence number, and the rest is item and destination, for every total size. */
    lemma Sizes(p: Parcel)
      requires Carries(p)
      ensures |bytes| > 0
      ensures Packets() == Top(p) + 1
      ensures PayloadLen() == |p.item| + |p.dest|
    {
      var n := Top(p);
      JoinedLength(p, n + 1);
      var rest := |Body(p)| - n * PAYLOAD_PER_PACKET;
      assert 1 <= rest <= PAYLOAD_PER_PACKET;
      assert |bytes| == n * PACKET_SIZE + (rest + HEADER_SIZE);
      if rest == PAYLOAD_PER_PACKET {
        assert |bytes| == (n + 1) * PACKET_SIZE;
      }
    }

    /** What the socket is given, one datagram at a time. */
    method Send(ghost p: Parcel) returns (sent: seq<seq<byte>>)
      requires Carries(p)
      ensures |sent| == Top(p) + 1
      ensures forall i | 0 <= i < |sent| :: sent[i] == Datagram(p, i)
    {
      Sizes(p);
      sent := [];
      var idx := 0;
      for k := 1 to Packets()
        invariant |sent| == k - 1
        invariant idx == (k - 1) * PACKET_SIZE
        invariant forall i | 0 <= i < |sent| :: sent[i] == Datagram(p, i)
      {
        var next := idx + PACKET_SIZE;
        Cut(p, k - 1);
        sent := sent + [bytes[idx..next]];
        idx := next;
      }
      JoinedLength(p, Top(p));
      assert bytes == Joined(p, Top(p)) + Datagram(p, Top(p));
      sent := sent + [bytes[idx..]];
    }
  }

  lemma {:induction false} JoinedPrefix(p: Parcel, n: nat, m: nat)
    requires Fits(p) && n <= m <= Top(p) + 1
    ensures Joined(p, n) <= Joined(p, m)
    decreases m
  {
    hide Datagram, Top;
    if n < m {
      JoinedPrefix(p, n, m - 1);
    }
  }

  /** Every packet but the last fills its slot of the joined bytes. */
  lemma Cut(p: Parcel, i: nat)
    requires Fits(p) && i < Top(p)
    ensures (i + 1) * PACKET_SIZE <= |Joined(p, Top(p) + 1)|
    ensures Joined(p, Top(p) + 1)[i * PACKET_SIZE..(i + 1) * PACKET_SIZE] == Datagram(p, i)
  {
    hide Datagram;
    JoinedLength(p, i);
    JoinedLength(p, i + 1);
    JoinedPrefix(p, i + 1, Top(p) + 1);
    assert Joined(p, i + 1)[i * PACKET_SIZE..] == Datagram(p, i);
  }

  /** Where the datagrams are in the joined bytes. */
  lemma Slices(p: Parcel, i: nat)
    requires Fits(p) && i <= Top(p)
    ensures var bytes := Joined(p, Top(p) + 1);
            && |bytes| == |p.item| + |p.dest| + 19 * (Top(p) + 1)
            && 75 * i <= |bytes|
            && Datagram(p, i) == bytes[75 * i..if i < Top(p) then 75 * i + 75 else |bytes|]
  {
    hide Datagram;
    JoinedLength(p, i);
    JoinedLength(p, Top(p) + 1);
    if i < Top(p) {
      Cut(p, i);
    } else {
      assert Joined(p, i + 1) == Joined(p, i) + Datagram(p, i);
    }
  }

  lemma JoinNext(p: Parcel, n: nat)
    requires Fits(p) && n <= Top(p)
    ensures Joined(p, n + 1) == Joined(p, n) + Encode(HeaderOf(p, n)) + Chunk(p, n)
  {
  }

  /** Builds the whole byte string, header by header. */
  method New(p: Parcel) returns (u: UdpSerial)
    requires Fits(p)
    ensures u.Carries(p)
  {
    hide Encode, Joined, Datagram;
    JoinNext(p, Top(p));
    assert Joined(p, 0) == [] by { JoinedLength(p, 0); }
    var total := |p.item| + |p.dest|;
    var maxSeqNum := (total - 1) / PAYLOAD_PER_PACKET;
    var buf: seq<byte> := [];
    var header := Header(p.id, 0, maxSeqNum, |p.item|, |p.dest|, p.intp);
    var item := p.item + p.dest;
    var idx := 0;
    var headerBuf := new byte[HEADER_SIZE](_ => 0);
    for k := 0 to maxSeqNum
      invariant header == HeaderOf(p, k)
      invariant idx == k * PAYLOAD_PER_PACKET
      invariant buf == Joined(p, k)
    {
      Put(header, headerBuf);
      buf := buf + headerBuf[..];
      buf := buf + item[idx..idx + PAYLOAD_PER_PACKET];
      idx := idx + PAYLOAD_PER_PACKET;
      header := header.(seqNum := header.seqNum + 1);
      JoinNext(p, k);
    }
    Put(header, headerBuf);
    buf := buf + headerBuf[..];
    buf := buf + item[idx..];
    u := UdpSerial(buf);
  }
}
