/** Reassembly of one message inside a single buffer. */
module MessageBuilder {
  import opened Packets
  import opened UdpSerial

  /** The state of a reassembly: the buffer, and which sequence numbers have been placed in it. */
  datatype Assembly = Assembly(
    msgSize: nat, maxSeqNum: nat, intp: Interpretation, buf: seq<byte>, seen: set<nat>)
  {
    predicate Finished() {
      forall i: nat | i <= maxSeqNum :: i in seen
    }

    function Msg(): seq<byte>
      requires HEADER_SIZE + msgSize <= |buf|
    {
      buf[HEADER_SIZE..HEADER_SIZE + msgSize]
    }

    function Dest(): seq<byte>
      requires HEADER_SIZE + msgSize <= |buf|
    {
      buf[HEADER_SIZE + msgSize..]
    }
  }

  function Empty(h: Header): Assembly {
    Assembly(h.msgSize, h.maxSeqNum, h.intp, seq(h.msgSize + h.destSize + HEADER_SIZE, _ => 0), {})
  }

  /** The packet has a slot of at least a header's length. */
  predicate HasSlot(a: Assembly, seqNum: nat) {
    seqNum <= a.maxSeqNum && seqNum * PAYLOAD_PER_PACKET + HEADER_SIZE <= |a.buf|
  }

  function Min(x: nat, y: nat): nat {
    if x <= y then x else y
  }

  /** How many bytes the socket writes into the slot at `start`. */
  function Received(length: nat, start: nat, datagram: seq<byte>): nat
    requires start <= length
  {
    Min(|datagram|, Min(start + PACKET_SIZE, length) - start)
  }

  /** The payload of the datagram is put where it belongs; every other byte stays. */
  function Placed(buf: seq<byte>, start: nat, datagram: seq<byte>): seq<byte>
    requires start + HEADER_SIZE <= |buf|
  {
    var n := Received(|buf|, start, datagram);
    if n <= HEADER_SIZE then buf else
      buf[..start + HEADER_SIZE] + datagram[HEADER_SIZE..n] + buf[start + n..]
  }

  function Inserted(a: Assembly, seqNum: nat, datagram: seq<byte>): Assembly
    requires HasSlot(a, seqNum)
  {
    if seqNum in a.seen then a else
      a.(buf := Placed(a.buf, seqNum * PAYLOAD_PER_PACKET, datagram), seen := a.seen + {seqNum})
  }

  lemma PlacedByByte(was: seq<byte>, now: seq<byte>, start: nat, datagram: seq<byte>)
    requires start + HEADER_SIZE <= |was| == |now|
    requires var n := Received(|was|, start, datagram);
             forall k | 0 <= k < |now| ::
               now[k] == if start + HEADER_SIZE <= k < start + n then datagram[k - start] else was[k]
    ensures now == Placed(was, start, datagram)
  {
  }

  /** An insertion byte by byte. Slots are 75 bytes long and begin 56 bytes apart; the 19 bytes of the header, what is
      beyond the slot and what is beyond the datagram stay as they were. */
  lemma InsertedByByte(a: Assembly, seqNum: nat, datagram: seq<byte>)
    requires HasSlot(a, seqNum)
    ensures var b := Inserted(a, seqNum, datagram);
            && b.seen == a.seen + {seqNum}
            && b.msgSize == a.msgSize && b.maxSeqNum == a.maxSeqNum && b.intp == a.intp && |b.buf| == |a.buf|
            && forall k: nat | k < |a.buf| ::
                 var n := k - 56 * seqNum;
                 b.buf[k] == if seqNum !in a.seen && 19 <= n < 75 && n < |datagram| then datagram[n] else a.buf[k]
  {
  }

  // ----- what a reassembly of parcel p's datagrams holds

  predicate HoldsChunk(p: Parcel, buf: seq<byte>, i: nat)
    requires Fits(p) && i <= Top(p) && |buf| == HEADER_SIZE + |Body(p)|
  {
    buf[HEADER_SIZE + i * PAYLOAD_PER_PACKET..HEADER_SIZE + ChunkEnd(p, i)] == Chunk(p, i)
  }

  predicate Holds(p: Parcel, a: Assembly) {
    && Fits(p)
    && a.msgSize == |p.item| && a.maxSeqNum == Top(p) && a.intp == p.intp
    && |a.buf| == HEADER_SIZE + |Body(p)|
    && forall i | i in a.seen :: i <= Top(p) && HoldsChunk(p, a.buf, i)
  }

  lemma EmptyHolds(p: Parcel, i: nat)
    requires Fits(p) && i <= Top(p)
    ensures Holds(p, Empty(HeaderOf(p, i)))
  {
  }

  /** Placing packet `i` leaves every payload already placed intact, although its slot overlaps theirs. */
  lemma InsertHolds(p: Parcel, a: Assembly, i: nat)
    requires Holds(p, a) && i <= Top(p)
    ensures HasSlot(a, i) && Holds(p, Inserted(a, i, Datagram(p, i)))
  {
    var start := i * PAYLOAD_PER_PACKET;
    var d := Datagram(p, i);
    if i !in a.seen {
      var b := Inserted(a, i, d);
      assert Received(|a.buf|, start, d) == |d| == HEADER_SIZE + ChunkEnd(p, i) - start;
      assert d[HEADER_SIZE..|d|] == Chunk(p, i);
      assert HoldsChunk(p, b.buf, i);
      forall j | j in a.seen
        ensures HoldsChunk(p, b.buf, j)
      {
        assert HoldsChunk(p, a.buf, j);
        OthersStay(p, a.buf, b.buf, i, j);
      }
    }
  }

  /** Payload `j` is outside the bytes that payload `i` takes. */
  lemma OthersStay(p: Parcel, was: seq<byte>, now: seq<byte>, i: nat, j: nat)
    requires Fits(p) && i <= Top(p) && j <= Top(p) && i != j
    requires |was| == |now| == HEADER_SIZE + |Body(p)|
    requires var from, to := HEADER_SIZE + i * PAYLOAD_PER_PACKET, HEADER_SIZE + ChunkEnd(p, i);
             forall k | 0 <= k < |was| && (k < from || to <= k) :: now[k] == was[k]
    requires HoldsChunk(p, was, j)
    ensures HoldsChunk(p, now, j)
  {
  }

  /** Once every packet has been placed, in whatever order, item and destination are the sender's. */
  lemma FinishedIsWhatWasSent(p: Parcel, a: Assembly)
    requires Holds(p, a) && a.Finished()
    ensures a.Msg() == p.item && a.Dest() == p.dest && a.intp == p.intp
    ensures a.buf[19..19 + |p.item|] == p.item && a.buf[19 + |p.item|..] == p.dest
  {
    var rest := a.buf[HEADER_SIZE..];
    forall i: nat | i <= Top(p)
      ensures rest[i * PAYLOAD_PER_PACKET..ChunkEnd(p, i)] == Chunk(p, i)
    {
      assert HoldsChunk(p, a.buf, i);
    }
    ChunksCoverBody(p, rest);
    assert a.Msg() == rest[..|p.item|] && a.Dest() == rest[|p.item|..];
  }

  // ----- the builder itself

  predicate Has(b: bv8, k: nat)
    requires k < 8
  {
    b & (1 << k) != 0
  }

  lemma SetBit(b: bv8, k: nat, j: nat)
    requires k < 8 && j < 8
    ensures Has(b | (1 << k), j) <==> j == k || Has(b, j)
  {
  }

  ghost function UpTo(n: nat): (s: set<nat>)
    ensures |s| == n
    ensures forall i: nat :: i in s <==> i < n
  {
    if n == 0 then {} else UpTo(n - 1) + {n - 1}
  }

  /** Counting suffices: `n` distinct numbers below `n` are all of them. */
  lemma AllOrFewer(s: set<nat>, n: nat)
    requires forall i | i in s :: i < n
    ensures |s| == n <==> forall i: nat | i < n :: i in s
  {
    var all := UpTo(n);
    assert s <= all;
    assert |all - s| == |all| - |s|;
    assert s == all <==> forall i: nat | i < n :: i in s;
  }

  class MessageBuilder {
    const msgSize: nat
    const maxSeqNum: nat
    const intp: Interpretation
    const buf: array<byte>
    var seqsRecvd: seq<bv8>
    var numRecvd: nat
    ghost var seen: set<nat>

    ghost predicate Marked(i: nat)
      requires i / 8 < |seqsRecvd|
      reads this
    {
      Has(seqsRecvd[i / 8], i % 8)
    }

    ghost predicate Valid()
      reads this
    {
      && |seqsRecvd| == maxSeqNum / 8 + 1
      && (forall i: nat | i <= maxSeqNum :: Marked(i) <==> i in seen)
      && (forall i | i in seen :: i <= maxSeqNum)
      && numRecvd == |seen|
      && HEADER_SIZE + msgSize <= buf.Length
    }

    ghost function View(): Assembly
      reads this, buf
    {
      Assembly(msgSize, maxSeqNum, intp, buf[..], seen)
    }

    constructor (header: Header)
      ensures Valid() && fresh(buf)
      ensures View() == Empty(header)
      ensures msgSize == header.msgSize && maxSeqNum == header.maxSeqNum && intp == header.intp && seen == {}
      ensures buf.Length == header.msgSize + header.destSize + 19 && forall k | 0 <= k < buf.Length :: buf[k] == 0
    {
      msgSize := header.msgSize;
      maxSeqNum := header.maxSeqNum;
      seqsRecvd := seq(header.maxSeqNum / 8 + 1, _ => 0);
      numRecvd := 0;
      buf := new byte[header.msgSize + header.destSize + HEADER_SIZE](_ => 0);
      intp := header.intp;
      seen := {};
      new;
      assert buf[..] == Empty(header).buf;
    }

    /** Places the datagram at the front of the socket. The socket overwrites the whole slot, so the bytes under the
        header are saved before and put back after. A packet seen before changes nothing, and is not even read. */
    method Insert(header: Header, datagram: seq<byte>) returns (read: bool)
      requires Valid() && HasSlot(View(), header.seqNum)
      modifies this, buf
      ensures Valid()
      ensures View() == Inserted(old(View()), header.seqNum, datagram)
      ensures read <==> header.seqNum !in old(View()).seen
    {
      var seqNum := header.seqNum;
      assert Marked(seqNum) <==> seqNum in seen;
      if seqsRecvd[seqNum / 8] & (1 << seqNum % 8) != 0 {
        return false;
      }
      numRecvd := numRecvd + 1;
      Mark(seqNum);
      Fill(seqNum * PAYLOAD_PER_PACKET, datagram);
      read := true;
    }

    method Fill(start: nat, datagram: seq<byte>)
      requires start + HEADER_SIZE <= buf.Length
      modifies buf
      ensures buf[..] == Placed(old(buf[..]), start, datagram)
    {
      var end := Min(start + PACKET_SIZE, buf.Length);
      var headerBuf := buf[start..start + HEADER_SIZE];
      Recv(start, end, datagram);
      forall i | 0 <= i < HEADER_SIZE {
        buf[start + i] := headerBuf[i];
      }
      PlacedByByte(old(buf[..]), buf[..], start, datagram);
    }

    /** Sets the packet's bit. */
    method Mark(seqNum: nat)
      requires |seqsRecvd| == maxSeqNum / 8 + 1 && seqNum <= maxSeqNum
      requires forall i: nat | i <= maxSeqNum :: Marked(i) <==> i in seen
      modifies this`seqsRecvd, this`seen
      ensures seen == old(seen) + {seqNum} && |seqsRecvd| == old(|seqsRecvd|)
      ensures forall i: nat | i <= maxSeqNum :: Marked(i) <==> i in seen
    {
      seqsRecvd := seqsRecvd[seqNum / 8 := seqsRecvd[seqNum / 8] | (1 << seqNum % 8)];
      seen := seen + {seqNum};
      forall i: nat | i <= maxSeqNum
        ensures Marked(i) <==> i in seen
      {
        assert old(Marked(i)) <==> i in old(seen);
        if i / 8 == seqNum / 8 {
          SetBit(old(seqsRecvd[seqNum / 8]), seqNum % 8, i % 8);
        }
      }
    }

    /** Reads a datagram into a slice of the buffer, dropping what does not fit. */
    method Recv(start: nat, end: nat, datagram: seq<byte>)
      requires start <= end <= buf.Length
      modifies buf
      ensures var n := Min(|datagram|, end - start);
              forall k | 0 <= k < buf.Length ::
                buf[k] == if start <= k < start + n then datagram[k - start] else old(buf[k])
    {
      var n := Min(|datagram|, end - start);
      forall i | 0 <= i < n {
        buf[start + i] := datagram[i];
      }
    }

    /** The count tells that every packet has arrived. */
    predicate Finished()
      requires Valid()
      reads this
      ensures Finished() <==> View().Finished()
    {
      AllOrFewer(seen, maxSeqNum + 1);
      numRecvd == maxSeqNum + 1
    }

    function Dest(): (d: seq<byte>)
      requires Valid()
      reads this, buf
      ensures d == View().Dest()
    {
      buf[HEADER_SIZE + msgSize..]
    }

    function Msg(): (m: seq<byte>)
      requires Valid()
      reads this, buf
      ensures m == View().Msg()
    {
      buf[HEADER_SIZE..HEADER_SIZE + msgSize]
    }
  }
}
