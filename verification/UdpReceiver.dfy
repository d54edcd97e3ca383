/** The receiver's table of unfinished messages. */
module UdpReceiver {
  import opened Packets
  import opened Wrappers
  import MB = MessageBuilder

  type Table = map<nat, MB.Assembly>

  datatype Effect = Effect(table: Table, forwarded: Option<MB.Assembly>)

  /** The reassembly a datagram is put into. One-packet messages never enter the table. */
  function Target(table: Table, h: Header): MB.Assembly {
    if h.maxSeqNum != 0 && h.msgId in table then table[h.msgId] else MB.Empty(h)
  }

  /** The datagram's slot exists, so that slicing the buffer does not panic. */
  predicate Accepts(table: Table, datagram: seq<byte>) {
    && HEADER_SIZE <= |datagram|
    && var h := Parse(datagram[..HEADER_SIZE]);
       h.Some? ==> MB.HasSlot(Target(table, h.value), h.value.seqNum)
  }

  function Arrived(table: Table, datagram: seq<byte>): Effect
    requires Accepts(table, datagram)
  {
    match Parse(datagram[..HEADER_SIZE])
    case None => Effect(table, None)
    case Some(h) =>
      var a := MB.Inserted(Target(table, h), h.seqNum, datagram);
      if h.maxSeqNum == 0 then Effect(table, Some(a))
      else if h.msgId in table && a.Finished() then Effect(table - {h.msgId}, Some(a))
      else Effect(table[h.msgId := a], None)
  }

  /** What arrives, case by case: no header, a message of one packet, a first packet, a further one. */
  lemma ArrivedMeans(table: Table, datagram: seq<byte>)
    requires Accepts(table, datagram)
    ensures var header, effect := Parse(datagram[..19]), Arrived(table, datagram);
            if header.None? then effect.table == table && effect.forwarded.None? else
              var h := header.value;
              if h.maxSeqNum == 0 then
                && effect.table == table && effect.forwarded.Some?
                && var a := effect.forwarded.value;
                   && a.seen == {h.seqNum} && a.maxSeqNum == 0 && a.intp == h.intp
                   && a.msgSize == h.msgSize && |a.buf| == h.msgSize + h.destSize + 19
              else if h.msgId !in table then
                && effect.forwarded.None? && effect.table.Keys == table.Keys + {h.msgId}
                && (forall id :: id in table ==> effect.table[id] == table[id])
                && var a := effect.table[h.msgId];
                   && a.seen == {h.seqNum} && a.maxSeqNum == h.maxSeqNum && a.intp == h.intp
                   && a.msgSize == h.msgSize && |a.buf| == h.msgSize + h.destSize + 19
              else
                && (forall id :: id != h.msgId ==> (id in effect.table <==> id in table)
                                                   && (id in table ==> effect.table[id] == table[id]))
                && (effect.forwarded.Some? <==> h.msgId !in effect.table)
                && var a := if effect.forwarded.Some? then effect.forwarded.value else effect.table[h.msgId];
                   && a.seen == table[h.msgId].seen + {h.seqNum} && |a.buf| == |table[h.msgId].buf|
                   && a.maxSeqNum == table[h.msgId].maxSeqNum && a.msgSize == table[h.msgId].msgSize
                   && (effect.forwarded.Some? <==> forall i: nat :: i <= a.maxSeqNum ==> i in a.seen)
  {
    hide Parse;
    var header := Parse(datagram[..19]);
    if header.Some? {
      MB.InsertedByByte(Target(table, header.value), header.value.seqNum, datagram);
    }
    hide MB.Inserted;
  }

  /** The front datagram is a packet that its reassembly has already. */
  predicate IsRepeat(table: Table, datagram: seq<byte>)
    requires HEADER_SIZE <= |datagram|
  {
    var h := Parse(datagram[..HEADER_SIZE]);
    h.Some? && h.value.seqNum in Target(table, h.value).seen
  }

  datatype Turn = Turn(effect: Effect, socket: seq<seq<byte>>)

  /** One turn of the loop: it peeks the front datagram, and takes it off the socket unless it is a repeat. */
  function Turned(table: Table, socket: seq<seq<byte>>): Turn
    requires socket != [] && Accepts(table, socket[0])
  {
    Turn(Arrived(table, socket[0]), if IsRepeat(table, socket[0]) then socket else socket[1..])
  }

  class UdpReceiver {
    var socket: seq<seq<byte>>
    var recvd: map<nat, MB.MessageBuilder>
    /** What the builders hold. */
    ghost var table: Table
    /** The builders and their buffers. */
    ghost var repr: set<object>

    ghost predicate Builds(id: nat)
      requires id in recvd && id in table
      reads this, recvd[id], recvd[id].buf
    {
      recvd[id].Valid() && recvd[id].View() == table[id]
    }

    /** No two builders share state. */
    ghost predicate Apart()
      reads this
    {
      && this !in repr
      && (forall i | i in recvd :: recvd[i] in repr && recvd[i].buf in repr)
      && (forall i, j | i in recvd && j in recvd && i != j :: recvd[i] != recvd[j] && recvd[i].buf != recvd[j].buf)
    }

    ghost predicate Valid()
      reads this, repr
    {
      && Apart()
      && recvd.Keys == table.Keys
      && forall id | id in recvd :: Builds(id)
    }

    constructor ()
      ensures Valid() && table == map[] && repr == {} && socket == []
    {
      socket := [];
      recvd := map[];
      table := map[];
      repr := {};
    }

    /** One turn of the loop, with a datagram waiting. */
    method TakeTurn() returns (forwarded: Option<MB.MessageBuilder>)
      requires Valid() && socket != [] && Accepts(table, socket[0])
      modifies this, repr
      ensures Valid() && fresh(repr - old(repr))
      ensures forwarded.Some? ==> forwarded.value.Valid()
      ensures Turned(old(table), old(socket))
              == Turn(Effect(table, if forwarded.Some? then Some(forwarded.value.View()) else None), socket)
    {
      hide Parse, MB.Inserted, MB.HasSlot, MB.MessageBuilder.Valid, MB.MessageBuilder.View, MB.Assembly.Finished;
      var datagram := socket[0];
      var read := false;
      forwarded, read := Process(datagram);
      if read {
        socket := socket[1..];
      }
    }

    /** What the front datagram leads to, and whether it is read. */
    method Process(datagram: seq<byte>) returns (forwarded: Option<MB.MessageBuilder>, read: bool)
      requires Valid() && Accepts(table, datagram)
      modifies this, repr
      ensures Valid() && fresh(repr - old(repr)) && socket == old(socket)
      ensures forwarded.Some? ==> forwarded.value.Valid()
      ensures Arrived(old(table), datagram)
              == Effect(table, if forwarded.Some? then Some(forwarded.value.View()) else None)
      ensures read <==> !IsRepeat(old(table), datagram)
    {
      hide Parse, MB.Inserted, MB.HasSlot, MB.MessageBuilder.Valid, MB.MessageBuilder.View, MB.Assembly.Finished;
      read := true;
      var headerBuf := new byte[HEADER_SIZE](i requires 0 <= i < HEADER_SIZE <= |datagram| => datagram[i]);
      assert headerBuf[..] == datagram[..HEADER_SIZE];
      var parsed := TryFrom(headerBuf);
      forwarded := None;
      if parsed.None? {
        return;
      }
      var header := parsed.value;
      if header.maxSeqNum == 0 {
        var mb := First(header, datagram);
        forwarded := Some(mb);
      } else if header.msgId in recvd {
        forwarded, read := Continue(header, datagram);
      } else {
        var mb := First(header, datagram);
        Enter(header.msgId, mb);
      }
    }

    /** A new entry. */
    method Enter(id: nat, mb: MB.MessageBuilder)
      requires Valid() && id !in table
      requires mb !in repr && mb.buf !in repr && mb.Valid()
      modifies this
      ensures Valid() && repr == old(repr) + {mb, mb.buf} && socket == old(socket)
      ensures table == old(table)[id := mb.View()]
    {
      hide MB.MessageBuilder.Valid, MB.MessageBuilder.View;
      recvd := recvd[id := mb];
      table := table[id := mb.View()];
      repr := repr + {mb, mb.buf};
      forall i | i in recvd && i != id
        ensures Builds(i)
      {
        assert old(Builds(i));
      }
    }

    /** A builder for a message, holding the packet at hand. */
    static method First(header: Header, datagram: seq<byte>) returns (mb: MB.MessageBuilder)
      requires MB.HasSlot(MB.Empty(header), header.seqNum)
      ensures fresh(mb) && fresh(mb.buf) && mb.Valid()
      ensures mb.View() == MB.Inserted(MB.Empty(header), header.seqNum, datagram)
    {
      mb := new MB.MessageBuilder(header);
      var _ := mb.Insert(header, datagram);
    }

    /** A further packet of a message in the table. */
    method Continue(header: Header, datagram: seq<byte>) returns (forwarded: Option<MB.MessageBuilder>, read: bool)
      requires Valid() && header.msgId in table
      requires MB.HasSlot(table[header.msgId], header.seqNum)
      modifies this, repr
      ensures Valid() && repr == old(repr) && socket == old(socket)
      ensures read <==> header.seqNum !in old(table)[header.msgId].seen
      ensures var a := MB.Inserted(old(table)[header.msgId], header.seqNum, datagram);
              if a.Finished() then
                && table == old(table) - {header.msgId}
                && forwarded.Some? && forwarded.value.Valid() && forwarded.value.View() == a
              else
                table == old(table)[header.msgId := a] && forwarded.None?
    {
      hide MB.Inserted, MB.HasSlot, MB.MessageBuilder.Valid, MB.MessageBuilder.View, MB.Assembly.Finished;
      var mb := recvd[header.msgId];
      assert Builds(header.msgId);
      read := mb.Insert(header, datagram);
      if mb.Finished() {
        recvd := recvd - {header.msgId};
        table := table - {header.msgId};
        forwarded := Some(mb);
      } else {
        table := table[header.msgId := mb.View()];
        forwarded := None;
      }
      forall id | id in recvd && id != header.msgId
        ensures Builds(id)
      {
        assert old(Builds(id));
      }
    }

    /** The timer of message `id` fires; it may do so after the message has been forwarded. */
    method Expire(id: nat)
      requires Valid()
      modifies this
      ensures Valid() && repr == old(repr) && socket == old(socket)
      ensures table == old(table) - {id}
    {
      recvd := recvd - {id};
      table := table - {id};
      forall i | i in recvd
        ensures Builds(i)
      {
        assert old(Builds(i));
      }
    }
  }
}
