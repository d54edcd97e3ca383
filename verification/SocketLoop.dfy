/** Which datagrams the receive loop gets to read. It peeks the front of the socket's queue, and a packet that its
    reassembly has already is left there: the loop then peeks it again and again until the reassembly times out. */
module SocketLoop {
  import opened Packets
  import opened UdpSerial
  import opened Wrappers
  import opened UdpReceiver
  import opened Delivery

  /** The table, what waits in the socket, what has been read and which timers have fired, and all that ever arrived. */
  datatype Loop = Loop(table: Table, socket: seq<Event>, log: seq<Event>, arrived: seq<Event>)

  datatype Act = Arrive(e: Event) | TakeTurn | Expire(id: nat)

  const IDLE := Loop(map[], [], [], [])

  ghost predicate Possible(sent: Sent, l: Loop, act: Act) {
    match act
    case Arrive(e) => Legal(sent, e) && !e.Timeout?
    case TakeTurn => l.socket != []
    case Expire(_) => true
  }

  /** The front of the queue is a repeat of a packet of an unfinished message. */
  ghost predicate Blocked(l: Loop) {
    l.socket != [] && !Readable(l.table, l.socket[0])
  }

  function Reads(log: seq<Event>): seq<Event> {
    if log == [] then [] else
      var n := |log| - 1;
      Reads(log[..n]) + if log[n].Timeout? then [] else [log[n]]
  }

  /** The table is what the log makes of it, and datagrams are read in the order in which they arrived. */
  ghost predicate LoopOk(sent: Sent, l: Loop) {
    && LegalRun(sent, l.log) && l.table == After(sent, l.log)
    && l.arrived == Reads(l.log) + l.socket
    && forall n | 0 <= n < |l.socket| :: Legal(sent, l.socket[n]) && !l.socket[n].Timeout?
  }

  ghost function Acted(sent: Sent, l: Loop, act: Act): Loop
    requires LoopOk(sent, l) && Possible(sent, l, act)
  {
    match act
    case Arrive(e) => l.(socket := l.socket + [e], arrived := l.arrived + [e])
    case TakeTurn =>
      var e := l.socket[0];
      if Blocked(l) then l else
        l.(table := Step(sent, l.table, e).table, socket := l.socket[1..], log := l.log + [e])
    case Expire(id) => l.(table := l.table - {id}, log := l.log + [Timeout(id)])
  }

  function Bytes(sent: Sent, e: Event): seq<byte>
    requires Legal(sent, e) && !e.Timeout?
  {
    match e
    case Packet(id, i) => Datagram(sent[id], i)
    case Junk(datagram) => datagram
  }

  /** The receiver sees a repeat exactly where the reassembly has the packet already. */
  lemma RepeatIsWaiting(sent: Sent, table: Table, id: nat, i: nat)
    requires SentOk(sent) && TableOk(sent, table) && Legal(sent, Packet(id, i))
    ensures HEADER_SIZE <= |Datagram(sent[id], i)|
    ensures IsRepeat(table, Datagram(sent[id], i)) <==> Waiting(table, id, i)
  {
    var p := sent[id];
    DatagramParses(p, i);
    assert id in table ==> EntryOk(sent, table, id);
    hide Parse, Datagram;
  }

  lemma RepeatChangesNothing(sent: Sent, table: Table, id: nat, i: nat)
    requires SentOk(sent) && TableOk(sent, table) && Legal(sent, Packet(id, i)) && Waiting(table, id, i)
    ensures Accepts(table, Datagram(sent[id], i)) && Arrived(table, Datagram(sent[id], i)) == Effect(table, None)
  {
    PacketEffect(sent, table, id, i);
    DatagramParses(sent[id], i);
    assert EntryOk(sent, table, id);
    assert table[id := table[id]] == table;
  }

  /** A turn is what the receiver does with the front datagram, and being blocked is facing a repeat. */
  lemma TurnIsTheReceivers(sent: Sent, l: Loop, rest: seq<seq<byte>>)
    requires LoopOk(sent, l) && l.socket != []
    ensures var front := Bytes(sent, l.socket[0]);
            && Accepts(l.table, front)
            && (Blocked(l) <==> IsRepeat(l.table, front))
            && Acted(sent, l, TakeTurn).table == Arrived(l.table, front).table
            && Acted(sent, l, TakeTurn).socket == (if Blocked(l) then l.socket else l.socket[1..])
            && Turned(l.table, [front] + rest)
               == Turn(Arrived(l.table, front), if Blocked(l) then [front] + rest else rest)
            && Arrived(l.table, front).forwarded == Step(sent, l.table, l.socket[0]).forwarded
  {
    assert ([Bytes(sent, l.socket[0])] + rest)[1..] == rest;
    hide Parse, Datagram, Arrived, IsRepeat, TableOk, Waiting;
    var e := l.socket[0];
    if e.Packet? {
      PacketEffect(sent, l.table, e.id, e.i);
      RepeatIsWaiting(sent, l.table, e.id, e.i);
      if Waiting(l.table, e.id, e.i) {
        RepeatChangesNothing(sent, l.table, e.id, e.i);
      }
    } else {
      JunkIsRead(l.table, e.datagram);
    }
  }

  lemma JunkIsRead(table: Table, datagram: seq<byte>)
    requires HEADER_SIZE <= |datagram| && Parse(datagram[..HEADER_SIZE]).None?
    ensures Accepts(table, datagram) && !IsRepeat(table, datagram)
  {
  }

  lemma LogGrows(sent: Sent, log: seq<Event>, e: Event)
    requires LegalRun(sent, log) && Legal(sent, e) && Readable(After(sent, log), e)
    ensures LegalRun(sent, log + [e])
    ensures After(sent, log + [e]) == Step(sent, After(sent, log), e).table
    ensures Reads(log + [e]) == Reads(log) + if e.Timeout? then [] else [e]
    ensures !e.Packet? ==> forall id :: Deliveries(sent, log + [e], id) == Deliveries(sent, log, id)
  {
    hide Step, TableOk, Legal, Readable;
    assert (log + [e])[..|log + [e]| - 1] == log;
  }

  lemma ActKeepsOk(sent: Sent, l: Loop, act: Act)
    requires LoopOk(sent, l) && Possible(sent, l, act)
    ensures LoopOk(sent, Acted(sent, l, act))
  {
    hide LegalRun, Step, TableOk, Legal, Readable, After, Reads;
    var m := Acted(sent, l, act);
    match act {
      case Arrive(e) =>
        assert m.arrived == Reads(l.log) + (l.socket + [e]);
      case TakeTurn =>
        if !Blocked(l) {
          LogGrows(sent, l.log, l.socket[0]);
          assert l.socket == [l.socket[0]] + m.socket;
        }
      case Expire(id) =>
        TimeoutsAreLegal(sent, l, id);
        LogGrows(sent, l.log, Timeout(id));
    }
  }

  lemma TimeoutsAreLegal(sent: Sent, l: Loop, id: nat)
    requires LoopOk(sent, l)
    ensures Legal(sent, Timeout(id)) && Readable(l.table, Timeout(id))
    ensures Step(sent, l.table, Timeout(id)).table == l.table - {id}
  {
  }

  ghost predicate Runs(sent: Sent, l: Loop, acts: seq<Act>, m: Loop)
    requires LoopOk(sent, l)
    decreases |acts|
  {
    if acts == [] then l == m else
      Possible(sent, l, acts[0]) &&
      (ActKeepsOk(sent, l, acts[0]);
       Runs(sent, Acted(sent, l, acts[0]), acts[1..], m))
  }

  /** Whatever arrives and whichever timers fire, what is read is a run of `Delivery`, in order of arrival. */
  lemma {:induction false} RunKeepsOk(sent: Sent, l: Loop, acts: seq<Act>, m: Loop)
    requires LoopOk(sent, l) && Runs(sent, l, acts, m)
    ensures LoopOk(sent, m)
    decreases |acts|
  {
    if acts != [] {
      ActKeepsOk(sent, l, acts[0]);
      RunKeepsOk(sent, Acted(sent, l, acts[0]), acts[1..], m);
    }
  }

  /** In particular from the start, with nothing waiting and nothing read. */
  lemma StartRuns(sent: Sent, acts: seq<Act>, m: Loop)
    requires SentOk(sent)
    ensures LoopOk(sent, IDLE) && (Runs(sent, IDLE, acts, m) ==> LoopOk(sent, m))
  {
    if Runs(sent, IDLE, acts, m) {
      RunKeepsOk(sent, IDLE, acts, m);
    }
  }

  // ----- a repeat of an unfinished message blocks the loop

  /** Until that message times out, whatever else happens, nothing is read and nothing is delivered. */
  lemma {:induction false} BlockedReadsNothing(sent: Sent, l: Loop, acts: seq<Act>, m: Loop, id: nat)
    requires LoopOk(sent, l) && Blocked(l) && Expire(l.socket[0].id) !in acts && id in sent
    requires Runs(sent, l, acts, m)
    ensures LoopOk(sent, m) && Blocked(m) && l.socket <= m.socket
    ensures Reads(m.log) == Reads(l.log)
    ensures Deliveries(sent, m.log, id) == Deliveries(sent, l.log, id)
    decreases |acts|
  {
    if acts != [] {
      var k := Acted(sent, l, acts[0]);
      BlockedAct(sent, l, acts[0], id);
      BlockedReadsNothing(sent, k, acts[1..], m, id);
    }
  }

  lemma BlockedAct(sent: Sent, l: Loop, act: Act, id: nat)
    requires LoopOk(sent, l) && Possible(sent, l, act) && Blocked(l) && act != Expire(l.socket[0].id) && id in sent
    ensures var m := Acted(sent, l, act);
            && LoopOk(sent, m) && Blocked(m) && l.socket <= m.socket && m.socket[0] == l.socket[0]
            && Reads(m.log) == Reads(l.log)
            && Deliveries(sent, m.log, id) == Deliveries(sent, l.log, id)
  {
    ActKeepsOk(sent, l, act);
    if act.Expire? {
      TimeoutsAreLegal(sent, l, act.id);
      hide LegalRun, Step, TableOk, Legal, After, Reads, Deliveries;
      LogGrows(sent, l.log, Timeout(act.id));
    }
  }

  /** The timeout ends the blockade, and then the repeat is read as the start of a new reassembly. */
  lemma ExpiryUnblocks(sent: Sent, l: Loop)
    requires LoopOk(sent, l) && Blocked(l)
    ensures var m := Acted(sent, l, Expire(l.socket[0].id));
            && LoopOk(sent, m) && !Blocked(m) && m.socket == l.socket
            && Acted(sent, m, TakeTurn).socket == l.socket[1..]
  {
    ActKeepsOk(sent, l, Expire(l.socket[0].id));
  }

  // ----- what gets through when all is read

  lemma {:induction false} ReadsCount(log: seq<Event>, e: Event)
    requires !e.Timeout?
    ensures Arrivals(Reads(log), e) == Arrivals(log, e)
  {
    if log != [] {
      var n := |log| - 1;
      var tail := if log[n].Timeout? then [] else [log[n]];
      ReadsCount(log[..n], e);
      ArrivalsSplit(Reads(log[..n]), tail, e);
      assert log[n] == e ==> tail[..0] == [];
    }
  }

  lemma {:induction false} ArrivalsSplit(a: seq<Event>, b: seq<Event>, e: Event)
    ensures Arrivals(a + b, e) == Arrivals(a, e) + Arrivals(b, e)
  {
    if b == [] {
      assert a + b == a;
    } else {
      ArrivalsSplit(a, b[..|b| - 1], e);
      assert (a + b)[..|a + b| - 1] == a + b[..|b| - 1];
    }
  }

  /** A message whose packets arrive once each never blocks the loop. */
  lemma NoRepeatNoBlockade(sent: Sent, l: Loop)
    requires LoopOk(sent, l) && Blocked(l)
    ensures var e := l.socket[0]; e.Packet? && Arrivals(l.arrived, e) >= 2
  {
    var e := l.socket[0];
    assert Legal(sent, e);
    DeliveriesAreEarned(sent, l.log, e.id, e.i);
    ReadsCount(l.log, e);
    ArrivalsSplit(Reads(l.log), l.socket, e);
    ArrivedIsIn(l.socket, e);
  }

  /** Once all that arrived has been read, a message that did not time out has been delivered exactly when every packet
      of it came. */
  lemma DrainedDelivers(sent: Sent, l: Loop, id: nat)
    requires LoopOk(sent, l) && l.socket == [] && id in sent && Fits(sent[id]) && Timeout(id) !in l.log
    ensures Deliveries(sent, l.log, id) > 0 <==> forall i: nat | i <= Top(sent[id]) :: Packet(id, i) in l.arrived
  {
    assert l.arrived == Reads(l.log);
    assert l.log[0..|l.log|] == l.log;
    forall i: nat | i <= Top(sent[id])
      ensures Packet(id, i) in l.log <==> Packet(id, i) in l.arrived
    {
      ReadsCount(l.log, Packet(id, i));
      ArrivedIsIn(l.log, Packet(id, i));
      ArrivedIsIn(l.arrived, Packet(id, i));
    }
    if forall i: nat | i <= Top(sent[id]) :: Packet(id, i) in l.arrived {
      WindowDelivers(sent, l.log, id, 0, |l.log|);
    }
    if Deliveries(sent, l.log, id) > 0 {
      var from, to := DeliveryHasWindow(sent, l.log, id);
    }
  }

  /** With one arrival of each packet, in whatever order and among whatever else, it is delivered once. */
  lemma DrainedExactlyOnce(sent: Sent, l: Loop, id: nat)
    requires LoopOk(sent, l) && l.socket == [] && id in sent && Fits(sent[id]) && Timeout(id) !in l.log
    requires forall i: nat | i <= Top(sent[id]) :: Arrivals(l.arrived, Packet(id, i)) == 1
    ensures Deliveries(sent, l.log, id) == 1
  {
    assert l.arrived == Reads(l.log);
    forall i: nat | i <= Top(sent[id])
      ensures Arrivals(l.log, Packet(id, i)) == 1
    {
      ReadsCount(l.log, Packet(id, i));
    }
    DeliveredExactlyOnce(sent, l.log, id);
  }
}
