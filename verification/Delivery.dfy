/** What the receiver makes of the datagrams it reads, in whatever order they come, and of the timers that fire. Which
    datagrams it gets to read is the subject of `SocketLoop`. */
module Delivery {
  import opened Packets
  import opened UdpSerial
  import opened Wrappers
  import opened UdpReceiver
  import MB = MessageBuilder

  /** The messages sent, by id: ids are distinct. */
  type Sent = map<nat, Parcel>

  datatype Event = Packet(id: nat, i: nat) | Junk(datagram: seq<byte>) | Timeout(id: nat)

  ghost predicate SentOk(sent: Sent) {
    forall id | id in sent :: Fits(sent[id]) && sent[id].id == id
  }

  /** A packet is one of a message sent; a timer may fire at any moment. */
  predicate Legal(sent: Sent, e: Event) {
    match e
    case Packet(id, i) => id in sent && Fits(sent[id]) && i <= Top(sent[id])
    case Junk(datagram) => HEADER_SIZE <= |datagram| && Parse(datagram[..HEADER_SIZE]).None?
    case Timeout(_) => true
  }

  ghost predicate Waiting(table: Table, id: nat, i: nat) {
    id in table && i in table[id].seen
  }

  /** A packet that its reassembly has already is not read off the socket. */
  ghost predicate Readable(table: Table, e: Event) {
    e.Packet? ==> !Waiting(table, e.id, e.i)
  }

  /** Everything in the run has been read, or is a timer. */
  ghost predicate LegalRun(sent: Sent, run: seq<Event>)
    decreases |run|, 0
  {
    && SentOk(sent)
    && (run == [] ||
        var n := |run| - 1;
        && LegalRun(sent, run[..n])
        && Legal(sent, run[n]) && Readable(After(sent, run[..n]), run[n]))
  }

  ghost predicate EntryOk(sent: Sent, table: Table, id: nat)
    requires id in table
  {
    && id in sent && MB.Holds(sent[id], table[id]) && sent[id].id == id
    && Top(sent[id]) > 0 && !table[id].Finished()
  }

  /** Every entry is an unfinished reassembly of the message with its id. */
  ghost predicate TableOk(sent: Sent, table: Table) {
    forall id | id in table :: EntryOk(sent, table, id)
  }

  lemma DatagramParses(p: Parcel, i: nat)
    requires Fits(p) && i <= Top(p)
    ensures HEADER_SIZE <= |Datagram(p, i)|
    ensures Parse(Datagram(p, i)[..HEADER_SIZE]) == Some(HeaderOf(p, i))
  {
    PutThenParse(HeaderOf(p, i));
    assert Datagram(p, i)[..HEADER_SIZE] == Encode(HeaderOf(p, i));
  }

  /** The table and what is forwarded, after a packet of message `id` has made its reassembly `a`. */
  ghost function Outcome(table: Table, id: nat, a: MB.Assembly, single: bool): Effect {
    if single then Effect(table, Some(a))
    else if a.Finished() then Effect(table - {id}, Some(a))
    else Effect(table[id := a], None)
  }

  /** What a packet does to the table: it goes into the message's reassembly, which is forwarded when full. */
  lemma PacketEffect(sent: Sent, table: Table, id: nat, i: nat)
    requires SentOk(sent) && TableOk(sent, table) && Legal(sent, Packet(id, i))
    ensures var p := sent[id];
            var d := Datagram(p, i);
            && Accepts(table, d)
            && var a := MB.Inserted(Target(table, HeaderOf(p, i)), i, d);
            && MB.Holds(p, a)
            && i in a.seen
            && Arrived(table, d) == Outcome(table, id, a, Top(p) == 0)
            && (Top(p) == 0 ==> a.Finished())
  {
    hide MB.Inserted, Datagram, Parse;
    var p := sent[id];
    var h := HeaderOf(p, i);
    DatagramParses(p, i);
    MB.EmptyHolds(p, i);
    assert id in table ==> EntryOk(sent, table, id);
    var t := Target(table, h);
    MB.InsertHolds(p, t, i);
    InsertedSeen(t, i, Datagram(p, i));
    if id !in table && Top(p) > 0 {
      assert !MB.Inserted(t, i, Datagram(p, i)).Finished() by {
        assert (if i == 0 then 1 else 0) !in MB.Inserted(t, i, Datagram(p, i)).seen;
      }
    }
  }

  lemma InsertedSeen(a: MB.Assembly, i: nat, d: seq<byte>)
    requires MB.HasSlot(a, i)
    ensures MB.Inserted(a, i, d).seen == a.seen + {i} && MB.Inserted(a, i, d).maxSeqNum == a.maxSeqNum
  {
  }

  /** One event. */
  ghost function Step(sent: Sent, table: Table, e: Event): (effect: Effect)
    requires SentOk(sent) && TableOk(sent, table) && Legal(sent, e)
    ensures TableOk(sent, effect.table)
  {
    match e
    case Packet(id, i) =>
      PacketEffect(sent, table, id, i);
      Arrived(table, Datagram(sent[id], i))
    case Junk(datagram) => Arrived(table, datagram)
    case Timeout(id) => Effect(table - {id}, None)
  }

  ghost function After(sent: Sent, run: seq<Event>): (table: Table)
    requires LegalRun(sent, run)
    ensures TableOk(sent, table)
    decreases |run|, 1
  {
    if run == [] then map[] else
      var n := |run| - 1;
      Step(sent, After(sent, run[..n]), run[n]).table
  }

  lemma {:induction false} LegalPrefix(sent: Sent, run: seq<Event>, n: nat)
    requires LegalRun(sent, run) && n <= |run|
    ensures LegalRun(sent, run[..n])
    ensures n < |run| ==> Legal(sent, run[n]) && Readable(After(sent, run[..n]), run[n])
  {
    if n < |run| - 1 {
      LegalPrefix(sent, run[..|run| - 1], n);
      assert run[..|run| - 1][..n] == run[..n];
    } else if n == |run| {
      assert run[..n] == run;
    }
  }

  /** What event `n` of the run forwards. */
  ghost function ForwardedAt(sent: Sent, run: seq<Event>, n: nat): Option<MB.Assembly>
    requires LegalRun(sent, run) && n < |run|
  {
    LegalPrefix(sent, run, n);
    Step(sent, After(sent, run[..n]), run[n]).forwarded
  }

  /** Whatever is forwarded, after any losses, repeats, reordering and timeouts, is a message as it was sent. */
  lemma ForwardedIsWhatWasSent(sent: Sent, run: seq<Event>, n: nat)
    requires LegalRun(sent, run) && n < |run|
    requires ForwardedAt(sent, run, n).Some?
    ensures run[n].Packet? && run[n].id in sent
    ensures var a, p := ForwardedAt(sent, run, n).value, sent[run[n].id];
            && HEADER_SIZE + a.msgSize <= |a.buf|
            && a.Msg() == p.item && a.Dest() == p.dest && a.intp == p.intp
  {
    LegalPrefix(sent, run, n);
    var table := After(sent, run[..n]);
    var id, i := run[n].id, run[n].i;
    PacketEffect(sent, table, id, i);
    MB.FinishedIsWhatWasSent(sent[id], ForwardedAt(sent, run, n).value);
  }

  ghost function Deliveries(sent: Sent, run: seq<Event>, id: nat): nat
    requires LegalRun(sent, run)
  {
    if run == [] then 0 else
      var n := |run| - 1;
      Deliveries(sent, run[..n], id)
      + if run[n].Packet? && run[n].id == id && ForwardedAt(sent, run, n).Some? then 1 else 0
  }

  function Arrivals(run: seq<Event>, e: Event): nat {
    if run == [] then 0 else
      var n := |run| - 1;
      Arrivals(run[..n], e) + if run[n] == e then 1 else 0
  }

  /** How one event changes a message's entry and whether it delivers it. */
  lemma StepForMessage(sent: Sent, table: Table, e: Event, id: nat, i: nat)
    requires SentOk(sent) && TableOk(sent, table) && Legal(sent, e) && id in sent && i <= Top(sent[id])
    ensures var effect := Step(sent, table, e);
            if e.Packet? && e.id == id then
              if effect.forwarded.Some?
              then !Waiting(effect.table, id, i) && (Waiting(table, id, i) || e.i == i)
              else Waiting(effect.table, id, i) == (Waiting(table, id, i) || e.i == i)
            else Waiting(effect.table, id, i) == (Waiting(table, id, i) && e != Timeout(id))
  {
    if e.Packet? {
      PacketEffect(sent, table, e.id, e.i);
      InsertedSeen(Target(table, HeaderOf(sent[e.id], e.i)), e.i, Datagram(sent[e.id], e.i));
    }
  }

  /** The last event of a run, as far as one packet of one message is concerned. */
  lemma LastStep(sent: Sent, run: seq<Event>, id: nat, i: nat)
    requires LegalRun(sent, run) && run != [] && id in sent && i <= Top(sent[id])
    ensures LegalRun(sent, run[..|run| - 1])
    ensures var e, init := run[|run| - 1], run[..|run| - 1];
            var before, after := Waiting(After(sent, init), id, i), Waiting(After(sent, run), id, i);
            if e.Packet? && e.id == id then
              if Deliveries(sent, run, id) == Deliveries(sent, init, id) then after == (before || e.i == i)
              else Deliveries(sent, run, id) == Deliveries(sent, init, id) + 1 && !after && (before || e.i == i)
            else
              Deliveries(sent, run, id) == Deliveries(sent, init, id) && after == (before && e != Timeout(id))
  {
    hide Step, TableOk, Waiting;
    StepForMessage(sent, After(sent, run[..|run| - 1]), run[|run| - 1], id, i);
  }

  /** Every delivery of a message uses up a reading of each of its packets. */
  lemma {:induction false} DeliveriesAreEarned(sent: Sent, run: seq<Event>, id: nat, i: nat)
    requires LegalRun(sent, run) && id in sent && i <= Top(sent[id])
    ensures Deliveries(sent, run, id) + (if Waiting(After(sent, run), id, i) then 1 else 0)
            <= Arrivals(run, Packet(id, i))
  {
    if run != [] {
      LastStep(sent, run, id, i);
      hide After, Deliveries, Waiting, LegalRun;
      DeliveriesAreEarned(sent, run[..|run| - 1], id, i);
    }
  }

  lemma {:induction false} DeliveriesGrow(sent: Sent, run: seq<Event>, n: nat, id: nat)
    requires LegalRun(sent, run) && n <= |run|
    ensures LegalRun(sent, run[..n]) && Deliveries(sent, run[..n], id) <= Deliveries(sent, run, id)
  {
    if n < |run| {
      DeliveriesGrow(sent, run[..|run| - 1], n, id);
      assert run[..|run| - 1][..n] == run[..n];
    } else {
      assert run[..n] == run;
    }
  }

  lemma Suffix(run: seq<Event>, from: nat)
    requires from < |run|
    ensures run[..|run| - 1][..from] == run[..from]
    ensures run[from..|run|] == run[from..]
    ensures forall e :: e in run[from..] <==> e in run[..|run| - 1][from..] || e == run[|run| - 1]
  {
    assert run[from..] == run[..|run| - 1][from..] + [run[|run| - 1]];
  }

  /** While neither a timeout nor a delivery intervenes, what has arrived is waiting. */
  lemma {:induction false} ArrivedIsWaiting(sent: Sent, run: seq<Event>, from: nat, id: nat, i: nat)
    requires LegalRun(sent, run) && id in sent && i <= Top(sent[id]) && from <= |run|
    requires Timeout(id) !in run[from..] && Packet(id, i) in run[from..]
    requires LegalRun(sent, run[..from]) && Deliveries(sent, run, id) == Deliveries(sent, run[..from], id)
    ensures Waiting(After(sent, run), id, i)
  {
    var n := |run| - 1;
    var init := run[..n];
    hide *;
    LastStep(sent, run, id, i);
    Suffix(run, from);
    DeliveriesGrow(sent, init, from, id);
    if Packet(id, i) in init[from..] {
      ArrivedIsWaiting(sent, init, from, id, i);
    }
  }

  /** What is waiting has arrived since some moment after which there was no timeout. */
  lemma {:induction false} WaitingHasArrived(sent: Sent, run: seq<Event>, id: nat) returns (from: nat)
    requires LegalRun(sent, run) && id in sent && Fits(sent[id])
    ensures from <= |run| && Timeout(id) !in run[from..]
    ensures forall i: nat | i <= Top(sent[id]) && Waiting(After(sent, run), id, i) :: Packet(id, i) in run[from..]
  {
    if run == [] {
      from := 0;
    } else {
      var n := |run| - 1;
      var init := run[..n];
      from := |run|;
      if run[n] != Timeout(id) {
        from := WaitingHasArrived(sent, init, id);
        Suffix(run, from);
      }
      forall i: nat | i <= Top(sent[id]) && Waiting(After(sent, run), id, i)
        ensures Packet(id, i) in run[from..]
      {
        LastStep(sent, run, id, i);
      }
    }
  }

  lemma {:induction false} ArrivedIsIn(run: seq<Event>, e: Event)
    ensures Arrivals(run, e) > 0 <==> e in run
  {
    if run != [] {
      assert run == run[..|run| - 1] + [run[|run| - 1]];
      ArrivedIsIn(run[..|run| - 1], e);
    }
  }

  /** Of a message in the table some packet is missing. */
  lemma StillMissing(sent: Sent, table: Table, id: nat) returns (i: nat)
    requires TableOk(sent, table) && id in sent && Fits(sent[id])
    ensures i <= Top(sent[id]) && !Waiting(table, id, i)
  {
    i := 0;
    if Waiting(table, id, 0) {
      assert EntryOk(sent, table, id);
      i :| i <= table[id].maxSeqNum && i !in table[id].seen;
    }
  }

  /** All packets of the message arrive within the window, and it does not time out in between. */
  ghost predicate Window(sent: Sent, run: seq<Event>, id: nat, from: nat, to: nat)
    requires from <= to <= |run| && id in sent && Fits(sent[id])
  {
    Timeout(id) !in run[from..to] && forall i: nat | i <= Top(sent[id]) :: Packet(id, i) in run[from..to]
  }

  lemma WindowDelivers(sent: Sent, run: seq<Event>, id: nat, from: nat, to: nat)
    requires LegalRun(sent, run) && id in sent && from <= to <= |run| && Fits(sent[id])
    requires Window(sent, run, id, from, to)
    ensures Deliveries(sent, run, id) > 0
  {
    var part := run[..to];
    assert part[from..] == run[from..to];
    DeliveriesGrow(sent, run, to, id);
    DeliveriesGrow(sent, part, from, id);
    if Deliveries(sent, part, id) == Deliveries(sent, part[..from], id) {
      var i := StillMissing(sent, After(sent, part), id);
      ArrivedIsWaiting(sent, part, from, id, i);
    }
  }

  lemma CompletedInWindow(sent: Sent, run: seq<Event>, id: nat) returns (from: nat)
    requires LegalRun(sent, run) && id in sent && Fits(sent[id]) && run != []
    requires LegalRun(sent, run[..|run| - 1]) && Deliveries(sent, run[..|run| - 1], id) < Deliveries(sent, run, id)
    ensures from <= |run| && Window(sent, run, id, from, |run|)
  {
    var n := |run| - 1;
    from := WaitingHasArrived(sent, run[..n], id);
    Suffix(run, from);
    LastStep(sent, run, id, 0);
    forall i: nat | i <= Top(sent[id])
      ensures Packet(id, i) in run[from..|run|]
    {
      hide *;
      LastStep(sent, run, id, i);
    }
  }

  lemma SameWindow(sent: Sent, run: seq<Event>, id: nat, from: nat, to: nat)
    requires id in sent && Fits(sent[id]) && from <= to < |run|
    requires Window(sent, run[..|run| - 1], id, from, to)
    ensures Window(sent, run, id, from, to)
  {
    assert run[..|run| - 1][from..to] == run[from..to];
  }

  lemma {:induction false} DeliveryHasWindow(sent: Sent, run: seq<Event>, id: nat) returns (from: nat, to: nat)
    requires LegalRun(sent, run) && id in sent && Fits(sent[id]) && Deliveries(sent, run, id) > 0
    ensures from <= to <= |run| && Window(sent, run, id, from, to)
  {
    assert run != [];
    hide *;
    LastStep(sent, run, id, 0);
    var init := run[..|run| - 1];
    if Deliveries(sent, init, id) > 0 {
      from, to := DeliveryHasWindow(sent, init, id);
      SameWindow(sent, run, id, from, to);
    } else {
      from := CompletedInWindow(sent, run, id);
      to := |run|;
    }
  }

  /** A message is delivered exactly when at some time all its packets were read, in any order, with no timeout of it
      in between. */
  lemma DeliveredIffWindow(sent: Sent, run: seq<Event>, id: nat)
    requires LegalRun(sent, run) && id in sent && Fits(sent[id])
    ensures Deliveries(sent, run, id) > 0
       <==> exists from: nat, to: nat :: from <= to <= |run| && Window(sent, run, id, from, to)
  {
    if Deliveries(sent, run, id) > 0 {
      var from, to := DeliveryHasWindow(sent, run, id);
    }
    if from: nat, to: nat :| from <= to <= |run| && Window(sent, run, id, from, to) {
      WindowDelivers(sent, run, id, from, to);
    }
  }

  /** So if each packet is read exactly once and none is late, the message is delivered exactly once. */
  lemma DeliveredExactlyOnce(sent: Sent, run: seq<Event>, id: nat)
    requires LegalRun(sent, run) && id in sent && Fits(sent[id]) && Timeout(id) !in run
    requires forall i: nat | i <= Top(sent[id]) :: Arrivals(run, Packet(id, i)) == 1
    ensures Deliveries(sent, run, id) == 1
  {
    assert run[0..|run|] == run;
    forall i: nat | i <= Top(sent[id])
      ensures Packet(id, i) in run
    {
      ArrivedIsIn(run, Packet(id, i));
    }
    assert Window(sent, run, id, 0, |run|);
    DeliveredIffWindow(sent, run, id);
    DeliveriesAreEarned(sent, run, id, 0);
  }
}
